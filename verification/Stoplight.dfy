/** The four-way intersection of stoplight.c, for any number of cars.

    Sides are numbered counter-clockwise N, W, S, E = 0..3 and regions NW, SW, SE, NE = 0..3, so a
    car from side d enters region d and goes on to d+1 and d+2 modulo 4; a right turn takes one
    region, going straight two, a left turn three. Every shared access of the C code is one step:
    lock_acquire, lock_release, a test of a region flag, a write of a region flag. */
module Stoplight {

  /** A car's side and the number of regions on its way. */
  datatype Car = Car(from: nat, len: nat)

  /** Where a car is in gostraight, turnleft or turnright: what it does next. */
  datatype Phase =
    | WantMutex         // lock_acquire(mutex of its side)
    | PassMutex         // right turn: lock_release(mutex) at once
    | Spin              // while (flag of its last region) {}
    | Want(k: nat)      // lock_acquire(lock of its k-th region)
    | Check(k: nat)     // if (flag of its k-th region) panic
    | CheckAhead        // if (flag of its last region) go to BackOff
    | BackOff           // lock_release(lock of its first region), back to Spin
    | Set(k: nat)       // flag of its k-th region = 1
    | DropMutex         // lock_release(mutex)
    | ClearPrev(k: nat) // flag of region k-1 = 0
    | DropPrev(k: nat)  // lock_release(lock of region k-1)
    | ClearLast         // flag of its last region = 0
    | DropLast          // lock_release(lock of its last region)
    | Through           // V(CarsWait)
    | Done

  datatype Owner = Free | By(car: nat)

  datatype State = State(cars: seq<Car>, at: seq<Phase>, lock: seq<Owner>, flag: seq<bool>, mutex: seq<Owner>, carsWait: nat)

  /** The k-th region on the car's way. */
  function Region(car: Car, k: int): (r: nat)
    ensures r < 4
  {
    var n := car.from + k;
    if 0 <= n < 4 then n else if 4 <= n < 8 then n - 4 else 0
  }

  /** The region tested before entering: the last one on the way. */
  function Ahead(car: Car): nat { Region(car, car.len - 1) }

  /** Region r is the Index(car, r)-th counted from the car's side. */
  function Index(car: Car, r: int): int { if r >= car.from then r - car.from else r + 4 - car.from }

  /** The next region counter-clockwise. */
  function After(r: int): int { if r == 3 then 0 else r + 1 }

  lemma RegionIndex(car: Car, k: int, r: nat)
    requires car.from < 4 && 0 <= k < 4 && r < 4
    ensures Region(car, k) == r <==> Index(car, r) == k
  {
  }

  lemma AheadApart(car: Car)
    requires car.from < 4 && 2 <= car.len <= 3
    ensures Region(car, 0) != Ahead(car)
  {
  }

  lemma NextRegion(car: Car, k: int)
    requires car.from < 4 && 0 <= k < 3
    ensures Region(car, k + 1) == After(Region(car, k))
  {
  }

  /** turnDirectionMaking: right, straight and left are ways of one, two and three regions. */
  function WayLength(from: nat, to: nat): nat
    requires from < 4 && to < 4 && from != to
  {
    match (from, to)
    case (0, 1) => 1 case (0, 2) => 2 case (0, 3) => 3
    case (2, 3) => 1 case (2, 0) => 2 case (2, 1) => 3
    case (1, 2) => 1 case (1, 3) => 2 case (1, 0) => 3
    case (3, 0) => 1 case (3, 1) => 2 case (_, _) => 3
  }

  /** The way ends in the region next to the destination. */
  lemma WayLeadsThere(from: nat, to: nat)
    requires from < 4 && to < 4 && from != to
    ensures After(Ahead(Car(from, WayLength(from, to)))) == to
  {
  }

  // ---------------------------------------------------------------- steps

  /** A step's effect on the locks, the flags or the car's mutex: at most one is put or cleared,
      given by its place on the car's way. */
  datatype Touch = Leave | Put(k: int) | Clear(k: int)

  datatype Effect = Effect(next: Phase, lock: Touch, flag: Touch, mutex: Touch)

  /** What a car in phase ph does when nothing stops it; ahead is the flag of its last region. With
      atomic entry, a car going straight or left takes its first region's lock, tests the region ahead,
      and either sets its flag or releases the lock and goes back, all in a single step. */
  function Action(car: Car, ph: Phase, ahead: bool, atomic: bool): Effect {
    match ph
    case WantMutex => Effect(if car.len == 1 then PassMutex else Spin, Leave, Leave, Put(0))
    case PassMutex => Effect(Want(0), Leave, Leave, Clear(0))
    case Spin => Effect(Want(0), Leave, Leave, Leave)
    case Want(k) =>
      if Enters(car, ph, atomic) then (if ahead then Effect(Spin, Leave, Leave, Leave) else Effect(DropMutex, Put(0), Put(0), Leave))
      else Effect(Check(k), Put(k), Leave, Leave)
    case Check(k) => Effect(if k == 0 && car.len > 1 then CheckAhead else Set(k), Leave, Leave, Leave)
    case CheckAhead => Effect(if ahead then BackOff else Set(0), Leave, Leave, Leave)
    case BackOff => Effect(Spin, Clear(0), Leave, Leave)
    case Set(k) => Effect(if k > 0 then ClearPrev(k) else if car.len > 1 then DropMutex else ClearLast, Leave, Put(k), Leave)
    case DropMutex => Effect(Want(1), Leave, Leave, Clear(0))
    case ClearPrev(k) => Effect(DropPrev(k), Leave, Clear(k - 1), Leave)
    case DropPrev(k) => Effect(if k + 1 == car.len then ClearLast else Want(k + 1), Clear(k - 1), Leave, Leave)
    case ClearLast => Effect(DropLast, Leave, Clear(car.len - 1), Leave)
    case DropLast => Effect(Through, Clear(car.len - 1), Leave, Leave)
    case Through => Effect(Done, Leave, Leave, Leave)
    case Done => Effect(Done, Leave, Leave, Leave)
  }

  /** The phase in which atomic entry happens. */
  predicate Enters(car: Car, ph: Phase, atomic: bool) { atomic && car.len > 1 && ph == Want(0) }

  predicate Shape(s: State) {
    |s.at| == |s.cars| && |s.lock| == |s.flag| == |s.mutex| == 4
  }

  function TouchOwner(v: seq<Owner>, car: Car, t: Touch, c: nat): seq<Owner>
    requires |v| == 4
  {
    match t
    case Leave => v
    case Put(k) => v[Region(car, k) := By(c)]
    case Clear(k) => v[Region(car, k) := Free]
  }

  function TouchFlag(v: seq<bool>, car: Car, t: Touch): seq<bool>
    requires |v| == 4
  {
    match t
    case Leave => v
    case Put(k) => v[Region(car, k) := true]
    case Clear(k) => v[Region(car, k) := false]
  }

  /** The car waits: for a lock someone holds, or for the flag ahead to go down. */
  predicate Blocked(s: State, c: nat)
    requires Shape(s) && c < |s.cars|
  {
    var car := s.cars[c];
    match s.at[c]
    case WantMutex => s.mutex[Region(car, 0)] != Free
    case Spin => s.flag[Ahead(car)]
    case Want(k) => s.lock[Region(car, k)] != Free
    case Done => true
    case _ => false
  }

  /** The "occupied by other thread" panics and the assertions that a region is empty. */
  predicate Panics(s: State, c: nat, atomic: bool)
    requires Shape(s) && c < |s.cars|
  {
    match s.at[c]
    case Want(k) => Enters(s.cars[c], s.at[c], atomic) && s.flag[Region(s.cars[c], 0)]
    case Check(k) => s.flag[Region(s.cars[c], k)]
    case _ => false
  }

  function Apply(s: State, c: nat, e: Effect): (s': State)
    requires Shape(s) && c < |s.cars|
    ensures Shape(s')
  {
    var car := s.cars[c];
    State(s.cars, s.at[c := e.next],
          TouchOwner(s.lock, car, e.lock, c), TouchFlag(s.flag, car, e.flag), TouchOwner(s.mutex, car, e.mutex, c),
          if s.at[c] == Through then s.carsWait + 1 else s.carsWait)
  }

  function Step(s: State, c: nat, atomic: bool): (s': State)
    requires Shape(s) && c < |s.cars|
    ensures Shape(s')
  {
    if Blocked(s, c) then s
    else Apply(s, c, Action(s.cars[c], s.at[c], s.flag[Ahead(s.cars[c])], atomic))
  }

  predicate Initial(s: State) {
    && |s.at| == |s.cars|
    && (forall c :: 0 <= c < |s.cars| ==> s.cars[c].from < 4 && 1 <= s.cars[c].len <= 3 && s.at[c] == WantMutex)
    && s.lock == [Free, Free, Free, Free] && s.mutex == [Free, Free, Free, Free]
    && s.flag == [false, false, false, false] && s.carsWait == 0
  }

  // ---------------------------------------------------------------- safety

  /** The car holds the locks of its regions HeldFrom <= i < HeldTo. */
  function HeldFrom(car: Car, ph: Phase): int {
    match ph
    case Want(k) => if k == 0 then 0 else k - 1
    case Check(k) => if k == 0 then 0 else k - 1
    case Set(k) => if k == 0 then 0 else k - 1
    case ClearPrev(k) => k - 1
    case DropPrev(k) => k - 1
    case ClearLast => car.len - 1
    case DropLast => car.len - 1
    case _ => 0
  }

  function HeldTo(car: Car, ph: Phase): int {
    match ph
    case Want(k) => k
    case Check(k) => k + 1
    case Set(k) => k + 1
    case CheckAhead => 1
    case BackOff => 1
    case DropMutex => 1
    case ClearPrev(k) => k + 1
    case DropPrev(k) => k + 1
    case ClearLast => car.len
    case DropLast => car.len
    case _ => 0
  }

  predicate Holds(car: Car, ph: Phase, i: int) {
    HeldFrom(car, ph) <= i < HeldTo(car, ph)
  }

  /** The car is in its i-th region: it has set the region's flag and not cleared it. */
  predicate In(car: Car, ph: Phase, i: int) {
    && Holds(car, ph, i)
    && match ph
       case Check(k) => i < k
       case Set(k) => i < k
       case CheckAhead => false
       case BackOff => false
       case DropPrev(k) => i == k
       case DropLast => false
       case _ => true
  }

  predicate HoldsMutex(car: Car, ph: Phase) {
    match ph
    case PassMutex => true
    case Spin => true
    case Want(k) => k == 0 && car.len > 1
    case Check(k) => k == 0 && car.len > 1
    case Set(k) => k == 0 && car.len > 1
    case CheckAhead => true
    case BackOff => true
    case DropMutex => true
    case _ => false
  }

  predicate PhaseOk(car: Car, ph: Phase) {
    && car.from < 4 && 1 <= car.len <= 3
    && match ph
       case PassMutex => car.len == 1
       case Spin => car.len > 1
       case Want(k) => k < car.len
       case Check(k) => k < car.len
       case Set(k) => k < car.len
       case CheckAhead => car.len > 1
       case BackOff => car.len > 1
       case DropMutex => car.len > 1
       case ClearPrev(k) => 1 <= k < car.len
       case DropPrev(k) => 1 <= k < car.len
       case _ => true
  }

  /** The effect on locks agrees with the phase tables at the car's i-th region: a lock is taken only
      when not held and given back only when held and the region is empty. */
  ghost predicate LocksAgree(car: Car, ph: Phase, e: Effect, i: int) {
    && (Holds(car, e.next, i) <==> if e.lock == Put(i) then true else if e.lock == Clear(i) then false else Holds(car, ph, i))
    && (e.lock == Put(i) ==> !Holds(car, ph, i))
    && (e.lock == Clear(i) ==> Holds(car, ph, i) && !In(car, ph, i) && e.flag == Leave)
    && (e.lock.Leave? || 0 <= e.lock.k < 4)
  }

  /** A flag changes only under the region's lock. */
  ghost predicate FlagsAgree(car: Car, ph: Phase, e: Effect, i: int) {
    && (In(car, e.next, i) <==> if e.flag == Put(i) then true else if e.flag == Clear(i) then false else In(car, ph, i))
    && (e.flag == Put(i) || e.flag == Clear(i) ==> Holds(car, e.next, i))
    && (e.flag.Leave? || 0 <= e.flag.k < 4)
  }

  ghost predicate MutexAgrees(car: Car, ph: Phase, e: Effect) {
    && PhaseOk(car, e.next)
    && (HoldsMutex(car, e.next) <==> if e.mutex == Put(0) then true else if e.mutex == Clear(0) then false else HoldsMutex(car, ph))
    && (e.mutex == Leave || (e.mutex == Put(0) && !HoldsMutex(car, ph)) || (e.mutex == Clear(0) && HoldsMutex(car, ph)))
  }

  lemma ActionLocks(car: Car, ph: Phase, ahead: bool, atomic: bool, i: int)
    requires PhaseOk(car, ph) && 0 <= i < 4
    ensures LocksAgree(car, ph, Action(car, ph, ahead, atomic), i)
  {
  }

  lemma ActionFlags(car: Car, ph: Phase, ahead: bool, atomic: bool, i: int)
    requires PhaseOk(car, ph) && 0 <= i < 4
    ensures FlagsAgree(car, ph, Action(car, ph, ahead, atomic), i)
  {
    if ph.Want? || ph.Check? || ph.Set? {
      ActionFlagsIn(car, ph, ahead, atomic, i);
    }
  }

  lemma ActionFlagsIn(car: Car, ph: Phase, ahead: bool, atomic: bool, i: int)
    requires PhaseOk(car, ph) && 0 <= i < 4 && (ph.Want? || ph.Check? || ph.Set?)
    ensures FlagsAgree(car, ph, Action(car, ph, ahead, atomic), i)
  {
  }

  lemma ActionMutex(car: Car, ph: Phase, ahead: bool, atomic: bool)
    requires PhaseOk(car, ph)
    ensures MutexAgrees(car, ph, Action(car, ph, ahead, atomic))
  {
  }

  ghost predicate CarOk(s: State, c: int)
    requires Shape(s) && 0 <= c < |s.cars|
  {
    var car, ph := s.cars[c], s.at[c];
    && PhaseOk(car, ph)
    && (forall r {:trigger s.lock[r]} :: 0 <= r < 4 ==> (Holds(car, ph, Index(car, r)) <==> s.lock[r] == By(c)))
    && (HoldsMutex(car, ph) <==> s.mutex[car.from] == By(c))
  }

  /** A region's flag is set exactly while one car, the holder of its lock, is in it. */
  ghost predicate RegionOk(s: State, r: int)
    requires Shape(s) && 0 <= r < 4
  {
    && (s.lock[r].By? ==> s.lock[r].car < |s.cars|)
    && (s.flag[r] <==> s.lock[r].By? && var o := s.lock[r].car; In(s.cars[o], s.at[o], Index(s.cars[o], r)))
    && (s.mutex[r].By? ==> s.mutex[r].car < |s.cars| && s.cars[s.mutex[r].car].from == r)
  }

  ghost predicate Inv(s: State) {
    && Shape(s)
    && (forall c {:trigger CarOk(s, c)} :: 0 <= c < |s.cars| ==> CarOk(s, c))
    && (forall r {:trigger RegionOk(s, r)} :: 0 <= r < 4 ==> RegionOk(s, r))
  }

  /** What a step may do to region r on behalf of car c, which is then in phase ph. */
  ghost predicate RegionStep(s: State, s': State, c: nat, ph: Phase, r: int)
    requires Shape(s) && Shape(s') && c < |s.cars| && 0 <= r < 4
  {
    var car := s.cars[c];
    && (Holds(car, ph, Index(car, r)) <==> s'.lock[r] == By(c))
    && (s'.lock[r] != s.lock[r] ==> (s.lock[r] == Free && s'.lock[r] == By(c)) || (s.lock[r] == By(c) && s'.lock[r] == Free))
    && (s'.flag[r] <==> if s'.lock[r] == By(c) then In(car, ph, Index(car, r)) else s.lock[r] != By(c) && s.flag[r])
  }

  ghost predicate MutexStep(s: State, s': State, c: nat, ph: Phase, d: int)
    requires Shape(s) && Shape(s') && c < |s.cars| && 0 <= d < 4
  {
    && (d == s.cars[c].from ==> (HoldsMutex(s.cars[c], ph) <==> s'.mutex[d] == By(c)))
    && (s'.mutex[d] != s.mutex[d] ==>
          d == s.cars[c].from && ((s.mutex[d] == Free && s'.mutex[d] == By(c)) || (s.mutex[d] == By(c) && s'.mutex[d] == Free)))
  }

  /** A change of one car's phase with such effects keeps the invariant. */
  lemma EffectKeepsInv(s: State, s': State, c: nat, ph: Phase)
    requires Inv(s) && Shape(s') && c < |s.cars| && s'.cars == s.cars && s'.at == s.at[c := ph] && PhaseOk(s.cars[c], ph)
    requires forall r {:trigger RegionStep(s, s', c, ph, r)} :: 0 <= r < 4 ==> RegionStep(s, s', c, ph, r) && MutexStep(s, s', c, ph, r)
    ensures Inv(s')
  {
    forall r | 0 <= r < 4
      ensures RegionOk(s', r)
    {
      assert RegionOk(s, r) && RegionStep(s, s', c, ph, r);
      if s.lock[r].By? { assert CarOk(s, s.lock[r].car); }
    }
    forall d | 0 <= d < |s.cars|
      ensures CarOk(s', d)
    {
      assert CarOk(s, d);
      forall r | 0 <= r < 4
        ensures Holds(s.cars[d], s'.at[d], Index(s.cars[d], r)) <==> s'.lock[r] == By(d)
      {
        assert RegionStep(s, s', c, ph, r);
      }
      assert RegionStep(s, s', c, ph, s.cars[d].from);
    }
  }

  lemma ApplyRegion(s: State, c: nat, e: Effect, r: nat)
    requires Shape(s) && c < |s.cars| && CarOk(s, c) && r < 4 && RegionOk(s, r)
    requires LocksAgree(s.cars[c], s.at[c], e, Index(s.cars[c], r)) && FlagsAgree(s.cars[c], s.at[c], e, Index(s.cars[c], r))
    requires e.lock == Put(Index(s.cars[c], r)) ==> s.lock[r] == Free
    ensures RegionStep(s, Apply(s, c, e), c, e.next, r)
  {
    var car := s.cars[c];
    var owner := s.lock[r];
    if !e.lock.Leave? { RegionIndex(car, e.lock.k, r); }
    if !e.flag.Leave? { RegionIndex(car, e.flag.k, r); }
  }

  lemma ApplyMutex(s: State, c: nat, e: Effect, d: nat)
    requires Shape(s) && c < |s.cars| && CarOk(s, c) && d < 4 && MutexAgrees(s.cars[c], s.at[c], e)
    requires e.mutex == Put(0) ==> s.mutex[s.cars[c].from] == Free
    ensures MutexStep(s, Apply(s, c, e), c, e.next, d)
  {
  }

  /** A lock an unblocked step puts is free. */
  lemma PutsFree(s: State, c: nat, atomic: bool)
    requires Shape(s) && c < |s.cars| && CarOk(s, c) && !Blocked(s, c)
    ensures var e := Action(s.cars[c], s.at[c], s.flag[Ahead(s.cars[c])], atomic);
            && (e.lock.Put? ==> s.lock[Region(s.cars[c], e.lock.k)] == Free)
            && (e.mutex == Put(0) ==> s.mutex[s.cars[c].from] == Free)
  {
  }

  lemma StepRegion(s: State, c: nat, atomic: bool, r: nat)
    requires Shape(s) && c < |s.cars| && CarOk(s, c) && r < 4 && RegionOk(s, r) && !Blocked(s, c)
    ensures var s' := Step(s, c, atomic);
            RegionStep(s, s', c, s'.at[c], r) && MutexStep(s, s', c, s'.at[c], r) && PhaseOk(s.cars[c], s'.at[c])
  {
    var car := s.cars[c];
    var ahead := s.flag[Ahead(car)];
    var e := Action(car, s.at[c], ahead, atomic);
    ActionLocks(car, s.at[c], ahead, atomic, Index(car, r));
    ActionFlags(car, s.at[c], ahead, atomic, Index(car, r));
    ActionMutex(car, s.at[c], ahead, atomic);
    PutsFree(s, c, atomic);
    if e.lock == Put(Index(car, r)) { RegionIndex(car, e.lock.k, r); }
    ApplyRegion(s, c, e, r);
    ApplyMutex(s, c, e, r);
  }

  /** No panic, no failed assertion, and the invariant is kept, whatever car moves. */
  lemma StepSafe(s: State, c: nat, atomic: bool)
    requires Inv(s) && c < |s.cars|
    ensures !Blocked(s, c) ==> !Panics(s, c, atomic)
    ensures Inv(Step(s, c, atomic))
  {
    var s' := Step(s, c, atomic);
    assert CarOk(s, c);
    if !Blocked(s, c) {
      NoPanic(s, c, atomic);
      forall r | 0 <= r < 4
        ensures RegionStep(s, s', c, s'.at[c], r) && MutexStep(s, s', c, s'.at[c], r)
      {
        assert RegionOk(s, r);
        StepRegion(s, c, atomic, r);
      }
      StepRegion(s, c, atomic, 0);
      EffectKeepsInv(s, s', c, s'.at[c]);
    }
  }

  lemma NoPanic(s: State, c: nat, atomic: bool)
    requires Inv(s) && c < |s.cars| && !Blocked(s, c)
    ensures !Panics(s, c, atomic) && (s.at[c].Check? ==> !s.flag[Region(s.cars[c], s.at[c].k)])
  {
    assert CarOk(s, c);
    var k := if s.at[c].Check? then s.at[c].k else 0;
    var r := Region(s.cars[c], k);
    assert RegionOk(s, r);
    RegionIndex(s.cars[c], k, r);
  }

  /** No two cars are ever in the same region. */
  lemma Exclusive(s: State, a: nat, b: nat, r: nat)
    requires Inv(s) && a < |s.cars| && b < |s.cars| && a != b && r < 4
    ensures !(In(s.cars[a], s.at[a], Index(s.cars[a], r)) && In(s.cars[b], s.at[b], Index(s.cars[b], r)))
  {
    assert CarOk(s, a) && CarOk(s, b);
    var owner := s.lock[r];
  }

  /** The state after the cars named in sched have each tried one step, in that order. */
  function Exec(s: State, sched: seq<nat>, atomic: bool): (s': State)
    requires Shape(s) && forall i :: 0 <= i < |sched| ==> sched[i] < |s.cars|
    ensures Shape(s') && s'.cars == s.cars
  {
    if sched == [] then s
    else Step(Exec(s, sched[..|sched| - 1], atomic), sched[|sched| - 1], atomic)
  }

  lemma InitialInv(s: State)
    requires Initial(s)
    ensures Inv(s)
  {
    forall c | 0 <= c < |s.cars|
      ensures CarOk(s, c)
    {
    }
    assert RegionOk(s, 0) && RegionOk(s, 1) && RegionOk(s, 2) && RegionOk(s, 3);
  }

  /** Under every interleaving, at the finest grain or with atomic entry, flags and locks agree and
      no panic or assertion can be reached. */
  lemma {:induction false} EveryRunSafe(s: State, sched: seq<nat>, atomic: bool)
    requires Initial(s) && forall i :: 0 <= i < |sched| ==> sched[i] < |s.cars|
    ensures var e := Exec(s, sched, atomic);
            Inv(e) && forall c :: 0 <= c < |s.cars| && !Blocked(e, c) ==> !Panics(e, c, atomic)
  {
    if sched == [] {
      InitialInv(s);
    } else {
      EveryRunSafe(s, sched[..|sched| - 1], atomic);
      StepSafe(Exec(s, sched[..|sched| - 1], atomic), sched[|sched| - 1], atomic);
    }
    var e := Exec(s, sched, atomic);
    forall c | 0 <= c < |s.cars| && !Blocked(e, c)
      ensures !Panics(e, c, atomic)
    {
      NoPanic(e, c, atomic);
    }
  }
}
