/** Who can be inside the intersection, how long runs are and how they end. */
module StoplightRuns {
  import opened Stoplight
  import Ways = StoplightWays

  // ---------------------------------------------------------------- who can be inside, and progress

  /** A place where a car that is in some region certainly is in it. */
  function Foot(car: Car, ph: Phase): int {
    if ph.DropPrev? then ph.k else HeldFrom(car, ph)
  }

  /** A car going straight or left that has entered and not left its last region. */
  predicate Inside(car: Car, ph: Phase) {
    car.len > 1 && In(car, ph, Foot(car, ph))
  }

  ghost function Insiders(s: State): set<nat>
    requires Shape(s)
  {
    set c: nat | c < |s.cars| && Inside(s.cars[c], s.at[c])
  }

  lemma {:induction false} SubsetCard<T>(a: set<T>, b: set<T>)
    requires a <= b
    ensures |a| <= |b|
  {
    assert b == a + (b - a);
  }

  /** An insider holds the lock of a region whose flag is set. */
  lemma InsiderOwns(s: State, c: nat) returns (r: nat)
    requires Inv(s) && c in Insiders(s)
    ensures r < 4 && s.lock[r] == By(c) && s.flag[r]
  {
    var car := s.cars[c];
    var k := Foot(car, s.at[c]);
    r := Region(car, k);
    assert CarOk(s, c) && RegionOk(s, r);
    RegionIndex(car, k, r);
  }

  function OwnerOf(s: State, r: nat): nat
    requires Shape(s) && r < 4
  {
    if s.lock[r].By? then s.lock[r].car else 0
  }

  /** If one region is unlocked and another has its flag down, at most two cars are inside. */
  lemma TwoInside(s: State, a: nat, b: nat)
    requires Inv(s) && a < 4 && b < 4 && a != b && s.lock[a] == Free && !s.flag[b]
    ensures |Insiders(s)| <= 2
  {
    var x := if a != 0 && b != 0 then 0 else if a != 1 && b != 1 then 1 else 2;
    var y := 6 - a - b - x;
    forall c | c in Insiders(s)
      ensures c in {OwnerOf(s, x), OwnerOf(s, y)}
    {
      var r := InsiderOwns(s, c);
      assert r == x || r == y;
    }
    SubsetCard(Insiders(s), {OwnerOf(s, x), OwnerOf(s, y)});
  }

  /** With atomic entry no car going straight or left is ever seen between taking its first lock and
      setting its flag or giving the lock back. */
  predicate Atomic(car: Car, ph: Phase) {
    car.len > 1 ==> ph != Check(0) && ph != CheckAhead && ph != BackOff && ph != Set(0)
  }

  ghost predicate AtomicInv(s: State) {
    Inv(s) && |Insiders(s)| <= 3 && forall c :: 0 <= c < |s.cars| ==> Atomic(s.cars[c], s.at[c])
  }

  /** With atomic entry a car gets inside only by the entry step with the flag ahead down. */
  lemma EntersFromWant(car: Car, ph: Phase, ahead: bool)
    requires PhaseOk(car, ph) && Atomic(car, ph)
    ensures var next := Action(car, ph, ahead, true).next;
            Atomic(car, next) && (Inside(car, next) ==> Inside(car, ph) || (ph == Want(0) && !ahead))
  {
  }

  lemma InsidersStep(s: State, c: nat, e: Effect)
    requires Shape(s) && c < |s.cars|
    ensures Insiders(Apply(s, c, e)) <= Insiders(s) + {c}
    ensures (Inside(s.cars[c], e.next) ==> Inside(s.cars[c], s.at[c])) ==> Insiders(Apply(s, c, e)) <= Insiders(s)
  {
  }

  lemma InsideBound(s: State, c: nat, e: Effect)
    requires Inv(s) && |Insiders(s)| <= 3 && c < |s.cars|
    requires Inside(s.cars[c], e.next) ==>
               Inside(s.cars[c], s.at[c]) || (s.lock[Region(s.cars[c], 0)] == Free && !s.flag[Ahead(s.cars[c])])
    ensures |Insiders(Apply(s, c, e))| <= 3
  {
    InsidersStep(s, c, e);
    var car := s.cars[c];
    if Inside(car, e.next) && !Inside(car, s.at[c]) {
      assert CarOk(s, c);
      AheadApart(car);
      TwoInside(s, Region(car, 0), Ahead(car));
      SubsetCard(Insiders(Apply(s, c, e)), Insiders(s) + {c});
    } else {
      SubsetCard(Insiders(Apply(s, c, e)), Insiders(s));
    }
  }

  /** At most three cars going straight or left are ever inside. */
  lemma AtMostThree(s: State, c: nat)
    requires AtomicInv(s) && c < |s.cars|
    ensures AtomicInv(Step(s, c, true))
  {
    StepSafe(s, c, true);
    if !Blocked(s, c) {
      var car, ph := s.cars[c], s.at[c];
      assert CarOk(s, c);
      var e := Action(car, ph, s.flag[Ahead(car)], true);
      EntersFromWant(car, ph, s.flag[Ahead(car)]);
      InsideBound(s, c, e);
    }
  }

  /** The holder of region r waits, with nothing else in hand, for the next region on its way. */
  ghost predicate WaitsAt(s: State, r: int)
    requires Shape(s) && 0 <= r < 4
  {
    && s.lock[r].By? && s.lock[r].car < |s.cars|
    && var c := s.lock[r].car;
       s.cars[c].len > 1 && s.at[c].Want? && s.at[c].k > 0 && Region(s.cars[c], s.at[c].k - 1) == r
  }

  /** The deadlock: four cars, one in each region, each waiting for the next. */
  ghost predicate Ring(s: State)
    requires Shape(s)
  {
    WaitsAt(s, 0) && WaitsAt(s, 1) && WaitsAt(s, 2) && WaitsAt(s, 3)
  }

  /** A car that holds a region in a phase where it can be stopped wants the next one. */
  lemma StoppedHolder(car: Car, ph: Phase, i: int)
    requires PhaseOk(car, ph) && Holds(car, ph, i)
    requires ph.WantMutex? || ph.Spin? || ph.Want? || ph.Done?
    ensures car.len > 1 && ph == Want(i + 1) && 0 <= i
  {
  }

  /** If the holder of region r is stuck it waits for the next region, which is held too. */
  lemma HolderWaits(s: State, r: nat)
    requires Inv(s) && r < 4 && s.lock[r].By?
    requires s.lock[r].car < |s.cars| ==> Blocked(s, s.lock[r].car)
    ensures WaitsAt(s, r) && s.lock[After(r)].By?
  {
    assert RegionOk(s, r);
    var c := s.lock[r].car;
    assert CarOk(s, c);
    var car := s.cars[c];
    var i := Index(car, r);
    StoppedHolder(car, s.at[c], i);
    RegionIndex(car, i, r);
    NextRegion(car, i);
  }

  /** With every lock free some car that has not finished can move. */
  lemma EmptyMoves(s: State, c: nat) returns (m: nat)
    requires Inv(s) && c < |s.cars| && s.at[c] != Done && forall r :: 0 <= r < 4 ==> s.lock[r] == Free
    ensures m < |s.cars| && !Blocked(s, m)
  {
    m := c;
    assert CarOk(s, c);
    assert RegionOk(s, 0) && RegionOk(s, 1) && RegionOk(s, 2) && RegionOk(s, 3);
    var d := s.cars[c].from;
    if s.at[c] == WantMutex && s.mutex[d].By? {
      m := s.mutex[d].car;
      assert CarOk(s, m);
    }
  }

  /** One held region means the ring, when nobody can move. */
  lemma HeldMeansRing(s: State, r: nat)
    requires Inv(s) && r < 4 && s.lock[r].By?
    requires forall c: nat :: c < |s.cars| ==> Blocked(s, c)
    ensures Ring(s)
  {
    HolderWaits(s, r);
    HolderWaits(s, After(r));
    HolderWaits(s, After(After(r)));
    HolderWaits(s, After(After(After(r))));
  }

  /** At any grain: if no car can move, all cars are through or four cars form the ring. */
  lemma StuckOnlyInRing(s: State)
    requires Inv(s) && forall c: nat :: c < |s.cars| ==> Blocked(s, c)
    ensures (forall c :: 0 <= c < |s.cars| ==> s.at[c] == Done) || Ring(s)
  {
    if r :| 0 <= r < 4 && s.lock[r].By? {
      HeldMeansRing(s, r);
    } else if c :| 0 <= c < |s.cars| && s.at[c] != Done {
      var m := EmptyMoves(s, c);
    }
  }

  /** The ring takes four insiders. */
  lemma RingIsFour(s: State)
    requires Inv(s) && Ring(s)
    ensures |Insiders(s)| >= 4
  {
    var a, b, c, d := s.lock[0].car, s.lock[1].car, s.lock[2].car, s.lock[3].car;
    assert a != b && a != c && a != d && b != c && b != d && c != d;
    assert {a, b, c, d} <= Insiders(s);
    SubsetCard({a, b, c, d}, Insiders(s));
  }

  /** A ring never dissolves: it is a deadlock for good. */
  lemma RingStays(s: State, c: nat, atomic: bool)
    requires Inv(s) && Ring(s) && c < |s.cars|
    ensures Ring(Step(s, c, atomic))
  {
    if !Blocked(s, c) {
      RingStaysAt(s, c, atomic, 0);
      RingStaysAt(s, c, atomic, 1);
      RingStaysAt(s, c, atomic, 2);
      RingStaysAt(s, c, atomic, 3);
    }
  }

  lemma RingStaysAt(s: State, c: nat, atomic: bool, r: nat)
    requires Inv(s) && r < 4 && WaitsAt(s, r) && WaitsAt(s, After(r)) && c < |s.cars| && !Blocked(s, c)
    ensures WaitsAt(Step(s, c, atomic), r)
  {
    assert CarOk(s, c) && RegionOk(s, r);
    var o := s.lock[r].car;
    assert CarOk(s, o);
    NextRegion(s.cars[o], s.at[o].k - 1);
    StepRegion(s, c, atomic, r);
  }

  // ---------------------------------------------------------------- how long a run can be

  /** Straight and left cars that hold their mutex and have not yet passed the test of the region
      ahead. They may go round in circles: forward while the flag is down, back while it is up. */
  predicate Tries(car: Car, ph: Phase) {
    car.len > 1 && (ph == Spin || ph == Want(0) || ph == Check(0) || ph == CheckAhead || ph == BackOff)
  }

  /** Stages left; the circle counts as one. */
  function Rank(car: Car, ph: Phase): nat {
    if Tries(car, ph) then 17
    else
      match ph
      case WantMutex => 18
      case PassMutex => 16
      case Set(k) => if k == 0 && car.len > 1 then 16 else if k < car.len then 6 + 6 * (car.len - 1 - k) else 0
      case DropMutex => 15
      case Want(k) => if k < car.len then 8 + 6 * (car.len - 1 - k) else 0
      case Check(k) => if k < car.len then 7 + 6 * (car.len - 1 - k) else 0
      case ClearPrev(k) => if k < car.len then 5 + 6 * (car.len - 1 - k) else 0
      case DropPrev(k) => if k < car.len then 4 + 6 * (car.len - 1 - k) else 0
      case ClearLast => 3
      case DropLast => 2
      case Through => 1
      case _ => 0
  }

  /** Moves a trying car has left as long as no flag changes. */
  function Tour(ph: Phase, ahead: bool): nat {
    match ph
    case Spin => if ahead then 0 else 4
    case Want(k) => if ahead then 4 else 3
    case Check(k) => if ahead then 3 else 2
    case CheckAhead => if ahead then 2 else 1
    case BackOff => if ahead then 1 else 5
    case _ => 0
  }

  /** The same for the car that holds the mutex of side d. */
  function TourAt(s: State, d: nat): (n: nat)
    requires Shape(s) && d < 4
    ensures n <= 5
  {
    if s.mutex[d].By? && s.mutex[d].car < |s.cars| then
      var c := s.mutex[d].car;
      if Tries(s.cars[c], s.at[c]) then Tour(s.at[c], s.flag[Ahead(s.cars[c])]) else 0
    else 0
  }

  function Tours(s: State): (n: nat)
    requires Shape(s)
    ensures n <= 20
  {
    TourAt(s, 0) + TourAt(s, 1) + TourAt(s, 2) + TourAt(s, 3)
  }

  /** The ranks of the first n cars, and how many of them are through. */
  function TotalRank(s: State, n: nat): nat
    requires Shape(s) && n <= |s.cars|
  {
    if n == 0 then 0 else TotalRank(s, n - 1) + Rank(s.cars[n - 1], s.at[n - 1])
  }

  function Finished(s: State, n: nat): nat
    requires Shape(s) && n <= |s.cars|
  {
    if n == 0 then 0 else Finished(s, n - 1) + if s.at[n - 1] == Done then 1 else 0
  }

  /** Only the moving car's rank and its being through can change. */
  lemma {:induction false} TotalsStep(s: State, c: nat, e: Effect, n: nat)
    requires Shape(s) && c < |s.cars| && n <= |s.cars|
    ensures var s' := Apply(s, c, e); var moved := c < n;
            && TotalRank(s', n) - TotalRank(s, n) == (if moved then Rank(s.cars[c], e.next) - Rank(s.cars[c], s.at[c]) else 0)
            && Finished(s', n) - Finished(s, n) ==
                 (if moved then (if e.next == Done then 1 else 0) - (if s.at[c] == Done then 1 else 0) else 0)
  {
    if n > 0 {
      TotalsStep(s, c, e, n - 1);
    }
  }

  /** A move that is not one of the circle leads to a lower stage. */
  lemma RankFalls(car: Car, ph: Phase, ahead: bool, atomic: bool)
    requires PhaseOk(car, ph) && ph != Done
    ensures var next := Action(car, ph, ahead, atomic).next;
            if Tries(car, ph) && Tries(car, next) then Rank(car, next) == Rank(car, ph) else Rank(car, next) < Rank(car, ph)
    ensures Action(car, ph, ahead, atomic).next == Done <==> ph == Through
  {
  }

  /** One that is brings the car nearer to the end of its tour and touches no flag and no mutex. */
  lemma TourFalls(car: Car, ph: Phase, ahead: bool, atomic: bool)
    requires PhaseOk(car, ph) && Tries(car, ph) && (ph == Spin ==> !ahead)
    ensures var e := Action(car, ph, ahead, atomic);
            Tries(car, e.next) ==> Tour(e.next, ahead) < Tour(ph, ahead) && e.flag == Leave && e.mutex == Leave
  {
  }

  lemma TourOthers(s: State, c: nat, e: Effect, d: nat)
    requires Inv(s) && c < |s.cars| && d < 4 && e.flag == Leave && e.mutex == Leave && d != s.cars[c].from
    ensures TourAt(Apply(s, c, e), d) == TourAt(s, d)
  {
    assert RegionOk(s, d);
  }

  lemma TourOwn(s: State, c: nat, e: Effect)
    requires Inv(s) && c < |s.cars| && e.flag == Leave && e.mutex == Leave
    requires Tries(s.cars[c], s.at[c]) && Tries(s.cars[c], e.next)
    ensures s.cars[c].from < 4
    ensures TourAt(s, s.cars[c].from) == Tour(s.at[c], s.flag[Ahead(s.cars[c])])
    ensures TourAt(Apply(s, c, e), s.cars[c].from) == Tour(e.next, s.flag[Ahead(s.cars[c])])
  {
    assert CarOk(s, c);
  }

  /** Moves left at most. */
  function Left(s: State): nat
    requires Shape(s)
  {
    21 * TotalRank(s, |s.cars|) + Tours(s)
  }

  /** Every move, at either grain, brings the end nearer, and CarsWait counts the cars through. */
  lemma StepProgress(s: State, c: nat, atomic: bool)
    requires Inv(s) && c < |s.cars| && !Blocked(s, c) && s.carsWait == Finished(s, |s.cars|)
    ensures var s' := Step(s, c, atomic); Left(s') < Left(s) && s'.carsWait == Finished(s', |s.cars|)
  {
    assert CarOk(s, c);
    var car, ph := s.cars[c], s.at[c];
    var ahead := s.flag[Ahead(car)];
    var e := Action(car, ph, ahead, atomic);
    RankFalls(car, ph, ahead, atomic);
    TotalsStep(s, c, e, |s.cars|);
    if Tries(car, ph) && Tries(car, e.next) {
      TourFalls(car, ph, ahead, atomic);
      TourOwn(s, c, e);
      forall d: nat | d < 4 && d != car.from
        ensures TourAt(Apply(s, c, e), d) == TourAt(s, d)
      {
        TourOthers(s, c, e, d);
      }
    }
  }

  lemma {:induction false} InitialTotals(s: State, n: nat)
    requires Initial(s) && n <= |s.cars|
    ensures TotalRank(s, n) == 18 * n && Finished(s, n) == 0
  {
    if n > 0 {
      InitialTotals(s, n - 1);
    }
  }

  lemma {:induction false} AllFinished(s: State, n: nat)
    requires Shape(s) && n <= |s.cars| && forall c :: 0 <= c < n ==> s.at[c] == Done
    ensures Finished(s, n) == n
  {
    if n > 0 {
      AllFinished(s, n - 1);
    }
  }

  /** A run in which every scheduled car really moves. */
  ghost predicate Busy(s: State, sched: seq<nat>, atomic: bool)
    requires Shape(s) && forall i :: 0 <= i < |sched| ==> sched[i] < |s.cars|
  {
    forall i :: 0 <= i < |sched| ==> !Blocked(Exec(s, sched[..i], atomic), sched[i])
  }

  /** At either grain no run of moves is longer than 378 per car. */
  lemma {:induction false} BusyRun(s: State, sched: seq<nat>, atomic: bool)
    requires Initial(s) && (forall i :: 0 <= i < |sched| ==> sched[i] < |s.cars|) && Busy(s, sched, atomic)
    ensures var e := Exec(s, sched, atomic); var n := |s.cars|;
            && Inv(e) && e.carsWait == Finished(e, n) && Left(e) + |sched| <= 378 * n
            && (atomic ==> AtomicInv(e))
  {
    if sched == [] {
      InitialInv(s);
      InitialTotals(s, |s.cars|);
      assert Insiders(s) == {};
    } else {
      var n := |sched| - 1;
      var init := sched[..n];
      assert forall i :: 0 <= i < n ==> init[..i] == sched[..i];
      BusyRun(s, init, atomic);
      var e := Exec(s, init, atomic);
      StepSafe(e, sched[n], atomic);
      StepProgress(e, sched[n], atomic);
      if atomic {
        AtMostThree(e, sched[n]);
      }
    }
  }

  lemma AllDrove(s: State, sched: seq<nat>, atomic: bool)
    requires Initial(s) && forall i :: 0 <= i < |sched| ==> sched[i] < |s.cars|
    requires forall c :: 0 <= c < |s.cars| ==> Exec(s, sched, atomic).at[c] == Done
    ensures forall c: nat :: c < |s.cars| ==> Ways.Drove(s, sched, atomic, c)
  {
    forall c: nat | c < |s.cars|
      ensures Ways.Drove(s, sched, atomic, c)
    {
      Ways.EveryCarDrives(s, sched, atomic, c);
    }
  }

  /** With atomic entry, for any number of cars: at most three straight or left cars are inside, every
      run of moves is finite, and a run that cannot be extended has every car through, its whole way
      driven, and every P(CarsWait) of createcars paid for. */
  lemma EveryMaximalRunEnds(s: State, sched: seq<nat>)
    requires Initial(s) && (forall i :: 0 <= i < |sched| ==> sched[i] < |s.cars|) && Busy(s, sched, true)
    ensures var e := Exec(s, sched, true);
            && |Insiders(e)| <= 3 && |sched| <= 378 * |s.cars|
            && ((forall c: nat :: c < |s.cars| ==> Blocked(e, c)) ==>
                  && (forall c :: 0 <= c < |s.cars| ==> e.at[c] == Done) && e.carsWait == |s.cars|
                  && (forall c: nat :: c < |s.cars| ==> Ways.Drove(s, sched, true, c)))
  {
    BusyRun(s, sched, true);
    var e := Exec(s, sched, true);
    if forall c: nat :: c < |s.cars| ==> Blocked(e, c) {
      StuckOnlyInRing(e);
      if Ring(e) { RingIsFour(e); }
      AllFinished(e, |s.cars|);
      AllDrove(s, sched, true);
    }
  }
}
