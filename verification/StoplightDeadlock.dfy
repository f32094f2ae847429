/** Which cars can deadlock the intersection when every shared access is a step of its own. */
module StoplightDeadlock {
  import opened Stoplight
  import opened StoplightRuns
  import Ways = StoplightWays

  predicate Crosses(cars: seq<Car>, c: nat, d: int) {
    c < |cars| && cars[c].from == d && cars[c].len > 1
  }

  predicate TurnsLeft(cars: seq<Car>, c: nat, d: int) {
    c < |cars| && cars[c].from == d && cars[c].len == 3
  }

  /** A car going straight or left from each side. */
  ghost predicate FromEachSide(cars: seq<Car>) {
    exists a: nat, b: nat, c: nat, e: nat :: Crosses(cars, a, 0) && Crosses(cars, b, 1) && Crosses(cars, c, 2) && Crosses(cars, e, 3)
  }

  /** Two cars turning left from one side, and one going straight or left from each of the two sides
      after the next. */
  ghost predicate PairAndTwo(cars: seq<Car>, d: nat) {
    exists a: nat, b: nat, c: nat, e: nat ::
      a != b && TurnsLeft(cars, a, d) && TurnsLeft(cars, b, d) && Crosses(cars, c, After(After(d))) && Crosses(cars, e, After(After(After(d))))
  }

  /** Two cars turning left from each of two opposite sides. */
  ghost predicate TwoPairs(cars: seq<Car>, d: nat) {
    exists a: nat, b: nat, c: nat, e: nat ::
      && a != b && TurnsLeft(cars, a, d) && TurnsLeft(cars, b, d)
      && c != e && TurnsLeft(cars, c, After(After(d))) && TurnsLeft(cars, e, After(After(d)))
  }

  ghost predicate DeadlockCars(cars: seq<Car>) {
    FromEachSide(cars) || exists d: nat :: d < 4 && (PairAndTwo(cars, d) || TwoPairs(cars, d))
  }

  predicate Schedule(s: State, sched: seq<nat>) {
    forall i :: 0 <= i < |sched| ==> sched[i] < |s.cars|
  }

  // ---------------------------------------------------------------- these cars can

  /** n steps of car c at the finest grain. */
  function Alone(s: State, c: nat, n: nat): (s': State)
    requires Shape(s) && c < |s.cars|
    ensures Shape(s') && s'.cars == s.cars
  {
    if n == 0 then s else Step(Alone(s, c, n - 1), c, false)
  }

  /** Atomic entry, whether it succeeds or not, is four undisturbed steps at the finest grain. */
  lemma AtomicIsFine(s: State, c: nat)
    requires Shape(s) && c < |s.cars| && s.cars[c].from < 4 && 1 < s.cars[c].len <= 3 && s.at[c] == Want(0) && !Blocked(s, c)
    ensures Step(s, c, true) == Alone(s, c, 4)
  {
    Tested(s, c);
    var u := Alone(s, c, 2);
    assert Alone(s, c, 4) == Step(Step(u, c, false), c, false);
    if s.flag[Ahead(s.cars[c])] { BacksOff(s, u, c); } else { GoesIn(s, u, c); }
  }

  lemma BacksOff(s: State, u: State, c: nat)
    requires Shape(s) && c < |s.cars| && s.cars[c].from < 4 && 1 < s.cars[c].len <= 3 && s.at[c] == Want(0)
    requires s.lock[s.cars[c].from] == Free && s.flag[Ahead(s.cars[c])]
    requires u == s.(at := s.at[c := CheckAhead], lock := s.lock[s.cars[c].from := By(c)])
    ensures Step(s, c, true) == Step(Step(u, c, false), c, false)
  {
    var d := s.cars[c].from;
    assert Step(u, c, false) == u.(at := u.at[c := BackOff]);
    assert u.lock[d := Free] == s.lock;
  }

  lemma GoesIn(s: State, u: State, c: nat)
    requires Shape(s) && c < |s.cars| && s.cars[c].from < 4 && 1 < s.cars[c].len <= 3 && s.at[c] == Want(0)
    requires s.lock[s.cars[c].from] == Free && !s.flag[Ahead(s.cars[c])]
    requires u == s.(at := s.at[c := CheckAhead], lock := s.lock[s.cars[c].from := By(c)])
    ensures Step(s, c, true) == Step(Step(u, c, false), c, false)
  {
    assert Step(u, c, false) == u.(at := u.at[c := Set(0)]);
  }

  lemma Tested(s: State, c: nat)
    requires Shape(s) && c < |s.cars| && s.cars[c].from < 4 && 1 < s.cars[c].len <= 3 && s.at[c] == Want(0) && !Blocked(s, c)
    ensures Alone(s, c, 2) == s.(at := s.at[c := CheckAhead], lock := s.lock[s.cars[c].from := By(c)])
  {
    assert Alone(s, c, 0) == s;
    assert Alone(s, c, 1) == s.(at := s.at[c := Check(0)], lock := s.lock[s.cars[c].from := By(c)]);
  }

  ghost predicate Reachable(s0: State, s: State)
    requires Shape(s0)
  {
    exists sched :: Schedule(s0, sched) && Exec(s0, sched, false) == s
  }

  lemma ReachStep(s0: State, s: State, c: nat)
    requires Shape(s0) && Shape(s) && Reachable(s0, s) && c < |s0.cars| == |s.cars|
    ensures Reachable(s0, Step(s, c, false))
  {
    var sched :| Schedule(s0, sched) && Exec(s0, sched, false) == s;
    var more := sched + [c];
    assert more[..|sched|] == sched;
    assert Exec(s0, more, false) == Step(s, c, false);
  }

  lemma {:induction false} ReachAlone(s0: State, s: State, c: nat, n: nat)
    requires Shape(s0) && Shape(s) && Reachable(s0, s) && c < |s0.cars| && s0.cars == s.cars
    ensures Reachable(s0, Alone(s, c, n))
  {
    if n > 0 {
      ReachAlone(s0, s, c, n - 1);
      ReachStep(s0, Alone(s, c, n - 1), c);
    }
  }

  /** A car that finds its first region free and the flag ahead down has passed its test. */
  function Poised(s: State, c: nat): State
    requires Shape(s) && c < |s.cars|
  {
    var d := Region(s.cars[c], 0);
    s.(at := s.at[c := Set(0)], lock := s.lock[d := By(c)], mutex := s.mutex[d := By(c)])
  }

  /** It has entered and waits for its second region. */
  function Entered(s: State, c: nat): State
    requires Shape(s) && c < |s.cars|
  {
    var d := Region(s.cars[c], 0);
    s.(at := s.at[c := Want(1)], flag := s.flag[d := true], mutex := s.mutex[d := Free])
  }

  /** It has gone on to its second region and waits for the third. */
  function Advanced(s: State, c: nat): State
    requires Shape(s) && c < |s.cars|
  {
    var d, f := Region(s.cars[c], 0), Region(s.cars[c], 1);
    s.(at := s.at[c := Want(2)], lock := s.lock[f := By(c)][d := Free], flag := s.flag[f := true][d := false])
  }

  /** Such a piece of a run. */
  datatype Go = Pass(car: nat) | Enter(car: nat) | Advance(car: nat)

  function Do(s: State, g: Go): (s': State)
    requires Shape(s) && g.car < |s.cars|
    ensures Shape(s') && s'.cars == s.cars
  {
    match g
    case Pass(c) => Poised(s, c)
    case Enter(c) => Entered(s, c)
    case Advance(c) => Advanced(s, c)
  }

  predicate CanDo(s: State, g: Go) {
    && Shape(s) && g.car < |s.cars|
    && var car := s.cars[g.car];
       && car.from < 4 && 1 < car.len <= 3
       && match g
          case Pass(c) => s.at[c] == WantMutex && s.mutex[car.from] == Free && s.lock[car.from] == Free && !s.flag[Ahead(car)]
          case Enter(c) => s.at[c] == Set(0)
          case Advance(c) => car.len == 3 && s.at[c] == Want(1) && s.lock[Region(car, 1)] == Free
  }

  lemma PassReached(s0: State, s: State, c: nat)
    requires Shape(s0) && CanDo(s, Pass(c)) && s.cars == s0.cars && Reachable(s0, s)
    ensures Reachable(s0, Poised(s, c))
  {
    var d := s.cars[c].from;
    var m := s.mutex[d := By(c)];
    var l := s.lock[d := By(c)];
    assert Alone(s, c, 0) == s;
    assert Alone(s, c, 1) == s.(at := s.at[c := Spin], mutex := m);
    assert Alone(s, c, 2) == s.(at := s.at[c := Want(0)], mutex := m);
    assert Alone(s, c, 3) == s.(at := s.at[c := Check(0)], mutex := m, lock := l);
    assert Alone(s, c, 4) == s.(at := s.at[c := CheckAhead], mutex := m, lock := l);
    assert Alone(s, c, 5) == Poised(s, c);
    ReachAlone(s0, s, c, 5);
  }

  lemma EnterReached(s0: State, s: State, c: nat)
    requires Shape(s0) && CanDo(s, Enter(c)) && s.cars == s0.cars && Reachable(s0, s)
    ensures Reachable(s0, Entered(s, c))
  {
    var d := s.cars[c].from;
    assert Alone(s, c, 0) == s;
    assert Alone(s, c, 1) == s.(at := s.at[c := DropMutex], flag := s.flag[d := true]);
    assert Alone(s, c, 2) == Entered(s, c);
    ReachAlone(s0, s, c, 2);
  }

  lemma AdvanceReached(s0: State, s: State, c: nat)
    requires Shape(s0) && CanDo(s, Advance(c)) && s.cars == s0.cars && Reachable(s0, s)
    ensures Reachable(s0, Advanced(s, c))
  {
    var d := s.cars[c].from;
    MovedUp(s, c);
    var u := Alone(s, c, 3);
    assert Alone(s, c, 4) == u.(at := u.at[c := DropPrev(1)], flag := u.flag[d := false]);
    assert Alone(s, c, 5) == u.(at := u.at[c := Want(2)], flag := u.flag[d := false], lock := u.lock[d := Free]);
    ReachAlone(s0, s, c, 5);
  }

  lemma MovedUp(s: State, c: nat)
    requires CanDo(s, Advance(c))
    ensures var f := Region(s.cars[c], 1);
            Alone(s, c, 3) == s.(at := s.at[c := ClearPrev(1)], lock := s.lock[f := By(c)], flag := s.flag[f := true])
  {
    var f := Region(s.cars[c], 1);
    assert Alone(s, c, 0) == s;
    assert Alone(s, c, 1) == s.(at := s.at[c := Check(1)], lock := s.lock[f := By(c)]);
    assert Alone(s, c, 2) == s.(at := s.at[c := Set(1)], lock := s.lock[f := By(c)]);
  }

  /** A set of states that is not left by such pieces of a run. */
  ghost predicate Closed(reach: iset<State>) {
    forall s, g {:trigger Do(s, g)} :: s in reach && CanDo(s, g) ==> Do(s, g) in reach
  }

  ghost function Reach(s0: State): iset<State>
    requires Shape(s0)
  {
    iset s | Reachable(s0, s) && s.cars == s0.cars
  }

  lemma ReachClosed(s0: State)
    requires Shape(s0)
    ensures Closed(Reach(s0))
  {
    forall s, g {:trigger Do(s, g)} | s in Reach(s0) && CanDo(s, g)
      ensures Do(s, g) in Reach(s0)
    {
      match g
      case Pass(c) => PassReached(s0, s, c);
      case Enter(c) => EnterReached(s0, s, c);
      case Advance(c) => AdvanceReached(s0, s, c);
    }
  }

  /** What is known of region r, and that the others are left alone. */
  predicate Here(t: State, r: int, lock: Owner, flag: bool, mutex: Owner) {
    Shape(t) && 0 <= r < 4 && t.lock[r] == lock && t.flag[r] == flag && t.mutex[r] == mutex
  }

  ghost predicate Elsewhere(s: State, t: State, r: int, q: int) {
    Shape(s) && Shape(t) && forall x {:trigger t.lock[x]} {:trigger t.flag[x]} {:trigger t.mutex[x]} ::
      0 <= x < 4 && x != r && x != q ==> t.lock[x] == s.lock[x] && t.flag[x] == s.flag[x] && t.mutex[x] == s.mutex[x]
  }

  lemma GoPass(reach: iset<State>, s: State, c: nat) returns (t: State)
    requires Closed(reach) && s in reach && CanDo(s, Pass(c))
    ensures t in reach && t.cars == s.cars && t.at == s.at[c := Set(0)]
    ensures var r := s.cars[c].from; Here(t, r, By(c), s.flag[r], By(c)) && Elsewhere(s, t, r, r)
  {
    t := Do(s, Pass(c));
  }

  lemma GoEnter(reach: iset<State>, s: State, c: nat) returns (t: State)
    requires Closed(reach) && s in reach && CanDo(s, Enter(c))
    ensures t in reach && t.cars == s.cars && t.at == s.at[c := Want(1)]
    ensures var r := s.cars[c].from; Here(t, r, s.lock[r], true, Free) && Elsewhere(s, t, r, r)
  {
    t := Do(s, Enter(c));
  }

  lemma GoAdvance(reach: iset<State>, s: State, c: nat) returns (t: State)
    requires Closed(reach) && s in reach && CanDo(s, Advance(c))
    ensures t in reach && t.cars == s.cars && t.at == s.at[c := Want(2)]
    ensures var r, q := s.cars[c].from, After(s.cars[c].from);
            Here(t, r, Free, false, s.mutex[r]) && Here(t, q, By(c), true, s.mutex[q]) && Elsewhere(s, t, r, q)
  {
    t := Do(s, Advance(c));
  }

  /** All the way to the second region, undisturbed. */
  lemma GoTwo(reach: iset<State>, s: State, c: nat) returns (t: State)
    requires Closed(reach) && s in reach && CanDo(s, Pass(c)) && s.cars[c].len == 3 && s.lock[After(s.cars[c].from)] == Free
    ensures t in reach && t.cars == s.cars && t.at == s.at[c := Want(2)]
    ensures var r, q := s.cars[c].from, After(s.cars[c].from);
            Here(t, r, Free, false, Free) && Here(t, q, By(c), true, s.mutex[q]) && Elsewhere(s, t, r, q)
  {
    var u := GoPass(reach, s, c);
    var v := GoEnter(reach, u, c);
    assert v.lock[After(s.cars[c].from)] == Free;
    t := GoAdvance(reach, v, c);
    assert v.at == s.at[c := Want(1)];
  }

  /** Car c holds region r alone: it is about to enter there, or waits for its third region. */
  predicate Stands(t: State, c: nat, r: int) {
    && Shape(t) && c < |t.cars| && 0 <= r < 4 && t.lock[r] == By(c) && t.cars[c].from < 4 && 1 < t.cars[c].len <= 3
    && ((t.at[c] == Set(0) && t.cars[c].from == r) || (t.at[c] == Want(2) && t.cars[c].len == 3 && After(t.cars[c].from) == r))
  }

  ghost predicate StandsAt(t: State, r: int)
    requires Shape(t) && 0 <= r < 4
  {
    t.lock[r].By? && Stands(t, t.lock[r].car, r)
  }

  /** The car at region r enters if it has not yet; nothing changes for the others. */
  lemma EnterAt(reach: iset<State>, s: State, r: nat) returns (t: State)
    requires Closed(reach) && s in reach && Shape(s) && r < 4 && StandsAt(s, r)
    ensures t in reach && Shape(t) && t.cars == s.cars && t.lock == s.lock && WaitsAt(t, r)
    ensures forall c :: 0 <= c < |s.cars| && By(c) != s.lock[r] ==> t.at[c] == s.at[c]
  {
    var c := s.lock[r].car;
    t := s;
    if s.at[c] == Set(0) {
      t := GoEnter(reach, s, c);
      assert t.lock == s.lock;
    }
  }

  lemma EnterLeaves(s: State, t: State, r: nat, q: nat)
    requires Shape(s) && Shape(t) && t.cars == s.cars && t.lock == s.lock && r < 4 && q < 4 && s.lock[q] != s.lock[r]
    requires forall c :: 0 <= c < |s.cars| && By(c) != s.lock[r] ==> t.at[c] == s.at[c]
    ensures StandsAt(s, q) ==> StandsAt(t, q)
    ensures WaitsAt(s, q) ==> WaitsAt(t, q)
  {
  }

  /** No car stands at two regions. */
  lemma StandsOnce(t: State, r: nat, q: nat)
    requires Shape(t) && r < 4 && q < 4 && r != q && StandsAt(t, r) && StandsAt(t, q)
    ensures t.lock[r] != t.lock[q]
  {
  }

  lemma {:induction false} AllEnter(reach: iset<State>, s: State, n: nat) returns (t: State)
    requires Closed(reach) && s in reach && Shape(s) && n <= 4 && forall r :: 0 <= r < 4 ==> StandsAt(s, r)
    ensures t in reach && Shape(t) && t.cars == s.cars && t.lock == s.lock
    ensures forall r :: 0 <= r < n ==> WaitsAt(t, r)
    ensures forall r :: n <= r < 4 ==> StandsAt(t, r)
  {
    t := s;
    if n > 0 {
      var u := AllEnter(reach, s, n - 1);
      t := EnterAt(reach, u, n - 1);
      forall r | 0 <= r < 4 && r != n - 1
        ensures WaitsAt(u, r) ==> WaitsAt(t, r)
        ensures StandsAt(u, r) ==> StandsAt(t, r)
      {
        StandsOnce(s, n - 1, r);
        EnterLeaves(u, t, n - 1, r);
      }
    }
  }

  // ---------------------------------------------------------------- where they stand before that

  predicate Down(t: State, r: int) { Shape(t) && 0 <= r < 4 && !t.flag[r] }

  /** Region r is free and nobody from side r is on the way in. */
  predicate Open(t: State, r: int) { Shape(t) && 0 <= r < 4 && t.lock[r] == Free && t.mutex[r] == Free }

  predicate Idle(t: State, c: nat, r: int) {
    Shape(t) && c < |t.cars| && t.at[c] == WantMutex && t.cars[c].from == r && 1 < t.cars[c].len <= 3
  }

  /** The last region of a car from side r. */
  function Last(car: Car): int { if car.len == 2 then After(car.from) else After(After(car.from)) }

  lemma PassOne(reach: iset<State>, s: State, c: nat, r: nat) returns (t: State)
    requires Closed(reach) && s in reach && Open(s, r) && Idle(s, c, r) && Down(s, Last(s.cars[c]))
    ensures t in reach && Stands(t, c, r) && t.cars == s.cars && t.flag == s.flag && t.at == s.at[c := Set(0)]
    ensures forall x :: 0 <= x < 4 && x != r ==> t.lock[x] == s.lock[x] && t.mutex[x] == s.mutex[x]
  {
    t := GoPass(reach, s, c);
    assert t.flag == s.flag;
  }

  lemma TwoOne(reach: iset<State>, s: State, c: nat, r: nat) returns (t: State)
    requires Closed(reach) && s in reach && Open(s, r) && s.lock[After(r)] == Free && Idle(s, c, r)
    requires s.cars[c].len == 3 && Down(s, After(After(r)))
    ensures t in reach && Stands(t, c, After(r)) && Open(t, r) && t.cars == s.cars && t.at == s.at[c := Want(2)]
    ensures Down(t, r) && forall x :: 0 <= x < 4 && x != After(r) ==> x == r || (t.lock[x] == s.lock[x] && t.flag[x] == s.flag[x])
    ensures forall x :: 0 <= x < 4 && x != r ==> t.mutex[x] == s.mutex[x]
  {
    t := GoTwo(reach, s, c);
  }

  /** Somebody else's moves elsewhere do not matter. */
  lemma StandsStill(s: State, t: State, c: nat, r: nat)
    requires Stands(s, c, r) && Shape(t) && t.cars == s.cars && t.lock[r] == s.lock[r] && t.at[c] == s.at[c]
    ensures Stands(t, c, r)
  {
  }

  /** Cars of the sides before n have passed their tests; all flags are down. */
  ghost predicate Passed(s: State, t: State, cs: seq<nat>, n: nat)
    requires |cs| == 4 && n <= 4
  {
    && Shape(t) && t.cars == s.cars && |t.at| == |s.at|
    && (forall r :: 0 <= r < n ==> Stands(t, cs[r], r))
    && (forall r :: n <= r < 4 ==> Open(t, r) && Idle(t, cs[r], r))
    && (forall r :: 0 <= r < 4 ==> Down(t, r))
  }

  /** All four pass their tests before any of them sets its flag. */
  lemma {:induction false} FourStand(reach: iset<State>, s: State, cs: seq<nat>, n: nat) returns (t: State)
    requires Closed(reach) && s in reach && Initial(s) && |cs| == 4 && n <= 4 && forall r :: 0 <= r < 4 ==> Crosses(s.cars, cs[r], r)
    ensures t in reach && Passed(s, t, cs, n)
  {
    t := s;
    if n > 0 {
      var u := FourStand(reach, s, cs, n - 1);
      var c := cs[n - 1];
      assert Idle(u, c, n - 1) && Open(u, n - 1) && Down(u, Last(u.cars[c]));
      t := PassOne(reach, u, c, n - 1);
      forall r | 0 <= r < n - 1
        ensures Stands(t, cs[r], r)
      {
        assert Crosses(s.cars, cs[r], r) && Crosses(s.cars, c, n - 1);
        StandsStill(u, t, cs[r], r);
      }
      forall r | n <= r < 4
        ensures Open(t, r) && Idle(t, cs[r], r)
      {
        assert Open(u, r) && Idle(u, cs[r], r) && Crosses(s.cars, c, n - 1);
      }
      forall r | 0 <= r < 4
        ensures Down(t, r)
      {
        assert Down(u, r);
      }
    }
  }

  /** Cars c and e pass their tests first. */
  lemma TwoAhead(reach: iset<State>, s: State, d: nat, c: nat, e: nat) returns (t: State)
    requires Closed(reach) && s in reach && Initial(s) && d < 4
    requires Crosses(s.cars, c, After(After(d))) && Crosses(s.cars, e, After(After(After(d))))
    ensures t in reach && Stands(t, c, After(After(d))) && Stands(t, e, After(After(After(d))))
    ensures t.cars == s.cars && t.flag == s.flag && t.at == s.at[c := Set(0)][e := Set(0)] && Open(t, d) && Open(t, After(d))
  {
    var u := PassOne(reach, s, c, After(After(d)));
    t := PassOne(reach, u, e, After(After(After(d))));
    StandsStill(u, t, c, After(After(d)));
  }

  /** Then a goes on to its second region and b fills up behind it. */
  lemma PairBehind(reach: iset<State>, s: State, d: nat, a: nat, b: nat) returns (t: State)
    requires Closed(reach) && s in reach && d < 4 && a != b && Open(s, d) && Open(s, After(d)) && Idle(s, a, d) && Idle(s, b, d)
    requires s.cars[a].len == 3 && s.cars[b].len == 3 && Down(s, After(After(d)))
    ensures t in reach && Stands(t, a, After(d)) && Stands(t, b, d) && t.cars == s.cars && t.at == s.at[a := Want(2)][b := Set(0)]
    ensures forall x :: 0 <= x < 4 && x != d && x != After(d) ==> t.lock[x] == s.lock[x]
  {
    var u := TwoOne(reach, s, a, d);
    t := PassOne(reach, u, b, d);
    StandsStill(u, t, a, After(d));
  }

  lemma PairAndTwoStand(reach: iset<State>, s: State, d: nat, a: nat, b: nat, c: nat, e: nat) returns (t: State)
    requires Closed(reach) && s in reach && Initial(s)
    requires d < 4 && a != b && TurnsLeft(s.cars, a, d) && TurnsLeft(s.cars, b, d)
    requires Crosses(s.cars, c, After(After(d))) && Crosses(s.cars, e, After(After(After(d))))
    ensures t in reach && Shape(t) && t.cars == s.cars && forall r :: 0 <= r < 4 ==> StandsAt(t, r)
  {
    var u := TwoAhead(reach, s, d, c, e);
    t := PairBehind(reach, u, d, a, b);
    StandsStill(u, t, c, After(After(d)));
    StandsStill(u, t, e, After(After(After(d))));
    AllRegions(d, t);
  }

  lemma AllRegions(d: nat, t: State)
    requires Shape(t) && d < 4
    requires StandsAt(t, d) && StandsAt(t, After(d)) && StandsAt(t, After(After(d))) && StandsAt(t, After(After(After(d))))
    ensures forall r :: 0 <= r < 4 ==> StandsAt(t, r)
  {
  }

  /** Cars a and c go on to their second regions. */
  lemma TwoGoOn(reach: iset<State>, s: State, d: nat, a: nat, c: nat) returns (t: State)
    requires Closed(reach) && s in reach && Initial(s) && d < 4 && TurnsLeft(s.cars, a, d) && TurnsLeft(s.cars, c, After(After(d)))
    ensures t in reach && Stands(t, a, After(d)) && Stands(t, c, After(After(After(d)))) && Open(t, d) && Open(t, After(After(d)))
    ensures t.cars == s.cars && t.at == s.at[a := Want(2)][c := Want(2)] && Down(t, d) && Down(t, After(After(d)))
  {
    var u := TwoOne(reach, s, a, d);
    t := TwoOne(reach, u, c, After(After(d)));
    StandsStill(u, t, a, After(d));
  }

  /** Then b and e fill up behind them. */
  lemma TwoPairsStand(reach: iset<State>, s: State, d: nat, a: nat, b: nat, c: nat, e: nat) returns (t: State)
    requires Closed(reach) && s in reach && Initial(s)
    requires d < 4 && a != b && TurnsLeft(s.cars, a, d) && TurnsLeft(s.cars, b, d)
    requires c != e && TurnsLeft(s.cars, c, After(After(d))) && TurnsLeft(s.cars, e, After(After(d)))
    ensures t in reach && Shape(t) && t.cars == s.cars && forall r :: 0 <= r < 4 ==> StandsAt(t, r)
  {
    var u := TwoGoOn(reach, s, d, a, c);
    var v := PassOne(reach, u, b, d);
    t := PassOne(reach, v, e, After(After(d)));
    StandsStill(v, t, b, d);
    StandsStill(u, v, a, After(d));
    StandsStill(v, t, a, After(d));
    StandsStill(u, v, c, After(After(After(d))));
    StandsStill(v, t, c, After(After(After(d))));
    AllRegions(d, t);
  }

  /** A car set of one of the three kinds can be driven into the ring. */
  lemma CarsDeadlock(s: State) returns (sched: seq<nat>)
    requires Initial(s) && DeadlockCars(s.cars)
    ensures Schedule(s, sched) && Ring(Exec(s, sched, false))
  {
    var reach := Reach(s);
    ReachClosed(s);
    assert Exec(s, [], false) == s;
    var t;
    if FromEachSide(s.cars) {
      t := EachStand(reach, s);
    } else {
      var d: nat :| d < 4 && (PairAndTwo(s.cars, d) || TwoPairs(s.cars, d));
      t := SomeStand(reach, s, d);
    }
    t := AllEnter(reach, t, 4);
    sched :| Schedule(s, sched) && Exec(s, sched, false) == t;
  }

  lemma EachStand(reach: iset<State>, s: State) returns (t: State)
    requires Closed(reach) && s in reach && Initial(s) && FromEachSide(s.cars)
    ensures t in reach && Shape(t) && t.cars == s.cars && forall r :: 0 <= r < 4 ==> StandsAt(t, r)
  {
    var a: nat, b: nat, c: nat, e: nat :| Crosses(s.cars, a, 0) && Crosses(s.cars, b, 1) && Crosses(s.cars, c, 2) && Crosses(s.cars, e, 3);
    var cs := [a, b, c, e];
    t := FourStand(reach, s, cs, 4);
    forall r | 0 <= r < 4
      ensures StandsAt(t, r)
    {
      assert Stands(t, cs[r], r);
    }
  }

  lemma SomeStand(reach: iset<State>, s: State, d: nat) returns (t: State)
    requires Closed(reach) && s in reach && Initial(s) && d < 4 && (PairAndTwo(s.cars, d) || TwoPairs(s.cars, d))
    ensures t in reach && Shape(t) && t.cars == s.cars && forall r :: 0 <= r < 4 ==> StandsAt(t, r)
  {
    if PairAndTwo(s.cars, d) {
      var a: nat, b: nat, c: nat, e: nat :|
        a != b && TurnsLeft(s.cars, a, d) && TurnsLeft(s.cars, b, d) && Crosses(s.cars, c, After(After(d))) && Crosses(s.cars, e, After(After(After(d))));
      t := PairAndTwoStand(reach, s, d, a, b, c, e);
    } else {
      var a: nat, b: nat, c: nat, e: nat :|
        && a != b && TurnsLeft(s.cars, a, d) && TurnsLeft(s.cars, b, d)
        && c != e && TurnsLeft(s.cars, c, After(After(d))) && TurnsLeft(s.cars, e, After(After(d)));
      t := TwoPairsStand(reach, s, d, a, b, c, e);
    }
  }

  // ---------------------------------------------------------------- no others can

  /** Past the test and still in the first region. */
  predicate Committed(car: Car, ph: Phase) {
    car.len > 1 && (ph == Set(0) || ph == DropMutex || ph == Want(1))
  }

  /** A car that has come in behind one of its own side that waits for its third region tested when
      that one was already in its second. So it turns left, and nobody was in the region it tested. */
  ghost predicate BehindOk(s: State, x: nat, y: nat, z: nat) {
    Shape(s) && (
      x < |s.cars| && y < |s.cars| && z < |s.cars| && s.at[x] == Want(2) && s.cars[y].from == s.cars[x].from && Committed(s.cars[y], s.at[y]) ==>
        s.cars[y].len == 3 && !(s.at[z] == Want(2) && s.cars[z].from == After(s.cars[x].from)))
  }

  ghost predicate Behind(s: State) {
    forall x: nat, y: nat, z: nat {:trigger BehindOk(s, x, y, z)} :: BehindOk(s, x, y, z)
  }

  lemma IntoSecond(car: Car, ph: Phase, ahead: bool)
    requires PhaseOk(car, ph)
    ensures Action(car, ph, ahead, false).next == Want(2) ==> ph == DropPrev(1)
  {
  }

  lemma IntoCommitted(car: Car, ph: Phase, ahead: bool)
    requires PhaseOk(car, ph)
    ensures Committed(car, Action(car, ph, ahead, false).next) ==> Committed(car, ph) || (ph == CheckAhead && !ahead)
  {
  }

  /** A car that waits for its third region holds its second, with the flag up. */
  lemma InSecond(s: State, x: nat)
    requires Inv(s) && x < |s.cars| && s.at[x] == Want(2)
    ensures s.cars[x].len == 3 && s.cars[x].from < 4
    ensures s.lock[After(s.cars[x].from)] == By(x) && s.flag[After(s.cars[x].from)]
  {
    assert CarOk(s, x);
    var r := After(s.cars[x].from);
    assert s.lock[r] == By(x);
    assert RegionOk(s, r);
  }

  /** A car in these phases holds its first region. */
  lemma InFirst(s: State, y: nat)
    requires Inv(s) && y < |s.cars| && (Committed(s.cars[y], s.at[y]) || s.at[y] == DropPrev(1))
    ensures s.cars[y].from < 4 && s.lock[s.cars[y].from] == By(y)
  {
    assert CarOk(s, y);
    assert s.lock[s.cars[y].from] == By(y);
  }

  lemma BehindStep(s: State, c: nat, x: nat, y: nat, z: nat)
    requires Inv(s) && Behind(s) && c < |s.cars| && !Blocked(s, c)
    ensures BehindOk(Step(s, c, false), x, y, z)
  {
    assert BehindOk(s, x, y, z) && CarOk(s, c);
    var s' := Step(s, c, false);
    var ahead := s.flag[Ahead(s.cars[c])];
    IntoSecond(s.cars[c], s.at[c], ahead);
    IntoCommitted(s.cars[c], s.at[c], ahead);
    if x < |s.cars| && y < |s.cars| && z < |s.cars| && s'.at[x] == Want(2) && s.cars[y].from == s.cars[x].from && Committed(s.cars[y], s'.at[y]) {
      if c == x {
        InFirst(s, x);
        InFirst(s, y);
      } else if c == y {
        InSecond(s, x);
        if s.at[z] == Want(2) { InSecond(s, z); }
      } else if c == z {
        InSecond(s, x);
        if s'.at[z] == Want(2) { InFirst(s, z); }
      }
    }
  }

  lemma {:induction false} BehindRun(s: State, sched: seq<nat>)
    requires Initial(s) && Schedule(s, sched)
    ensures Inv(Exec(s, sched, false)) && Behind(Exec(s, sched, false))
  {
    EveryRunSafe(s, sched, false);
    if sched != [] {
      var n := |sched| - 1;
      BehindRun(s, sched[..n]);
      var e := Exec(s, sched[..n], false);
      if !Blocked(e, sched[n]) {
        forall x: nat, y: nat, z: nat
          ensures BehindOk(Exec(s, sched, false), x, y, z)
        {
          BehindStep(e, sched[n], x, y, z);
        }
      }
    }
  }

  /** The car in region r of a ring is in its first region or, turning left, in its second. */
  lemma RingHolder(s: State, r: nat) returns (c: nat)
    requires Inv(s) && Ring(s) && r < 4
    ensures c < |s.cars| && s.lock[r] == By(c)
    ensures (s.at[c] == Want(1) && Crosses(s.cars, c, r)) || (s.at[c] == Want(2) && s.cars[c].len == 3 && s.cars[c].from < 4 && After(s.cars[c].from) == r)
  {
    assert WaitsAt(s, r);
    c := s.lock[r].car;
    assert CarOk(s, c);
  }

  /** A second-region car with a first-region car behind it settles who the others are. */
  lemma RingFrom(s: State, d: nat, x: nat, y: nat)
    requires Inv(s) && Behind(s) && Ring(s) && d < 4
    requires x < |s.cars| && s.lock[After(d)] == By(x) && s.at[x] == Want(2) && s.cars[x].from == d
    requires y < |s.cars| && s.lock[d] == By(y) && s.at[y] == Want(1) && Crosses(s.cars, y, d)
    ensures PairAndTwo(s.cars, d) || TwoPairs(s.cars, d)
  {
    InSecond(s, x);
    var c := RingHolder(s, After(After(d)));
    var e := RingHolder(s, After(After(After(d))));
    assert BehindOk(s, x, y, c);
    assert TurnsLeft(s.cars, x, d) && TurnsLeft(s.cars, y, d) && x != y;
    assert Crosses(s.cars, c, After(After(d)));
    if s.at[e] == Want(2) {
      assert BehindOk(s, e, c, c);
      assert TurnsLeft(s.cars, e, After(After(d))) && TurnsLeft(s.cars, c, After(After(d))) && c != e;
    } else {
      assert Crosses(s.cars, e, After(After(After(d))));
    }
  }

  lemma RingCars(s: State)
    requires Inv(s) && Behind(s) && Ring(s)
    ensures DeadlockCars(s.cars)
  {
    var a := RingHolder(s, 0);
    var b := RingHolder(s, 1);
    var c := RingHolder(s, 2);
    var e := RingHolder(s, 3);
    if s.at[a] == Want(1) && s.at[b] == Want(2) {
      RingFrom(s, 0, b, a);
    } else if s.at[b] == Want(1) && s.at[c] == Want(2) {
      RingFrom(s, 1, c, b);
    } else if s.at[c] == Want(1) && s.at[e] == Want(2) {
      RingFrom(s, 2, e, c);
    } else if s.at[e] == Want(1) && s.at[a] == Want(2) {
      RingFrom(s, 3, a, e);
    } else if s.at[a] == Want(1) {
      assert Crosses(s.cars, a, 0) && Crosses(s.cars, b, 1) && Crosses(s.cars, c, 2) && Crosses(s.cars, e, 3);
    } else {
      assert Crosses(s.cars, b, 0) && Crosses(s.cars, c, 1) && Crosses(s.cars, e, 2) && Crosses(s.cars, a, 3);
    }
  }

  // ---------------------------------------------------------------- exactly these

  /** At the finest grain some run ends in the ring if and only if there is a car going straight or
      left from each side, or two left-turning cars from one side with one going straight or left from
      each of the two sides after the next, or two left-turning cars from each of two opposite sides. */
  lemma DeadlockIff(s: State)
    requires Initial(s)
    ensures (exists sched :: Schedule(s, sched) && Ring(Exec(s, sched, false))) <==> DeadlockCars(s.cars)
  {
    if DeadlockCars(s.cars) {
      var sched := CarsDeadlock(s);
    }
    if sched :| Schedule(s, sched) && Ring(Exec(s, sched, false)) {
      BehindRun(s, sched);
      RingCars(Exec(s, sched, false));
    }
  }

  /** At the finest grain every run of moves is finite, and unless the cars are of these kinds one that
      cannot be extended has every car through, its way driven, and every P(CarsWait) of createcars paid for. */
  lemma FineRunsEnd(s: State, sched: seq<nat>)
    requires Initial(s) && Schedule(s, sched) && Busy(s, sched, false)
    ensures var e := Exec(s, sched, false);
            && |sched| <= 378 * |s.cars|
            && (!DeadlockCars(s.cars) && (forall c: nat :: c < |s.cars| ==> Blocked(e, c)) ==>
                  && (forall c :: 0 <= c < |s.cars| ==> e.at[c] == Done) && e.carsWait == |s.cars|
                  && (forall c: nat :: c < |s.cars| ==> Ways.Drove(s, sched, false, c)))
  {
    BusyRun(s, sched, false);
    var e := Exec(s, sched, false);
    if !DeadlockCars(s.cars) && forall c: nat :: c < |s.cars| ==> Blocked(e, c) {
      StuckOnlyInRing(e);
      DeadlockIff(s);
      AllFinished(e, |s.cars|);
      AllDrove(s, sched, false);
    }
  }

  /** Four cars going straight, one from each side, can deadlock, and so can two pairs turning left from
      opposite sides. If only one of a pair turns left and no car comes from the next side, all get
      through. */
  lemma DeadlockExamples()
    ensures DeadlockCars([Car(0, 2), Car(1, 2), Car(2, 2), Car(3, 2)])
    ensures DeadlockCars([Car(0, 3), Car(0, 3), Car(2, 3), Car(2, 3)])
    ensures !DeadlockCars([Car(0, 3), Car(0, 2), Car(2, 2), Car(3, 2)])
  {
    var straight := [Car(0, 2), Car(1, 2), Car(2, 2), Car(3, 2)];
    assert Crosses(straight, 0, 0) && Crosses(straight, 1, 1) && Crosses(straight, 2, 2) && Crosses(straight, 3, 3);
    var left := [Car(0, 3), Car(0, 3), Car(2, 3), Car(2, 3)];
    assert TurnsLeft(left, 0, 0) && TurnsLeft(left, 1, 0) && TurnsLeft(left, 2, After(After(0))) && TurnsLeft(left, 3, After(After(0)));
    assert TwoPairs(left, 0);
    var mixed := [Car(0, 3), Car(0, 2), Car(2, 2), Car(3, 2)];
    assert forall c: nat, d :: TurnsLeft(mixed, c, d) ==> c == 0;
    assert forall c: nat :: !Crosses(mixed, c, 1);
  }
}
