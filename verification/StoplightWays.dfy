/** That the cars drive: which regions a car is seen to enter and leave on its way. */
module StoplightWays {
  import opened Stoplight

  /** A region's flag goes up or down. */
  datatype Event = Enter(region: nat) | Leave(region: nat)

  /** What is seen of region r between two states. */
  function SeenAt(s: State, s': State, r: nat): seq<Event>
    requires Shape(s) && Shape(s') && r < 4
  {
    if !s.flag[r] && s'.flag[r] then [Enter(r)] else if s.flag[r] && !s'.flag[r] then [Event.Leave(r)] else []
  }

  function Seen(s: State, s': State): seq<Event>
    requires Shape(s) && Shape(s')
  {
    SeenAt(s, s', 0) + SeenAt(s, s', 1) + SeenAt(s, s', 2) + SeenAt(s, s', 3)
  }

  /** What is seen in a run while car c moves. */
  function Trace(s: State, sched: seq<nat>, atomic: bool, c: nat): seq<Event>
    requires Shape(s) && forall i :: 0 <= i < |sched| ==> sched[i] < |s.cars|
  {
    if sched == [] then []
    else
      var n := |sched| - 1;
      Trace(s, sched[..n], atomic, c) + if sched[n] == c then Seen(Exec(s, sched[..n], atomic), Exec(s, sched, atomic)) else []
  }

  /** The way of a car: from its side through as many regions as it has to pass, each entered before the
      one behind is left. */
  function Route(car: Car): seq<Event>
    requires car.from < 4
  {
    var a, b, c := car.from, After(car.from), After(After(car.from));
    if car.len == 1 then [Enter(a), Event.Leave(a)]
    else if car.len == 2 then [Enter(a), Enter(b), Event.Leave(a), Event.Leave(b)]
    else [Enter(a), Enter(b), Event.Leave(a), Enter(c), Event.Leave(b), Event.Leave(c)]
  }

  /** How much of it a car has behind it. */
  function Passed(car: Car, ph: Phase): int {
    match ph
    case DropMutex => 1
    case Want(k) => if k == 0 then 0 else 2 * k - 1
    case Check(k) => if k == 0 then 0 else 2 * k - 1
    case Set(k) => if k == 0 then 0 else 2 * k - 1
    case ClearPrev(k) => 2 * k
    case DropPrev(k) => 2 * k + 1
    case ClearLast => 2 * car.len - 1
    case DropLast => 2 * car.len
    case Through => 2 * car.len
    case Done => 2 * car.len
    case _ => 0
  }

  lemma PassedBounds(car: Car, ph: Phase)
    requires PhaseOk(car, ph)
    ensures |Route(car)| == 2 * car.len && 0 <= Passed(car, ph) <= 2 * car.len
  {
  }

  /** The event a change of a flag is. */
  function EventOf(car: Car, e: Touch): seq<Event> {
    match e
    case Leave => []
    case Put(k) => [Enter(Region(car, k))]
    case Clear(k) => [Event.Leave(Region(car, k))]
  }

  /** From phase ph to phase next a car does what comes next on its way. */
  ghost predicate Follows(car: Car, ph: Phase, e: Effect)
    requires car.from < 4
  {
    var i, j := Passed(car, ph), Passed(car, e.next);
    && 0 <= i <= j <= |Route(car)|
    && (if e.flag.Leave? then j == i else j == i + 1 && EventOf(car, e.flag) == [Route(car)[i]])
  }

  lemma EntryFollows(car: Car, ph: Phase, ahead: bool, atomic: bool)
    requires PhaseOk(car, ph) && (ph.Want? || ph.Check? || ph.Set?)
    ensures Follows(car, ph, Action(car, ph, ahead, atomic))
  {
  }

  lemma GoingFollows(car: Car, ph: Phase, ahead: bool, atomic: bool)
    requires PhaseOk(car, ph) && (ph.ClearPrev? || ph.DropPrev?)
    ensures Follows(car, ph, Action(car, ph, ahead, atomic))
  {
  }

  lemma ExitFollows(car: Car, ph: Phase, ahead: bool, atomic: bool)
    requires PhaseOk(car, ph) && (ph.ClearLast? || ph.DropLast?)
    ensures Follows(car, ph, Action(car, ph, ahead, atomic))
  {
  }

  /** A step takes a car on by the next event of its way, or by none. */
  lemma ActionFollows(car: Car, ph: Phase, ahead: bool, atomic: bool)
    requires PhaseOk(car, ph)
    ensures Follows(car, ph, Action(car, ph, ahead, atomic))
  {
    if ph.Want? || ph.Check? || ph.Set? {
      EntryFollows(car, ph, ahead, atomic);
    } else if ph.ClearPrev? || ph.DropPrev? {
      GoingFollows(car, ph, ahead, atomic);
    } else if ph.ClearLast? || ph.DropLast? {
      ExitFollows(car, ph, ahead, atomic);
    }
  }

  /** A flag that goes up was down, and one that goes down was up. */
  lemma FlagTurns(s: State, c: nat, atomic: bool)
    requires Inv(s) && c < |s.cars| && !Blocked(s, c)
    ensures var e := Action(s.cars[c], s.at[c], s.flag[Ahead(s.cars[c])], atomic);
            && (e.flag.Put? ==> !s.flag[Region(s.cars[c], e.flag.k)])
            && (e.flag.Clear? ==> s.flag[Region(s.cars[c], e.flag.k)])
  {
    var car, ph := s.cars[c], s.at[c];
    var e := Action(car, ph, s.flag[Ahead(car)], atomic);
    assert CarOk(s, c);
    if !e.flag.Leave? {
      var k := e.flag.k;
      var r := Region(car, k);
      ActionFlags(car, ph, s.flag[Ahead(car)], atomic, k);
      ActionLocks(car, ph, s.flag[Ahead(car)], atomic, k);
      RegionIndex(car, k, r);
      assert RegionOk(s, r);
    }
  }

  lemma SeenIs(s: State, c: nat, e: Effect)
    requires Shape(s) && c < |s.cars|
    requires e.flag.Put? ==> !s.flag[Region(s.cars[c], e.flag.k)]
    requires e.flag.Clear? ==> s.flag[Region(s.cars[c], e.flag.k)]
    ensures Seen(s, Apply(s, c, e)) == EventOf(s.cars[c], e.flag)
  {
  }

  lemma FollowsPart(car: Car, ph: Phase, e: Effect)
    requires car.from < 4 && Follows(car, ph, e)
    ensures EventOf(car, e.flag) == Route(car)[Passed(car, ph)..Passed(car, e.next)]
  {
  }

  /** Between two states car c is seen to go on along its way. */
  ghost predicate SeenOnWay(s: State, s': State, c: nat)
    requires Shape(s) && Shape(s') && c < |s.cars| == |s'.cars| && s.cars[c].from < 4
  {
    var car := s.cars[c];
    var i, j := Passed(car, s.at[c]), Passed(car, s'.at[c]);
    0 <= i <= j <= |Route(car)| && Seen(s, s') == Route(car)[i..j]
  }

  lemma ApplySeen(s: State, c: nat, e: Effect)
    requires Shape(s) && c < |s.cars| && s.cars[c].from < 4 && Follows(s.cars[c], s.at[c], e)
    requires e.flag.Put? ==> !s.flag[Region(s.cars[c], e.flag.k)]
    requires e.flag.Clear? ==> s.flag[Region(s.cars[c], e.flag.k)]
    ensures SeenOnWay(s, Apply(s, c, e), c)
  {
    SeenIs(s, c, e);
    FollowsPart(s.cars[c], s.at[c], e);
  }

  lemma StepSeen(s: State, c: nat, atomic: bool)
    requires Inv(s) && c < |s.cars|
    ensures s.cars[c].from < 4 && SeenOnWay(s, Step(s, c, atomic), c)
  {
    var car, ph := s.cars[c], s.at[c];
    assert CarOk(s, c);
    PassedBounds(car, ph);
    if !Blocked(s, c) {
      ActionFollows(car, ph, s.flag[Ahead(car)], atomic);
      FlagTurns(s, c, atomic);
      ApplySeen(s, c, Action(car, ph, s.flag[Ahead(car)], atomic));
    }
  }

  /** In the run car c was seen to drive its whole way. */
  ghost predicate Drove(s: State, sched: seq<nat>, atomic: bool, c: nat)
    requires Shape(s) && (forall i :: 0 <= i < |sched| ==> sched[i] < |s.cars|) && c < |s.cars|
  {
    s.cars[c].from < 4 && Trace(s, sched, atomic, c) == Route(s.cars[c])
  }

  /** What was seen of a car in phase ph is the beginning of its way. */
  ghost predicate OnRoute(seen: seq<Event>, car: Car, ph: Phase) {
    car.from < 4 && 0 <= Passed(car, ph) <= |Route(car)| && seen == Route(car)[..Passed(car, ph)]
  }

  lemma Onward(seen: seq<Event>, s: State, s': State, c: nat)
    requires Shape(s) && Shape(s') && c < |s.cars| == |s'.cars|
    requires OnRoute(seen, s.cars[c], s.at[c]) && SeenOnWay(s, s', c)
    ensures OnRoute(seen + Seen(s, s'), s.cars[c], s'.at[c])
  {
  }

  lemma {:induction false} RunOnRoute(s: State, sched: seq<nat>, atomic: bool, c: nat)
    requires Initial(s) && (forall i :: 0 <= i < |sched| ==> sched[i] < |s.cars|) && c < |s.cars|
    ensures OnRoute(Trace(s, sched, atomic, c), s.cars[c], Exec(s, sched, atomic).at[c])
  {
    if sched != [] {
      var n := |sched| - 1;
      var p := Exec(s, sched[..n], atomic);
      RunOnRoute(s, sched[..n], atomic, c);
      EveryRunSafe(s, sched[..n], atomic);
      if sched[n] == c {
        StepSeen(p, c, atomic);
        Onward(Trace(s, sched[..n], atomic, c), p, Step(p, c, atomic), c);
      }
    }
  }

  /** In every run, at either grain, what is seen of a car is the beginning of its way, and the whole of
      it when the car is through. */
  lemma EveryCarDrives(s: State, sched: seq<nat>, atomic: bool, c: nat)
    requires Initial(s) && (forall i :: 0 <= i < |sched| ==> sched[i] < |s.cars|) && c < |s.cars|
    ensures OnRoute(Trace(s, sched, atomic, c), s.cars[c], Exec(s, sched, atomic).at[c])
    ensures Exec(s, sched, atomic).at[c] == Done ==> Drove(s, sched, atomic, c)
  {
    RunOnRoute(s, sched, atomic, c);
    var car := s.cars[c];
    PassedBounds(car, Done);
    assert Route(car)[..|Route(car)|] == Route(car);
  }

  lemma AmongFirst(es: seq<Event>, n: int, x: Event)
    requires 0 <= n <= |es| <= 6
    ensures x in es[..n] <==>
              (n > 0 && es[0] == x) || (n > 1 && es[1] == x) || (n > 2 && es[2] == x)
              || (n > 3 && es[3] == x) || (n > 4 && es[4] == x) || (n > 5 && es[5] == x)
  {
    if x in es[..n] {
      var i :| 0 <= i < n && es[..n][i] == x;
      assert i == 0 || i == 1 || i == 2 || i == 3 || i == 4 || i == 5;
    }
    assert forall i :: 0 <= i < n ==> es[..n][i] == es[i];
  }

  /** Where a car is on its way. */
  lemma InIffSeen(car: Car, ph: Phase, r: nat)
    requires PhaseOk(car, ph) && r < 4
    ensures 0 <= Passed(car, ph) <= |Route(car)|
    ensures var seen := Route(car)[..Passed(car, ph)];
            In(car, ph, Index(car, r)) <==> Enter(r) in seen && Event.Leave(r) !in seen
  {
    PassedBounds(car, ph);
    AmongFirst(Route(car), Passed(car, ph), Enter(r));
    AmongFirst(Route(car), Passed(car, ph), Event.Leave(r));
  }

  /** Car c has entered region r and not left it. */
  predicate Within(s: State, sched: seq<nat>, atomic: bool, c: nat, r: nat)
    requires Shape(s) && forall i :: 0 <= i < |sched| ==> sched[i] < |s.cars|
  {
    Enter(r) in Trace(s, sched, atomic, c) && Event.Leave(r) !in Trace(s, sched, atomic, c)
  }

  lemma WithinIffIn(s: State, sched: seq<nat>, atomic: bool, c: nat, r: nat)
    requires Initial(s) && (forall i :: 0 <= i < |sched| ==> sched[i] < |s.cars|) && c < |s.cars| && r < 4
    ensures Within(s, sched, atomic, c, r) <==> In(s.cars[c], Exec(s, sched, atomic).at[c], Index(s.cars[c], r))
    ensures Within(s, sched, atomic, c, r) ==> Exec(s, sched, atomic).lock[r] == By(c)
  {
    EveryRunSafe(s, sched, atomic);
    EveryCarDrives(s, sched, atomic, c);
    assert CarOk(Exec(s, sched, atomic), c);
    InIffSeen(s.cars[c], Exec(s, sched, atomic).at[c], r);
  }

  /** A region's flag is up exactly while some car has entered the region and not left it, and that car
      holds its lock. */
  lemma FlagIffInside(s: State, sched: seq<nat>, atomic: bool, r: nat)
    requires Initial(s) && (forall i :: 0 <= i < |sched| ==> sched[i] < |s.cars|) && r < 4
    ensures Exec(s, sched, atomic).flag[r] <==> exists c: nat :: c < |s.cars| && Within(s, sched, atomic, c, r)
    ensures forall c: nat :: c < |s.cars| && Within(s, sched, atomic, c, r) ==> Exec(s, sched, atomic).lock[r] == By(c)
  {
    EveryRunSafe(s, sched, atomic);
    var e := Exec(s, sched, atomic);
    assert RegionOk(e, r);
    forall c: nat | c < |s.cars|
      ensures Within(s, sched, atomic, c, r) <==> In(s.cars[c], e.at[c], Index(s.cars[c], r))
      ensures Within(s, sched, atomic, c, r) ==> e.lock[r] == By(c)
    {
      WithinIffIn(s, sched, atomic, c, r);
    }
    if e.flag[r] {
      assert Within(s, sched, atomic, e.lock[r].car, r);
    }
  }
}
