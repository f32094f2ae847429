/** How long the cats and mice can go on, and that they are never stuck. */
module CatMouseRuns {
  import Arith
  import opened CatMouse

  /** A thread that only looks: it finds the way barred and looks again, or has half a look. */
  predicate Looks(s: State, i: nat)
    requires i < |s.animals|
  {
    var a := s.animals[i];
    a.pc.LookBowl? || (a.pc.LookCount? && Count(s, Other(a.kind)) > 0)
  }

  /** A step of thread i is a move: it is not done, not kept out of the mutex, and does not only look. */
  predicate CanMove(s: State, i: nat)
    requires i < |s.animals|
  {
    var a := s.animals[i];
    !a.pc.Done? && !(Waits(a.pc) && s.owner.Some?) && !Looks(s, i)
  }

  // ---------------------------------------------------------------- what is left to do

  /** On the way to a bowl, not yet past both tests. A thread may go round in circles here. */
  predicate Tries(pc: Pc) {
    pc.LookBowl? || pc.LookCount? || pc.Enter? || pc.TestBowl? || pc.TestCount? || pc.GiveUp?
  }

  predicate InRound(pc: Pc) { !(pc.Number? || pc.Numbering? || pc.Finish? || pc.Finishing? || pc.Done?) }

  /** Stages left in a round; the circle counts as one. */
  function Stage(pc: Pc): nat {
    if Tries(pc) then 18
    else
      match pc
      case Choose => 19
      case CheckBowl => 17 case CheckCount => 16 case Load => 15 case Store => 14 case Mark => 13 case LeaveIn => 12
      case Print1 => 11 case Printing1 => 10 case Print2 => 9 case Printing2 => 8
      case Exit => 7 case CheckOwn => 6 case CheckMark => 5 case LoadDown => 4 case StoreDown => 3 case Unmark => 2 case LeaveOut => 1
      case _ => 0
  }

  predicate RoundsOk(a: Animal) { InRound(a.pc) ==> a.rounds > 0 }

  function Rank(a: Animal): nat {
    match a.pc
    case Number => 20 * a.rounds + 4
    case Numbering => 20 * a.rounds + 3
    case Finish => 2
    case Finishing => 1
    case Done => 0
    case _ => if a.rounds > 0 then 20 * (a.rounds - 1) + 3 + Stage(a.pc) else 0
  }

  /** Moves a thread can make on its way to a bowl as long as no bowl and no counter changes. */
  function Tour(s: State, a: Animal): (n: nat)
    ensures n <= 6
  {
    var theirs := Count(s, Other(a.kind)) > 0;
    var taken := a.bowl < |s.bowls| && s.bowls[a.bowl] == MarkOf(a.kind);
    match a.pc
    case LookBowl => if theirs || taken then 0 else 5
    case LookCount => if theirs then 0 else 5
    case Enter => 4
    case TestBowl => 3
    case TestCount => 2
    case GiveUp => if theirs || taken then 1 else 6
    case _ => 0
  }

  function Ranks(s: State, n: nat): nat
    requires n <= |s.animals|
  {
    if n == 0 then 0 else Ranks(s, n - 1) + Rank(s.animals[n - 1])
  }

  function Tours(s: State, n: nat): (t: nat)
    requires n <= |s.animals|
    ensures t <= 6 * n
  {
    if n == 0 then 0 else Tours(s, n - 1) + Tour(s, s.animals[n - 1])
  }

  /** Moves left at most. */
  function Left(s: State): nat {
    (6 * |s.animals| + 1) * Ranks(s, |s.animals|) + Tours(s, |s.animals|)
  }

  // ---------------------------------------------------------------- every step

  /** Only the stepping thread's rank changes. */
  lemma {:induction false} RanksStep(s: State, s': State, i: nat, n: nat)
    requires i < |s.animals| == |s'.animals| && n <= |s.animals| && s'.animals == s.animals[i := s'.animals[i]]
    ensures Ranks(s', n) - Ranks(s, n) == if i < n then Rank(s'.animals[i]) - Rank(s.animals[i]) else 0
  {
    if n > 0 {
      RanksStep(s, s', i, n - 1);
    }
  }

  lemma TourSame(s: State, s': State, a: Animal)
    requires s'.bowls == s.bowls && s'.cats == s.cats && s'.mice == s.mice
    ensures Tour(s', a) == Tour(s, a)
  {
  }

  /** With bowls and counters as they were, only its tour does. */
  lemma {:induction false} ToursStep(s: State, s': State, i: nat, n: nat)
    requires i < |s.animals| == |s'.animals| && n <= |s.animals| && s'.animals == s.animals[i := s'.animals[i]]
    requires s'.bowls == s.bowls && s'.cats == s.cats && s'.mice == s.mice
    ensures Tours(s', n) - Tours(s, n) == if i < n then Tour(s, s'.animals[i]) - Tour(s, s.animals[i]) else 0
  {
    if n > 0 {
      ToursStep(s, s', i, n - 1);
      TourSame(s, s', s'.animals[n - 1]);
    }
  }

  ghost predicate RankStep(s: State, i: nat, s': State)
    requires i < |s.animals|
  {
    && |s'.animals| == |s.animals| && s'.animals == s.animals[i := s'.animals[i]] && RoundsOk(s'.animals[i])
    && (if CanMove(s, i) && !(Tries(s.animals[i].pc) && Tries(s'.animals[i].pc)) then Rank(s'.animals[i]) < Rank(s.animals[i])
        else Rank(s'.animals[i]) == Rank(s.animals[i]))
  }

  lemma RankAtMutex(s: State, i: nat, r: nat)
    requires TypeOk(s) && i < |s.animals| && RoundsOk(s.animals[i]) && (Waits(s.animals[i].pc) || Leaves(s.animals[i].pc))
    ensures RankStep(s, i, Step(s, i, r))
  {
    assert s.animals[i := s.animals[i]] == s.animals;
  }

  lemma RankOnTheWay(s: State, i: nat, r: nat)
    requires TypeOk(s) && i < |s.animals| && RoundsOk(s.animals[i]) && Tries(s.animals[i].pc)
    ensures RankStep(s, i, Step(s, i, r))
  {
    assert s.animals[i := s.animals[i]] == s.animals;
  }

  lemma RankAtBowl(s: State, i: nat, r: nat)
    requires TypeOk(s) && i < |s.animals| && RoundsOk(s.animals[i]) && 12 < Stage(s.animals[i].pc) < 18
    ensures RankStep(s, i, Step(s, i, r))
  {
  }

  /** A move leads to a lower stage unless it is one of the circle; looking changes no stage. */
  lemma RankFalls(s: State, i: nat, r: nat)
    requires TypeOk(s) && i < |s.animals| && RoundsOk(s.animals[i])
    ensures RankStep(s, i, Step(s, i, r))
  {
    if Waits(s.animals[i].pc) || Leaves(s.animals[i].pc) {
      RankAtMutex(s, i, r);
    } else if Tries(s.animals[i].pc) {
      RankOnTheWay(s, i, r);
    } else if 12 < Stage(s.animals[i].pc) < 18 {
      RankAtBowl(s, i, r);
    } else {
      assert s.animals[i := s.animals[i]] == s.animals;
    }
  }

  /** In the circle no bowl and no counter changes, a move shortens the tour and looking does not
      lengthen it. */
  lemma TourFalls(s: State, i: nat, r: nat)
    requires TypeOk(s) && i < |s.animals|
    requires !CanMove(s, i) || (Tries(s.animals[i].pc) && Tries(Step(s, i, r).animals[i].pc))
    ensures var s' := Step(s, i, r);
            && s'.bowls == s.bowls && s'.cats == s.cats && s'.mice == s.mice
            && (if CanMove(s, i) then Tour(s, s'.animals[i]) < Tour(s, s.animals[i])
                else Tour(s, s'.animals[i]) <= Tour(s, s.animals[i]))
  {
  }

  lemma Outweighs(k: nat, a: int, b: int, x: nat, y: nat)
    requires a < b && x < k
    ensures k * a + x < k * b + y
  {
    Arith.Scale(a + 1, b, k);
    assert (a + 1) * k == a * k + k;
  }

  /** A lower rank outweighs all tours. */
  lemma LeftByRank(s: State, s': State, i: nat)
    requires i < |s.animals| == |s'.animals| && s'.animals == s.animals[i := s'.animals[i]]
    requires Rank(s'.animals[i]) < Rank(s.animals[i])
    ensures Left(s') < Left(s)
  {
    var n := |s.animals|;
    RanksStep(s, s', i, n);
    Outweighs(6 * n + 1, Ranks(s', n), Ranks(s, n), Tours(s', n), Tours(s, n));
  }

  lemma LeftByTour(s: State, s': State, i: nat)
    requires i < |s.animals| == |s'.animals| && s'.animals == s.animals[i := s'.animals[i]]
    requires s'.bowls == s.bowls && s'.cats == s.cats && s'.mice == s.mice && Rank(s'.animals[i]) == Rank(s.animals[i])
    ensures Left(s') - Left(s) == Tour(s, s'.animals[i]) - Tour(s, s.animals[i])
  {
    RanksStep(s, s', i, |s.animals|);
    ToursStep(s, s', i, |s.animals|);
  }

  /** A move brings the end nearer and looking does not put it off, whoever steps. */
  lemma StepProgress(s: State, i: nat, r: nat)
    requires TypeOk(s) && i < |s.animals| && RoundsOk(s.animals[i])
    ensures |Step(s, i, r).animals| == |s.animals|
    ensures if CanMove(s, i) then Left(Step(s, i, r)) < Left(s) else Left(Step(s, i, r)) <= Left(s)
  {
    var s' := Step(s, i, r);
    RankFalls(s, i, r);
    if !CanMove(s, i) || (Tries(s.animals[i].pc) && Tries(s'.animals[i].pc)) {
      TourFalls(s, i, r);
      LeftByTour(s, s', i);
    } else {
      LeftByRank(s, s', i);
    }
  }

  // ---------------------------------------------------------------- every run

  ghost predicate AllRounds(s: State) { forall i {:trigger s.animals[i]} :: 0 <= i < |s.animals| ==> RoundsOk(s.animals[i]) }

  /** How many turns of a run were moves. */
  ghost function Moves(s: State, turns: seq<Turn>): nat
    requires TypeOk(s)
  {
    if turns == [] then 0
    else
      var n := |turns| - 1;
      var p := Run(s, turns[..n]);
      Moves(s, turns[..n]) + if turns[n].who < |p.animals| && CanMove(p, turns[n].who) then 1 else 0
  }

  lemma {:induction false} RunProgress(s: State, turns: seq<Turn>)
    requires Inv(s) && AllRounds(s)
    ensures Inv(Run(s, turns)) && AllRounds(Run(s, turns)) && |Run(s, turns).animals| == |s.animals|
    ensures Moves(s, turns) + Left(Run(s, turns)) <= Left(s)
  {
    RunKeepsInv(s, turns);
    if turns != [] {
      var n := |turns| - 1;
      RunProgress(s, turns[..n]);
      var p := Run(s, turns[..n]);
      var i := turns[n].who;
      if i < |p.animals| {
        StepProgress(p, i, turns[n].r);
        RankFalls(p, i, turns[n].r);
      }
    }
  }

  function Rounds(animals: seq<Animal>): nat {
    if animals == [] then 0 else Rounds(animals[..|animals| - 1]) + animals[|animals| - 1].rounds
  }

  lemma {:induction false} InitialRanks(s: State, n: nat)
    requires Initial(s) && n <= |s.animals|
    ensures Ranks(s, n) == 20 * Rounds(s.animals[..n]) + 4 * n && Tours(s, n) == 0
  {
    if n > 0 {
      InitialRanks(s, n - 1);
      assert s.animals[..n][..n - 1] == s.animals[..n - 1];
    }
  }

  lemma InitialLeft(s: State)
    requires Initial(s)
    ensures Left(s) == (6 * |s.animals| + 1) * (20 * Rounds(s.animals) + 4 * |s.animals|)
  {
    InitialRanks(s, |s.animals|);
    assert s.animals[..|s.animals|] == s.animals;
  }

  /** Spinning aside, every run is finite: however the threads interleave and however often they look,
      they make no more moves than this. */
  lemma MovesBounded(s: State, turns: seq<Turn>, most: nat)
    requires Initial(s) && most == (6 * |s.animals| + 1) * (20 * Rounds(s.animals) + 4 * |s.animals|)
    ensures TypeOk(s) && Moves(s, turns) <= most
  {
    InitialInv(s);
    InitialLeft(s);
    RunProgress(s, turns);
  }

  /** Nobody in the mutex and nobody who could enter it: then nobody eats and every bowl is free. */
  lemma AllOpen(s: State, i: nat)
    requires Inv(s) && i < |s.animals| && s.owner.None? && forall j :: 0 <= j < |s.animals| ==> !Waits(s.animals[j].pc)
    ensures Count(s, Other(s.animals[i].kind)) == 0 && s.bowls[s.animals[i].bowl] == '-'
  {
    forall j | 0 <= j < |s.animals|
      ensures !Eats(s.animals[j].pc)
    {
      assert AnimalOk(s, j);
    }
    NoOneEats(s.animals, Cat);
    NoOneEats(s.animals, Mouse);
    NoMarks(s.bowls, 'c');
    NoMarks(s.bowls, 'm');
    assert BowlOk(s, s.animals[i].bowl);
  }

  /** Thread i can move, at once or after one look. */
  ghost predicate Forward(s: State, i: nat)
    requires TypeOk(s)
  {
    i < |s.animals| && (CanMove(s, i) || var t := Step(s, i, 0); i < |t.animals| && CanMove(t, i))
  }

  lemma LooksIn(s: State, i: nat)
    requires Inv(s) && i < |s.animals| && !s.animals[i].pc.Done?
    requires s.owner.None? && forall j :: 0 <= j < |s.animals| ==> !Waits(s.animals[j].pc)
    ensures Forward(s, i)
  {
    AllOpen(s, i);
    assert AnimalOk(s, i);
  }

  lemma OwnerMoves(s: State)
    requires Inv(s) && s.owner.Some?
    ensures Forward(s, s.owner.value)
  {
    assert AnimalOk(s, s.owner.value);
  }

  /** In every run, as long as not all are done, some thread can move, at once or after one look. */
  lemma NeverStuck(s0: State, turns: seq<Turn>) returns (i: nat)
    requires Initial(s0)
    ensures var s := Run(s0, turns);
            TypeOk(s) && ((forall j :: 0 <= j < |s.animals| ==> s.animals[j].pc.Done?) || Forward(s, i))
  {
    InitialInv(s0);
    RunKeepsInv(s0, turns);
    var s := Run(s0, turns);
    i := 0;
    if s.owner.Some? {
      i := s.owner.value;
      OwnerMoves(s);
    } else if j: nat :| j < |s.animals| && Waits(s.animals[j].pc) {
      i := j;
    } else if j: nat :| j < |s.animals| && !s.animals[j].pc.Done? {
      i := j;
      LooksIn(s, i);
    }
  }
}
