/** That the cats and mice eat: what a thread is seen to do in its rounds. */
module CatMouseMeals {
  import Arith
  import opened CatMouse
  import Runs = CatMouseRuns

  /** A thread marks a bowl, prints that it starts and that it ends eating, and frees the bowl. */
  datatype Event = Took(bowl: nat) | Starts | Ends | Freed(bowl: nat)

  /** The first bowl that is not as it was, or their number. */
  function Changed(bowls: seq<char>, bowls': seq<char>): (b: nat)
    requires |bowls| == |bowls'|
    ensures b <= |bowls| && (b < |bowls| ==> bowls[b] != bowls'[b])
    ensures forall c :: 0 <= c < b ==> bowls[c] == bowls'[c]
  {
    if bowls == [] || bowls[0] != bowls'[0] then 0 else 1 + Changed(bowls[1..], bowls'[1..])
  }

  /** What is seen when thread i moves: a bowl that gets its mark or is freed, or thread i in the mutex
      to print. */
  function Seen(s: State, s': State, i: nat): seq<Event>
    requires i < |s.animals| == |s'.animals| && |s.bowls| == |s'.bowls|
  {
    var b, a' := Changed(s.bowls, s'.bowls), s'.animals[i];
    if b < |s.bowls| then
      if s'.bowls[b] == MarkOf(a'.kind) then [Took(b)] else [Freed(b)]
    else if s.owner != Some(i) && s'.owner == Some(i) && a'.pc.Printing1? then [Starts]
    else if s.owner != Some(i) && s'.owner == Some(i) && a'.pc.Printing2? then [Ends]
    else []
  }

  ghost function Trace(s: State, turns: seq<Turn>, i: nat): seq<Event>
    requires TypeOk(s)
  {
    if turns == [] then []
    else
      var n := |turns| - 1;
      var p, q := Run(s, turns[..n]), Run(s, turns);
      Trace(s, turns[..n], i)
      + if turns[n].who == i < |p.animals| == |q.animals| && |p.bowls| == |q.bowls| then Seen(p, q, i) else []
  }

  /** n meals, one after the other, each from one bowl. */
  ghost predicate Meals(es: seq<Event>, n: nat) {
    && |es| == 4 * n
    && forall k {:trigger es[4 * k]} :: 0 <= k < n ==>
         es[4 * k].Took? && es[4 * k + 1] == Starts && es[4 * k + 2] == Ends && es[4 * k + 3] == Freed(es[4 * k].bowl)
  }

  /** The part of its present meal that a thread has had. */
  function Partly(a: Animal): seq<Event> {
    match a.pc
    case LeaveIn => [Took(a.bowl)]
    case Print1 => [Took(a.bowl)]
    case Printing1 => [Took(a.bowl), Starts]
    case Print2 => [Took(a.bowl), Starts]
    case Printing2 => [Took(a.bowl), Starts, Ends]
    case Exit => [Took(a.bowl), Starts, Ends]
    case CheckOwn => [Took(a.bowl), Starts, Ends]
    case CheckMark => [Took(a.bowl), Starts, Ends]
    case LoadDown => [Took(a.bowl), Starts, Ends]
    case StoreDown => [Took(a.bowl), Starts, Ends]
    case Unmark => [Took(a.bowl), Starts, Ends]
    case LeaveOut => [Took(a.bowl), Starts, Ends, Freed(a.bowl)]
    case _ => []
  }

  /** A thread in a round has rounds to do, and one past the last has none. */
  predicate RoundsOk(a: Animal) {
    Runs.RoundsOk(a) && (a.pc.Finish? || a.pc.Finishing? || a.pc.Done? ==> a.rounds == 0)
  }

  /** A step of a thread goes on with its meal, or ends a round with the meal had. */
  ghost predicate Goes(s: State, s': State, i: nat)
    requires i < |s.animals| == |s'.animals| && |s.bowls| == |s'.bowls|
  {
    var a, a' := s.animals[i], s'.animals[i];
    RoundsOk(a') &&
    if a.pc.LeaveOut? then Seen(s, s', i) == [] && a.rounds > 0 && a'.rounds == a.rounds - 1 && Partly(a') == []
    else a'.rounds == a.rounds && Partly(a') == Partly(a) + Seen(s, s', i)
  }

  lemma StepShape(s: State, i: nat, r: nat)
    requires TypeOk(s) && i < |s.animals|
    ensures var s' := Step(s, i, r);
            |s'.animals| == |s.animals| && |s'.bowls| == |s.bowls| && forall j :: 0 <= j < |s.animals| && j != i ==> s'.animals[j] == s.animals[j]
  {
  }

  lemma SameBowls(bowls: seq<char>)
    ensures Changed(bowls, bowls) == |bowls|
  {
  }

  lemma OneBowl(bowls: seq<char>, b: nat, c: char)
    requires b < |bowls| && bowls[b] != c
    ensures Changed(bowls, bowls[b := c]) == b
  {
  }

  /** With the bowls as they were, what is seen is the printing. */
  lemma SeenPrinting(s: State, s': State, i: nat)
    requires i < |s.animals| == |s'.animals| && s'.bowls == s.bowls
    ensures Seen(s, s', i) ==
              if s.owner != Some(i) && s'.owner == Some(i) && s'.animals[i].pc.Printing1? then [Starts]
              else if s.owner != Some(i) && s'.owner == Some(i) && s'.animals[i].pc.Printing2? then [Ends] else []
  {
    SameBowls(s.bowls);
  }

  lemma SeenBowl(s: State, s': State, i: nat, b: nat, c: char)
    requires i < |s.animals| == |s'.animals| && b < |s.bowls| && s.bowls[b] != c && s'.bowls == s.bowls[b := c]
    ensures Seen(s, s', i) == if c == MarkOf(s'.animals[i].kind) then [Took(b)] else [Freed(b)]
  {
    OneBowl(s.bowls, b, c);
  }

  lemma MarkGoes(s: State, i: nat, r: nat)
    requires TypeOk(s) && i < |s.animals| && AnimalOk(s, i) && RoundsOk(s.animals[i])
    requires s.animals[i].pc.Mark? || s.animals[i].pc.Unmark?
    ensures var s' := Step(s, i, r);
            |s'.animals| == |s.animals| && |s'.bowls| == |s.bowls| && Goes(s, s', i)
  {
    var a := s.animals[i];
    SeenBowl(s, Step(s, i, r), i, a.bowl, if a.pc.Mark? then MarkOf(a.kind) else '-');
  }

  lemma EnterGoes(s: State, i: nat, r: nat)
    requires TypeOk(s) && i < |s.animals| && AnimalOk(s, i) && RoundsOk(s.animals[i]) && Waits(s.animals[i].pc)
    ensures var s' := Step(s, i, r);
            |s'.animals| == |s.animals| && |s'.bowls| == |s.bowls| && Goes(s, s', i)
  {
    SeenPrinting(s, Step(s, i, r), i);
  }

  lemma LeaveGoes(s: State, i: nat, r: nat)
    requires TypeOk(s) && i < |s.animals| && AnimalOk(s, i) && RoundsOk(s.animals[i]) && Leaves(s.animals[i].pc)
    ensures var s' := Step(s, i, r);
            |s'.animals| == |s.animals| && |s'.bowls| == |s.bowls| && Goes(s, s', i)
  {
    SeenPrinting(s, Step(s, i, r), i);
  }

  lemma LoadGoes(s: State, i: nat, r: nat)
    requires TypeOk(s) && i < |s.animals| && AnimalOk(s, i) && RoundsOk(s.animals[i])
    requires s.animals[i].pc.LoadDown? || s.animals[i].pc.StoreDown?
    ensures var s' := Step(s, i, r);
            |s'.animals| == |s.animals| && |s'.bowls| == |s.bowls| && Goes(s, s', i)
  {
    assert Partly(s.animals[i]) + [] == Partly(s.animals[i]);
    SeenPrinting(s, Step(s, i, r), i);
  }

  lemma CheckGoes(s: State, i: nat, r: nat)
    requires TypeOk(s) && i < |s.animals| && AnimalOk(s, i) && RoundsOk(s.animals[i])
    requires s.animals[i].pc.CheckOwn? || s.animals[i].pc.CheckMark?
    ensures var s' := Step(s, i, r);
            |s'.animals| == |s.animals| && |s'.bowls| == |s.bowls| && Goes(s, s', i)
  {
    assert Partly(s.animals[i]) + [] == Partly(s.animals[i]);
    SeenPrinting(s, Step(s, i, r), i);
  }

  lemma TestGoes(s: State, i: nat, r: nat)
    requires TypeOk(s) && i < |s.animals| && AnimalOk(s, i) && RoundsOk(s.animals[i])
    requires var pc := s.animals[i].pc;
             && !Waits(pc) && !Leaves(pc) && !pc.Mark? && !pc.Unmark?
             && !pc.CheckOwn? && !pc.CheckMark? && !pc.LoadDown? && !pc.StoreDown?
    ensures var s' := Step(s, i, r);
            |s'.animals| == |s.animals| && |s'.bowls| == |s.bowls| && Goes(s, s', i)
  {
    SeenPrinting(s, Step(s, i, r), i);
  }

  lemma StepGoes(s: State, i: nat, r: nat)
    requires Inv(s) && i < |s.animals| && RoundsOk(s.animals[i])
    ensures var s' := Step(s, i, r);
            |s'.animals| == |s.animals| && |s'.bowls| == |s.bowls| && Goes(s, s', i)
  {
    assert AnimalOk(s, i);
    var pc := s.animals[i].pc;
    if pc.Mark? || pc.Unmark? {
      MarkGoes(s, i, r);
    } else if Waits(pc) {
      EnterGoes(s, i, r);
    } else if Leaves(pc) {
      LeaveGoes(s, i, r);
    } else if pc.CheckOwn? || pc.CheckMark? {
      CheckGoes(s, i, r);
    } else if pc.LoadDown? || pc.StoreDown? {
      LoadGoes(s, i, r);
    } else {
      TestGoes(s, i, r);
    }
  }

  /** random() chooses the bowl, and any bowl can be chosen. */
  lemma ChoosesAny(s: State, i: nat, b: nat)
    requires TypeOk(s) && i < |s.animals| && s.animals[i].pc.Choose? && b < |s.bowls|
    ensures Step(s, i, b).animals[i].bowl == b
  {
    Arith.Remainder(0, b, |s.bowls|);
  }

  /** Some meals, and the part of the next one. */
  ghost predicate Eaten(es: seq<Event>, n: int, part: seq<Event>) {
    n >= 0 && |es| == 4 * n + |part| && Meals(es[..4 * n], n) && es[4 * n..] == part
  }

  lemma EatsOn(es: seq<Event>, n: int, part: seq<Event>, seen: seq<Event>)
    requires Eaten(es, n, part)
    ensures Eaten(es + seen, n, part + seen)
  {
    assert (es + seen)[..4 * n] == es[..4 * n];
  }

  lemma EatsUp(es: seq<Event>, n: int, b: nat)
    requires Eaten(es, n, [Took(b), Starts, Ends, Freed(b)])
    ensures Eaten(es, n + 1, [])
  {
    var all := es[..4 * (n + 1)];
    assert all == es;
    forall k | 0 <= k < n + 1
      ensures all[4 * k].Took? && all[4 * k + 1] == Starts && all[4 * k + 2] == Ends && all[4 * k + 3] == Freed(all[4 * k].bowl)
    {
      if k < n {
        assert es[..4 * n][4 * k] == es[4 * k];
      } else {
        assert es[4 * n..][0] == es[4 * n] && es[4 * n..][1] == es[4 * n + 1] && es[4 * n..][2] == es[4 * n + 2]
               && es[4 * n..][3] == es[4 * n + 3];
      }
    }
  }

  /** Where thread i is in a state after it was seen to do es, with n rounds to do at first. */
  ghost predicate Fed(s: State, es: seq<Event>, i: nat, n: nat) {
    && Inv(s) && i < |s.animals| && RoundsOk(s.animals[i])
    && Eaten(es, n - s.animals[i].rounds, Partly(s.animals[i]))
  }

  lemma OwnFeeds(s: State, es: seq<Event>, i: nat, n: nat, r: nat)
    requires Fed(s, es, i, n)
    ensures var s' := Step(s, i, r);
            |s'.animals| == |s.animals| && |s'.bowls| == |s.bowls| && Fed(s', es + Seen(s, s', i), i, n)
  {
    var s', a := Step(s, i, r), s.animals[i];
    StepKeepsInv(s, i, r);
    StepGoes(s, i, r);
    if a.pc.LeaveOut? {
      EatsUp(es, n - a.rounds, a.bowl);
      assert es + [] == es;
    } else {
      EatsOn(es, n - a.rounds, Partly(a), Seen(s, s', i));
    }
  }

  lemma OtherFeeds(s: State, es: seq<Event>, i: nat, n: nat, who: nat, r: nat)
    requires Fed(s, es, i, n) && who < |s.animals| && who != i
    ensures var s' := Step(s, who, r);
            |s'.animals| == |s.animals| && |s'.bowls| == |s.bowls| && Fed(s', es, i, n)
  {
    StepKeepsInv(s, who, r);
    StepShape(s, who, r);
  }

  lemma StepFeeds(s: State, es: seq<Event>, i: nat, n: nat, who: nat, r: nat)
    requires Fed(s, es, i, n) && who < |s.animals|
    ensures var s' := Step(s, who, r);
            && |s'.animals| == |s.animals| && |s'.bowls| == |s.bowls|
            && Fed(s', es + if who == i then Seen(s, s', i) else [], i, n)
  {
    if who == i {
      OwnFeeds(s, es, i, n, r);
    } else {
      OtherFeeds(s, es, i, n, who, r);
      assert es + [] == es;
    }
  }

  /** In every run a thread has had a meal for each round it has done, and part of the next. */
  lemma {:induction false} RunFeeds(s0: State, turns: seq<Turn>, i: nat)
    requires Initial(s0) && i < |s0.animals|
    ensures var s := Run(s0, turns);
            |s.animals| == |s0.animals| && |s.bowls| == |s0.bowls| && Fed(s, Trace(s0, turns, i), i, s0.animals[i].rounds)
  {
    if turns == [] {
      InitialInv(s0);
    } else {
      var n := |turns| - 1;
      RunFeeds(s0, turns[..n], i);
      var p, es := Run(s0, turns[..n]), Trace(s0, turns[..n], i);
      if turns[n].who < |p.animals| {
        StepFeeds(p, es, i, s0.animals[i].rounds, turns[n].who, turns[n].r);
      } else {
        assert es + [] == es;
      }
    }
  }

  lemma FedDone(s: State, es: seq<Event>, i: nat, n: nat)
    requires Fed(s, es, i, n) && s.animals[i].pc.Done?
    ensures Meals(es, n)
  {
    assert es[..4 * n] == es;
  }

  /** A thread that is done has had a meal in each of its rounds: it took a bowl, started and ended
      eating, and freed that bowl. */
  lemma EveryoneEats(s0: State, turns: seq<Turn>, i: nat)
    requires Initial(s0) && i < |s0.animals| && i < |Run(s0, turns).animals| && Run(s0, turns).animals[i].pc.Done?
    ensures Meals(Trace(s0, turns, i), s0.animals[i].rounds)
  {
    RunFeeds(s0, turns, i);
    FedDone(Run(s0, turns), Trace(s0, turns, i), i, s0.animals[i].rounds);
  }
}
