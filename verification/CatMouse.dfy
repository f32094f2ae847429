/** Cats and mice sharing bowls under one semaphore (catsem.c), any number of each, with any number of
    bowls and rounds, interleaved at every access of a shared variable. */
module CatMouse {

  datatype Kind = Cat | Mouse

  datatype Option = None | Some(value: nat)

  /** Where a thread is. What it does next:
      Number..Numbering takes a number; Choose picks a bowl; LookBowl and LookCount are the waiting
      loop; Enter is P(mutex); TestBowl..LeaveIn is the first critical section and GiveUp its way back;
      Print1..Printing2 is sem_eat(); Exit is P(mutex); CheckOwn..LeaveOut is the second critical
      section; Finish..Finishing prints. */
  datatype Pc =
    | Number | Numbering | Choose | LookBowl | LookCount
    | Enter | TestBowl | TestCount | CheckBowl | CheckCount | Load | Store | Mark | LeaveIn | GiveUp
    | Print1 | Printing1 | Print2 | Printing2
    | Exit | CheckOwn | CheckMark | LoadDown | StoreDown | Unmark | LeaveOut
    | Finish | Finishing | Done

  /** tmp is the counter as loaded; rounds are those still to do. */
  datatype Animal = Animal(kind: Kind, pc: Pc, bowl: nat, tmp: int, rounds: nat)

  /** owner is the thread between P(mutex) and V(mutex); None is a count of 1. */
  datatype State = State(bowls: seq<char>, cats: int, mice: int, owner: Option, animals: seq<Animal>)

  function MarkOf(k: Kind): char { if k.Cat? then 'c' else 'm' }

  function Other(k: Kind): Kind { if k.Cat? then Mouse else Cat }

  function Count(s: State, k: Kind): int { if k.Cat? then s.cats else s.mice }

  function SetCount(s: State, k: Kind, n: int): State { if k.Cat? then s.(cats := n) else s.(mice := n) }

  function At(s: State, i: nat, a: Animal): State
    requires i < |s.animals|
  {
    s.(animals := s.animals[i := a])
  }

  predicate TypeOk(s: State) {
    |s.bowls| > 0 && forall i {:trigger s.animals[i]} :: 0 <= i < |s.animals| ==> s.animals[i].bowl < |s.bowls|
  }

  predicate Waits(pc: Pc) { pc.Number? || pc.Enter? || pc.Print1? || pc.Print2? || pc.Exit? || pc.Finish? }

  /** The next place of a thread that gets through P(mutex). */
  function Inside(pc: Pc): Pc {
    match pc
    case Number => Numbering
    case Enter => TestBowl
    case Print1 => Printing1
    case Print2 => Printing2
    case Exit => CheckOwn
    case Finish => Finishing
    case _ => pc
  }

  predicate Leaves(pc: Pc) {
    pc.Numbering? || pc.LeaveIn? || pc.GiveUp? || pc.Printing1? || pc.Printing2? || pc.LeaveOut? || pc.Finishing?
  }

  /** The next place of a thread that does V(mutex). */
  function Outside(a: Animal): Animal {
    match a.pc
    case Numbering => a.(pc := if a.rounds > 0 then Choose else Finish)
    case LeaveIn => a.(pc := Print1)
    case GiveUp => a.(pc := LookBowl)
    case Printing1 => a.(pc := Print2)
    case Printing2 => a.(pc := Exit)
    case LeaveOut =>
      var left := if a.rounds > 0 then a.rounds - 1 else 0;
      a.(rounds := left, pc := if left > 0 then Choose else Finish)
    case Finishing => a.(pc := Done)
    case _ => a
  }

  /** One access of a shared variable by thread i; random() gives r. A thread kept out of the mutex, or
      done, stays where it is. */
  function Step(s: State, i: nat, r: nat): State
    requires TypeOk(s) && i < |s.animals|
  {
    var a := s.animals[i];
    var mine, theirs := Count(s, a.kind), Count(s, Other(a.kind));
    if Waits(a.pc) then
      if s.owner.None? then At(s, i, a.(pc := Inside(a.pc))).(owner := Some(i)) else s
    else if Leaves(a.pc) then At(s, i, Outside(a)).(owner := None)
    else
      match a.pc
      case Choose => At(s, i, a.(bowl := r % |s.bowls|, pc := LookBowl))
      case LookBowl => At(s, i, a.(pc := if s.bowls[a.bowl] == MarkOf(a.kind) then LookBowl else LookCount))
      case LookCount => At(s, i, a.(pc := if theirs > 0 then LookBowl else Enter))
      case TestBowl => At(s, i, a.(pc := if s.bowls[a.bowl] == MarkOf(a.kind) then GiveUp else TestCount))
      case TestCount => At(s, i, a.(pc := if theirs > 0 then GiveUp else CheckBowl))
      case CheckBowl => At(s, i, a.(pc := CheckCount))
      case CheckCount => At(s, i, a.(pc := Load))
      case Load => At(s, i, a.(tmp := mine, pc := Store))
      case Store => At(SetCount(s, a.kind, a.tmp + 1), i, a.(pc := Mark))
      case Mark => At(s.(bowls := s.bowls[a.bowl := MarkOf(a.kind)]), i, a.(pc := LeaveIn))
      case CheckOwn => At(s, i, a.(pc := CheckMark))
      case CheckMark => At(s, i, a.(pc := LoadDown))
      case LoadDown => At(s, i, a.(tmp := mine, pc := StoreDown))
      case StoreDown => At(SetCount(s, a.kind, a.tmp - 1), i, a.(pc := Unmark))
      case Unmark => At(s.(bowls := s.bowls[a.bowl := '-']), i, a.(pc := LeaveOut))
      case _ => s
  }

  /** The assertion a thread is about to make, if any. */
  predicate AssertHolds(s: State, i: nat)
    requires TypeOk(s) && i < |s.animals|
  {
    var a := s.animals[i];
    match a.pc
    case CheckBowl => s.bowls[a.bowl] == '-'
    case CheckCount => Count(s, Other(a.kind)) == 0
    case CheckOwn => Count(s, a.kind) > 0
    case CheckMark => s.bowls[a.bowl] == MarkOf(a.kind)
    case _ => true
  }

  // ---------------------------------------------------------------- marks and eaters

  predicate InMutex(pc: Pc) {
    Leaves(pc) || pc.TestBowl? || pc.TestCount? || pc.CheckBowl? || pc.CheckCount? || pc.Load? || pc.Store? || pc.Mark?
    || pc.CheckOwn? || pc.CheckMark? || pc.LoadDown? || pc.StoreDown? || pc.Unmark?
  }

  /** From marking the bowl to unmarking it. */
  predicate Eats(pc: Pc) {
    pc.LeaveIn? || pc.Print1? || pc.Printing1? || pc.Print2? || pc.Printing2? || pc.Exit?
    || pc.CheckOwn? || pc.CheckMark? || pc.LoadDown? || pc.StoreDown? || pc.Unmark?
  }

  predicate Through(pc: Pc) { pc.CheckBowl? || pc.CheckCount? || pc.Load? || pc.Store? || pc.Mark? }

  function Marks(bowls: seq<char>, c: char): nat {
    if bowls == [] then 0 else (if bowls[0] == c then 1 else 0) + Marks(bowls[1..], c)
  }

  function Eaters(animals: seq<Animal>, k: Kind): nat {
    if animals == [] then 0
    else (if animals[0].kind == k && Eats(animals[0].pc) then 1 else 0) + Eaters(animals[1..], k)
  }

  lemma {:induction false} MarksSet(bowls: seq<char>, b: nat, x: char, c: char)
    requires b < |bowls|
    ensures Marks(bowls[b := x], c) == Marks(bowls, c) - (if bowls[b] == c then 1 else 0) + (if x == c then 1 else 0)
  {
    var bs := bowls[b := x];
    if b == 0 {
      assert bs[1..] == bowls[1..];
    } else {
      assert bs[1..] == bowls[1..][b - 1 := x];
      MarksSet(bowls[1..], b - 1, x, c);
    }
  }

  lemma {:induction false} NoMarks(bowls: seq<char>, c: char)
    ensures Marks(bowls, c) == 0 <==> c !in bowls
  {
    if bowls != [] {
      NoMarks(bowls[1..], c);
    }
  }

  function Eating(a: Animal, k: Kind): nat { if a.kind == k && Eats(a.pc) then 1 else 0 }

  lemma {:induction false} EatersSet(animals: seq<Animal>, i: nat, a: Animal, k: Kind)
    requires i < |animals|
    ensures Eaters(animals[i := a], k) == Eaters(animals, k) - Eating(animals[i], k) + Eating(a, k)
  {
    var as' := animals[i := a];
    if i == 0 {
      assert as'[1..] == animals[1..];
    } else {
      assert as'[1..] == animals[1..][i - 1 := a];
      EatersSet(animals[1..], i - 1, a, k);
    }
  }

  lemma {:induction false} NoOneEats(animals: seq<Animal>, k: Kind)
    requires forall i :: 0 <= i < |animals| ==> !Eats(animals[i].pc)
    ensures Eaters(animals, k) == 0
  {
    if animals != [] {
      NoOneEats(animals[1..], k);
    }
  }

  // ---------------------------------------------------------------- the invariant

  /** What the thread in the mutex has yet to make up for in the counter of a kind. */
  function Ahead(s: State, k: Kind): int {
    if s.owner.Some? && s.owner.value < |s.animals| && s.animals[s.owner.value].kind == k then
      var pc := s.animals[s.owner.value].pc;
      if pc.Mark? then 1 else if pc.Unmark? then -1 else 0
    else 0
  }

  predicate Midway(s: State) { Ahead(s, Cat) != 0 || Ahead(s, Mouse) != 0 }

  predicate KindOk(s: State, k: Kind) {
    && Marks(s.bowls, MarkOf(k)) == Eaters(s.animals, k)
    && Count(s, k) == Marks(s.bowls, MarkOf(k)) + Ahead(s, k)
  }

  predicate AnimalOk(s: State, i: nat)
    requires i < |s.animals| && TypeOk(s)
  {
    var a := s.animals[i];
    && (InMutex(a.pc) <==> s.owner == Some(i))
    && (Eats(a.pc) ==> s.bowls[a.bowl] == MarkOf(a.kind))
    && (a.pc.TestCount? || Through(a.pc) ==> s.bowls[a.bowl] != MarkOf(a.kind))
    && (Through(a.pc) ==> Count(s, Other(a.kind)) <= 0)
    && (a.pc.Store? || a.pc.StoreDown? ==> a.tmp == Count(s, a.kind))
  }

  /** No two threads eat from one bowl. */
  predicate PairOk(s: State, i: nat, j: nat)
    requires i < |s.animals| && j < |s.animals|
  {
    Eats(s.animals[i].pc) && Eats(s.animals[j].pc) && i != j ==> s.animals[i].bowl != s.animals[j].bowl
  }

  predicate BowlOk(s: State, b: nat)
    requires b < |s.bowls|
  {
    s.bowls[b] == '-' || s.bowls[b] == 'c' || s.bowls[b] == 'm'
  }

  ghost predicate Inv(s: State) {
    && TypeOk(s)
    && (s.owner.Some? ==> s.owner.value < |s.animals|)
    && KindOk(s, Cat) && KindOk(s, Mouse)
    && (Marks(s.bowls, 'c') == 0 || Marks(s.bowls, 'm') == 0)
    && (forall i {:trigger AnimalOk(s, i)} :: 0 <= i < |s.animals| ==> AnimalOk(s, i))
    && (forall i, j {:trigger PairOk(s, i, j)} :: 0 <= i < |s.animals| && 0 <= j < |s.animals| ==> PairOk(s, i, j))
    && (forall b {:trigger BowlOk(s, b)} :: 0 <= b < |s.bowls| ==> BowlOk(s, b))
  }

  /** Past both tests, the bowl is free and the other kind has marked none. */
  lemma ThroughMeans(s: State, i: nat)
    requires Inv(s) && i < |s.animals| && Through(s.animals[i].pc)
    ensures s.bowls[s.animals[i].bowl] == '-' && Marks(s.bowls, MarkOf(Other(s.animals[i].kind))) == 0
    ensures Count(s, Other(s.animals[i].kind)) == 0
  {
    var a := s.animals[i];
    assert AnimalOk(s, i);
    assert KindOk(s, Other(a.kind));
    NoMarks(s.bowls, MarkOf(Other(a.kind)));
    assert BowlOk(s, a.bowl);
  }

  lemma EatsMeans(s: State, i: nat)
    requires Inv(s) && i < |s.animals| && Eats(s.animals[i].pc)
    ensures Marks(s.bowls, MarkOf(s.animals[i].kind)) > 0
  {
    assert AnimalOk(s, i);
    NoMarks(s.bowls, MarkOf(s.animals[i].kind));
  }

  lemma NoAssertFails(s: State, i: nat)
    requires Inv(s) && i < |s.animals|
    ensures AssertHolds(s, i)
  {
    var a := s.animals[i];
    assert AnimalOk(s, i);
    if Through(a.pc) {
      ThroughMeans(s, i);
    } else if Eats(a.pc) {
      EatsMeans(s, i);
      assert KindOk(s, a.kind);
    }
  }

  // ---------------------------------------------------------------- every step

  /** How the place of a thread may change, as far as the invariant can tell. */
  predicate PcMoves(pc: Pc, pc': Pc) {
    && (Eats(pc') <==> pc.Mark? || (Eats(pc) && !pc.Unmark?))
    && (pc'.Mark? <==> pc.Store?) && (pc'.Unmark? <==> pc.StoreDown?)
    && (pc'.TestCount? ==> pc.TestBowl?)
    && (Through(pc') ==> pc.TestCount? || (Through(pc) && !pc.Mark?))
    && (pc'.Store? ==> pc.Load?) && (pc'.StoreDown? ==> pc.LoadDown?)
  }

  /** What a step can change. */
  ghost predicate Moved(s: State, i: nat, s': State)
    requires TypeOk(s) && i < |s.animals|
  {
    && |s'.animals| == |s.animals| && s'.animals == s.animals[i := s'.animals[i]]
    && var a, a' := s.animals[i], s'.animals[i];
       && a'.kind == a.kind && a'.bowl < |s.bowls| && PcMoves(a.pc, a'.pc)
       && (a'.bowl == a.bowl || (a.pc.Choose? && a'.pc.LookBowl?))
       && (a'.pc.TestCount? ==> s.bowls[a.bowl] != MarkOf(a.kind))
       && (a.pc.TestCount? && Through(a'.pc) ==> Count(s, Other(a.kind)) <= 0)
       && (a'.pc.Store? || a'.pc.StoreDown? ==> a'.tmp == Count(s, a.kind))
       && s'.bowls == (if a.pc.Mark? then s.bowls[a.bowl := MarkOf(a.kind)] else if a.pc.Unmark? then s.bowls[a.bowl := '-'] else s.bowls)
       && Count(s', a.kind) == (if a.pc.Store? then a.tmp + 1 else if a.pc.StoreDown? then a.tmp - 1 else Count(s, a.kind))
       && Count(s', Other(a.kind)) == Count(s, Other(a.kind))
       && (s'.owner == Some(i) <==> InMutex(a'.pc))
       && (s'.owner == s.owner || (s.owner.None? && s'.owner == Some(i)) || (s.owner == Some(i) && s'.owner.None?))
  }

  lemma EnterMoves(s: State, i: nat, r: nat)
    requires TypeOk(s) && i < |s.animals| && AnimalOk(s, i)
    requires var pc := s.animals[i].pc; Waits(pc) || pc.Done?
    ensures Moved(s, i, Step(s, i, r))
  {
    assert s.animals[i := s.animals[i]] == s.animals;
  }

  lemma LeaveMoves(s: State, i: nat, r: nat)
    requires TypeOk(s) && i < |s.animals| && AnimalOk(s, i)
    requires var pc := s.animals[i].pc; Leaves(pc)
    ensures Moved(s, i, Step(s, i, r))
  {
    assert s.animals[i := s.animals[i]] == s.animals;
  }

  lemma LookMoves(s: State, i: nat, r: nat)
    requires TypeOk(s) && i < |s.animals| && AnimalOk(s, i)
    requires var pc := s.animals[i].pc; pc.Choose? || pc.LookBowl? || pc.LookCount?
    ensures Moved(s, i, Step(s, i, r))
  {
    assert s.animals[i := s.animals[i]] == s.animals;
  }

  lemma TestMoves(s: State, i: nat, r: nat)
    requires TypeOk(s) && i < |s.animals| && AnimalOk(s, i)
    requires var pc := s.animals[i].pc; pc.TestBowl? || pc.TestCount?
    ensures Moved(s, i, Step(s, i, r))
  {
    assert s.animals[i := s.animals[i]] == s.animals;
  }

  lemma CheckMoves(s: State, i: nat, r: nat)
    requires TypeOk(s) && i < |s.animals| && AnimalOk(s, i)
    requires var pc := s.animals[i].pc; pc.CheckBowl? || pc.CheckCount? || pc.CheckOwn? || pc.CheckMark?
    ensures Moved(s, i, Step(s, i, r))
  {
    assert s.animals[i := s.animals[i]] == s.animals;
  }

  lemma CountMoves(s: State, i: nat, r: nat)
    requires TypeOk(s) && i < |s.animals| && AnimalOk(s, i)
    requires var pc := s.animals[i].pc; pc.Load? || pc.Store? || pc.LoadDown? || pc.StoreDown?
    ensures Moved(s, i, Step(s, i, r))
  {
    assert s.animals[i := s.animals[i]] == s.animals;
  }

  lemma MarkMoves(s: State, i: nat, r: nat)
    requires TypeOk(s) && i < |s.animals| && AnimalOk(s, i)
    requires var pc := s.animals[i].pc; pc.Mark? || pc.Unmark?
    ensures Moved(s, i, Step(s, i, r))
  {
    assert s.animals[i := s.animals[i]] == s.animals;
  }

  lemma StepMoves(s: State, i: nat, r: nat)
    requires Inv(s) && i < |s.animals|
    ensures Moved(s, i, Step(s, i, r))
  {
    assert AnimalOk(s, i);
    var pc := s.animals[i].pc;
    if Waits(pc) || pc.Done? {
      EnterMoves(s, i, r);
    } else if Leaves(pc) {
      LeaveMoves(s, i, r);
    } else if pc.Choose? || pc.LookBowl? || pc.LookCount? {
      LookMoves(s, i, r);
    } else if pc.Load? || pc.Store? || pc.LoadDown? || pc.StoreDown? {
      CountMoves(s, i, r);
    } else if pc.Mark? || pc.Unmark? {
      MarkMoves(s, i, r);
    } else if pc.TestBowl? || pc.TestCount? {
      TestMoves(s, i, r);
    } else {
      CheckMoves(s, i, r);
    }
  }

  lemma MovedSelf(s: State, i: nat, s': State)
    requires Inv(s) && i < |s.animals| && Moved(s, i, s') && TypeOk(s')
    ensures AnimalOk(s', i)
  {
    assert AnimalOk(s, i);
    if Through(s.animals[i].pc) {
      ThroughMeans(s, i);
    }
  }

  lemma MovedType(s: State, i: nat, s': State)
    requires Inv(s) && i < |s.animals| && Moved(s, i, s')
    ensures TypeOk(s')
  {
    forall j | 0 <= j < |s'.animals|
      ensures s'.animals[j].bowl < |s'.bowls|
    {
      assert s.animals[j].bowl < |s.bowls|;
    }
  }

  lemma MovedOther(s: State, i: nat, s': State, j: nat)
    requires Inv(s) && i < |s.animals| && j < |s.animals| && i != j && Moved(s, i, s') && TypeOk(s')
    ensures AnimalOk(s', j)
  {
    assert AnimalOk(s, i) && AnimalOk(s, j) && PairOk(s, i, j);
    assert s'.animals[j] == s.animals[j];
    if Through(s.animals[i].pc) {
      ThroughMeans(s, i);
    }
  }

  lemma MovedPair(s: State, i: nat, s': State, j: nat, k: nat)
    requires Inv(s) && i < |s.animals| && j < |s.animals| && k < |s.animals| && Moved(s, i, s')
    ensures PairOk(s', j, k)
  {
    assert AnimalOk(s, j) && AnimalOk(s, k) && PairOk(s, j, k);
    if Through(s.animals[i].pc) {
      ThroughMeans(s, i);
    }
  }

  /** Marks and eaters change together. */
  lemma MovedMarks(s: State, i: nat, s': State, k: Kind)
    requires Inv(s) && i < |s.animals| && Moved(s, i, s')
    ensures Marks(s'.bowls, MarkOf(k)) == Eaters(s'.animals, k)
    ensures Marks(s'.bowls, MarkOf(k)) == Marks(s.bowls, MarkOf(k))
              + (if s.animals[i].kind != k then 0 else if s.animals[i].pc.Mark? then 1 else if s.animals[i].pc.Unmark? then -1 else 0)
  {
    var a := s.animals[i];
    assert AnimalOk(s, i) && KindOk(s, k);
    EatersSet(s.animals, i, s'.animals[i], k);
    if a.pc.Mark? {
      ThroughMeans(s, i);
      MarksSet(s.bowls, a.bowl, MarkOf(a.kind), MarkOf(k));
    } else if a.pc.Unmark? {
      MarksSet(s.bowls, a.bowl, '-', MarkOf(k));
    }
  }

  lemma MovedKind(s: State, i: nat, s': State, k: Kind)
    requires Inv(s) && i < |s.animals| && Moved(s, i, s')
    ensures KindOk(s', k)
  {
    assert AnimalOk(s, i) && KindOk(s, k);
    MovedMarks(s, i, s', k);
    if s.owner.Some? && s.owner.value != i {
      assert s'.animals[s.owner.value] == s.animals[s.owner.value];
    }
  }

  lemma StepKeepsInv(s: State, i: nat, r: nat)
    requires Inv(s) && i < |s.animals|
    ensures Inv(Step(s, i, r))
  {
    StepMoves(s, i, r);
    MovedKeepsInv(s, i, Step(s, i, r));
  }

  lemma MovedKeepsInv(s: State, i: nat, s': State)
    requires Inv(s) && i < |s.animals| && Moved(s, i, s')
    ensures Inv(s')
  {
    MovedType(s, i, s');
    MovedKind(s, i, s', Cat);
    MovedKind(s, i, s', Mouse);
    MovedMarks(s, i, s', Cat);
    MovedMarks(s, i, s', Mouse);
    if s.animals[i].pc.Mark? {
      ThroughMeans(s, i);
    }
    forall j | 0 <= j < |s'.animals|
      ensures AnimalOk(s', j)
    {
      if j == i { MovedSelf(s, i, s'); } else { MovedOther(s, i, s', j); }
    }
    forall j, k | 0 <= j < |s'.animals| && 0 <= k < |s'.animals|
      ensures PairOk(s', j, k)
    {
      MovedPair(s, i, s', j, k);
    }
    forall b | 0 <= b < |s'.bowls|
      ensures BowlOk(s', b)
    {
      assert BowlOk(s, b);
    }
  }

  // ---------------------------------------------------------------- every run

  /** Any cats and mice before their first step, any number of free bowls. */
  ghost predicate Initial(s: State) {
    && |s.bowls| > 0 && (forall b :: 0 <= b < |s.bowls| ==> s.bowls[b] == '-')
    && s.cats == 0 && s.mice == 0 && s.owner == None
    && forall i :: 0 <= i < |s.animals| ==> s.animals[i].pc == Number && s.animals[i].bowl == 0
  }

  datatype Turn = Turn(who: nat, r: nat)

  ghost function Run(s: State, turns: seq<Turn>): (e: State)
    requires TypeOk(s)
  {
    if turns == [] then s
    else
      var n := |turns| - 1;
      var p := Run(s, turns[..n]);
      if TypeOk(p) && turns[n].who < |p.animals| then Step(p, turns[n].who, turns[n].r) else p
  }

  lemma InitialInv(s: State)
    requires Initial(s)
    ensures Inv(s)
  {
    NoMarks(s.bowls, 'c');
    NoMarks(s.bowls, 'm');
    NoOneEats(s.animals, Cat);
    NoOneEats(s.animals, Mouse);
  }

  lemma {:induction false} RunKeepsInv(s: State, turns: seq<Turn>)
    requires Inv(s)
    ensures Inv(Run(s, turns))
  {
    if turns != [] {
      var n := |turns| - 1;
      RunKeepsInv(s, turns[..n]);
      var p := Run(s, turns[..n]);
      if turns[n].who < |p.animals| {
        StepKeepsInv(p, turns[n].who, turns[n].r);
      }
    }
  }

  /** In every run: no assertion fails, what is eating is of one kind, each at a bowl of its own that
      bears its mark; and but for a thread inside the mutex between changing its counter and changing
      its bowl, both counters are the numbers of marks, which are the numbers eating. */
  lemma EveryRunSafe(s0: State, turns: seq<Turn>, i: nat, j: nat)
    requires Initial(s0)
    ensures var s := Run(s0, turns);
            && TypeOk(s)
            && (i < |s.animals| ==> AssertHolds(s, i))
            && (i < |s.animals| && Eats(s.animals[i].pc) ==> s.bowls[s.animals[i].bowl] == MarkOf(s.animals[i].kind))
            && (i < |s.animals| && j < |s.animals| && i != j && Eats(s.animals[i].pc) && Eats(s.animals[j].pc) ==>
                  s.animals[i].kind == s.animals[j].kind && s.animals[i].bowl != s.animals[j].bowl)
            && (!Midway(s) ==>
                  && s.cats == Marks(s.bowls, 'c') == Eaters(s.animals, Cat)
                  && s.mice == Marks(s.bowls, 'm') == Eaters(s.animals, Mouse))
  {
    InitialInv(s0);
    RunKeepsInv(s0, turns);
    var s := Run(s0, turns);
    if i < |s.animals| {
      assert AnimalOk(s, i);
      NoAssertFails(s, i);
      if j < |s.animals| && i != j && Eats(s.animals[i].pc) && Eats(s.animals[j].pc) {
        assert PairOk(s, i, j);
        EatsMeans(s, i);
        EatsMeans(s, j);
      }
    }
  }

  /** When all are done every bowl is free and both counters are 0. */
  lemma AllDoneClean(s0: State, turns: seq<Turn>)
    requires Initial(s0) && forall i :: 0 <= i < |Run(s0, turns).animals| ==> Run(s0, turns).animals[i].pc.Done?
    ensures var s := Run(s0, turns); s.cats == 0 && s.mice == 0 && forall b :: 0 <= b < |s.bowls| ==> s.bowls[b] == '-'
  {
    InitialInv(s0);
    RunKeepsInv(s0, turns);
    var s := Run(s0, turns);
    NoOneEats(s.animals, Cat);
    NoOneEats(s.animals, Mouse);
    NoMarks(s.bowls, 'c');
    NoMarks(s.bowls, 'm');
    forall b | 0 <= b < |s.bowls|
      ensures s.bowls[b] == '-'
    {
      assert BowlOk(s, b);
    }
    if s.owner.Some? {
      assert AnimalOk(s, s.owner.value);
    }
  }
}
