/** User-level malloc and free: a first-fit heap whose headers live in the
    memory they describe. */
module Malloc {
  import opened HeapLayout

  const WORD32 := 0x1_0000_0000
  const UNITS_MAX := 0x2000_0000 // heap units addressable in 32 bits
  const MMAGIC: Bits2 := 2

  type Bits29 = n: nat | n < 0x2000_0000
  type Bits2 = n: nat | n < 4
  type Bit = n: nat | n < 2

  /** Eight bytes of heap memory seen through struct mheader's bit-fields. The fields
      cover all 64 bits, so user data is a Cell too: any Cell value may be data. */
  datatype Cell = Cell(prevblock: Bits29, pad: Bit, magic1: Bits2, nextblock: Bits29, inuse: Bit, magic2: Bits2) {
    predicate Ok() { magic1 == MMAGIC && magic2 == MMAGIC }
  }

  /** The two words 0xdeadbeef, 0xdeadbeef. */
  const DEADBEEF := Cell(0x1BD5B7DD, 1, 3, 0x1BD5B7DD, 1, 3)

  datatype State = State(blocks: seq<Block>, mem: seq<Cell>)

  /** Block k's header is in place: right magic, right offsets both ways, right mark. */
  ghost predicate HeaderAt(mem: seq<Cell>, bs: seq<Block>, k: int)
    requires 0 <= k < |bs|
  {
    && bs[k].start < |mem|
    && mem[bs[k].start].Ok()
    && mem[bs[k].start].nextblock == bs[k].units
    && mem[bs[k].start].prevblock == (if k == 0 then 0 else bs[k - 1].units)
    && mem[bs[k].start].inuse == (if bs[k].inuse then 1 else 0)
  }

  ghost predicate Headers(mem: seq<Cell>, bs: seq<Block>) {
    forall k {:trigger HeaderAt(mem, bs, k)} :: 0 <= k < |bs| ==> HeaderAt(mem, bs, k)
  }

  ghost function Heads(bs: seq<Block>): set<nat> {
    set k | 0 <= k < |bs| :: bs[k].start
  }

  /** Headers tile the heap and agree with memory; neighbours may both be free (inside free). */
  ghost predicate Wf(s: State) {
    Tiled(s.blocks, |s.mem|) && Headers(s.mem, s.blocks) && |s.mem| < UNITS_MAX
  }

  /** The invariant between calls. */
  ghost predicate Inv(s: State) {
    Wf(s) && Coalesced(s.blocks)
  }

  // ---------------------------------------------------------------- what each call may do

  /** Malloc asks for n units and gets the block headed at unit got (or fails). Free names the
      header of a live block. Store is the program writing one unit of a live block's data. */
  datatype Op =
    | Malloc(n: nat, got: Option)
    | Free(head: nat)
    | Store(head: nat, unit: nat, value: Cell)

  datatype Option = None | Some(value: nat)

  ghost predicate Step(s: State, op: Op, s': State) {
    match op
    case Malloc(n, got) => exists i: nat :: FirstFit(s.blocks, n, i) && MallocAt(s, n, i, got, s')
    case Free(head) => exists k: nat :: k < |s.blocks| && s.blocks[k].start == head && FreeAt(s, k, s')
    case Store(head, unit, value) =>
      exists b :: b in s.blocks && b.inuse && b.start == head && StoreIn(s, b, unit, value, s')
  }

  /** First fit at i, or growth at the top, or failure with nothing changed; other data untouched. */
  ghost predicate MallocAt(s: State, n: nat, i: nat, got: Option, s': State)
    requires FirstFit(s.blocks, n, i)
  {
    && (if i < |s.blocks| then
          && got == Some(s.blocks[i].start)
          && s'.blocks == Carve(s.blocks, i, n) && |s'.mem| == |s.mem|
        else if got == None then
          s' == s
        else
          && got == Some(|s.mem|)
          && s'.blocks == s.blocks + [Block(|s.mem|, n + 1, true)] && |s'.mem| == |s.mem| + n + 1)
    && Headers(s'.mem, s'.blocks) && |s'.mem| < UNITS_MAX
    && (forall u :: 0 <= u < |s.mem| && u !in Heads(s'.blocks) ==> s'.mem[u] == s.mem[u])
  }

  /** Block k is released and wiped, headers that vanish are wiped, other data is untouched. */
  ghost predicate FreeAt(s: State, k: nat, s': State)
    requires k < |s.blocks|
  {
    var b := s.blocks[k];
    && b.inuse
    && s'.blocks == Release(s.blocks, k) && |s'.mem| == |s.mem|
    && Headers(s'.mem, s'.blocks)
    && (forall u :: 0 <= u < |s.mem| && u !in Heads(s.blocks) && !(b.start < u < b.End()) ==> s'.mem[u] == s.mem[u])
    && (forall u :: 0 <= u < |s.mem| && u !in Heads(s'.blocks) && (u in Heads(s.blocks) || b.start < u < b.End()) ==> s'.mem[u] == DEADBEEF)
  }

  ghost predicate StoreIn(s: State, b: Block, unit: nat, value: Cell, s': State) {
    && b.start < unit < b.End() && unit < |s.mem|
    && s' == State(s.blocks, s.mem[unit := value])
  }

  ghost predicate Run(states: seq<State>, ops: seq<Op>) {
    && |states| == |ops| + 1
    && (forall i, j :: 0 <= i < |ops| && j == i + 1 ==> Step(states[i], ops[i], states[j]))
  }

  // ---------------------------------------------------------------- properties of every run

  /** No header lies strictly inside a block. */
  lemma NoHeadInside(bs: seq<Block>, top: nat, b: Block, u: nat)
    requires Tiled(bs, top) && b in bs && b.start < u < b.End()
    ensures u !in Heads(bs) && u < top
  {
    var k :| 0 <= k < |bs| && bs[k] == b;
    Bounded(bs, top, k);
    if u in Heads(bs) {
      var j :| 0 <= j < |bs| && bs[j].start == u;
      if j != k { Apart(bs, top, j, k); }
      assert false;
    }
  }

  lemma StoreKeepsInv(s: State, b: Block, unit: nat, value: Cell, s': State)
    requires Inv(s) && b in s.blocks && StoreIn(s, b, unit, value, s')
    ensures Inv(s')
  {
    NoHeadInside(s.blocks, |s.mem|, b, unit);
    forall k | 0 <= k < |s.blocks|
      ensures HeaderAt(s'.mem, s.blocks, k)
    {
      assert HeaderAt(s.mem, s.blocks, k);
      assert s.blocks[k].start in Heads(s.blocks);
    }
  }

  lemma ExtendTiles(bs: seq<Block>, top: nat, n: nat)
    requires Tiled(bs, top) && Coalesced(bs)
    ensures Tiled(bs + [Block(top, n + 1, true)], top + n + 1) && Coalesced(bs + [Block(top, n + 1, true)])
  {
    var cs := bs + [Block(top, n + 1, true)];
    forall k | 0 <= k < |cs|
      ensures Link(cs, k) && Guarded(cs, k)
    {
      if k < |bs| {
        assert Link(bs, k) && Guarded(bs, k) && cs[k] == bs[k];
      }
    }
  }

  /** Every step keeps the headers tiling the heap, consistent both ways and coalesced. */
  lemma StepKeepsInv(s: State, op: Op, s': State)
    requires Inv(s) && Step(s, op, s')
    ensures Inv(s')
  {
    match op
    case Malloc(n, got) =>
      var i: nat :| FirstFit(s.blocks, n, i) && MallocAt(s, n, i, got, s');
      if i < |s.blocks| {
        CarveTiles(s.blocks, |s.mem|, i, n);
      } else if got != None {
        ExtendTiles(s.blocks, |s.mem|, n);
      }
    case Free(head) =>
      var k: nat :| k < |s.blocks| && s.blocks[k].start == head && FreeAt(s, k, s');
      ReleaseTiles(s.blocks, |s.mem|, k);
    case Store(head, unit, value) =>
      var b :| b in s.blocks && b.inuse && b.start == head && StoreIn(s, b, unit, value, s');
      StoreKeepsInv(s, b, unit, value, s');
  }

  lemma {:induction false} RunKeepsInv(states: seq<State>, ops: seq<Op>)
    requires Run(states, ops) && Inv(states[0])
    ensures forall i :: 0 <= i < |states| ==> Inv(states[i])
  {
    if |ops| > 0 {
      var n := |ops| - 1;
      assert Run(states[..n + 1], ops[..n]);
      RunKeepsInv(states[..n + 1], ops[..n]);
      assert states[..n + 1][n] == states[n];
      StepKeepsInv(states[n], ops[n], states[n + 1]);
    }
  }

  /** The operation neither frees nor writes the block headed at unit head. */
  predicate Spares(op: Op, head: nat) {
    op.Malloc? || op.head != head
  }

  /** Block b is live and its data is exactly data. */
  ghost predicate Holds(s: State, b: Block, data: seq<Cell>) {
    && b in s.blocks && b.inuse
    && b.start < b.End() <= |s.mem| && s.mem[b.start + 1..b.End()] == data
  }

  lemma MallocKeepsBlock(s: State, n: nat, i: nat, got: Option, s': State, b: Block, data: seq<Cell>)
    requires Inv(s) && Inv(s') && FirstFit(s.blocks, n, i) && MallocAt(s, n, i, got, s') && Holds(s, b, data)
    ensures Holds(s', b, data)
  {
    if i < |s.blocks| {
      CarveKeeps(s.blocks, i, n, b);
    } else if got != None {
      var k :| 0 <= k < |s.blocks| && s.blocks[k] == b;
      assert s'.blocks[k] == b;
    }
    forall u | b.start < u < b.End()
      ensures s'.mem[u] == s.mem[u]
    {
      NoHeadInside(s'.blocks, |s'.mem|, b, u);
    }
  }

  /** Memory that changes only at headers and inside block c keeps the data of every other block. */
  lemma OutsideKept(s: State, c: Block, mem': seq<Cell>, b: Block, data: seq<Cell>)
    requires Inv(s) && c in s.blocks && Holds(s, b, data) && b.start != c.start && |mem'| == |s.mem|
    requires forall u :: 0 <= u < |s.mem| && u !in Heads(s.blocks) && !(c.start < u < c.End()) ==> mem'[u] == s.mem[u]
    ensures mem'[b.start + 1..b.End()] == data
  {
    var k :| 0 <= k < |s.blocks| && s.blocks[k] == b;
    var j :| 0 <= j < |s.blocks| && s.blocks[j] == c;
    Apart(s.blocks, |s.mem|, k, j);
    forall u | b.start < u < b.End()
      ensures mem'[u] == s.mem[u]
    {
      NoHeadInside(s.blocks, |s.mem|, b, u);
    }
  }

  lemma FreeKeepsBlock(s: State, j: nat, s': State, b: Block, data: seq<Cell>)
    requires Inv(s) && j < |s.blocks| && FreeAt(s, j, s') && Holds(s, b, data) && b.start != s.blocks[j].start
    ensures Holds(s', b, data)
  {
    ReleaseKeeps(s.blocks, j, b);
    OutsideKept(s, s.blocks[j], s'.mem, b, data);
  }

  lemma StoreKeepsBlock(s: State, c: Block, unit: nat, value: Cell, s': State, b: Block, data: seq<Cell>)
    requires Inv(s) && c in s.blocks && StoreIn(s, c, unit, value, s') && Holds(s, b, data) && b.start != c.start
    ensures Holds(s', b, data)
  {
    OutsideKept(s, c, s'.mem, b, data);
  }

  /** A live block the operation spares keeps its place, its length and every unit of its data. */
  lemma StepKeepsBlock(s: State, op: Op, s': State, b: Block, data: seq<Cell>)
    requires Inv(s) && Step(s, op, s') && Holds(s, b, data) && Spares(op, b.start)
    ensures Holds(s', b, data)
  {
    match op
    case Malloc(n, got) =>
      StepKeepsInv(s, op, s');
      var i: nat :| FirstFit(s.blocks, n, i) && MallocAt(s, n, i, got, s');
      MallocKeepsBlock(s, n, i, got, s', b, data);
    case Free(head) =>
      var j: nat :| j < |s.blocks| && s.blocks[j].start == head && FreeAt(s, j, s');
      FreeKeepsBlock(s, j, s', b, data);
    case Store(head, unit, value) =>
      var c :| c in s.blocks && c.inuse && c.start == head && StoreIn(s, c, unit, value, s');
      StoreKeepsBlock(s, c, unit, value, s', b, data);
  }

  /** Over any run in which nobody frees or writes a live block, its data never changes. */
  lemma {:induction false} RunKeepsBlock(states: seq<State>, ops: seq<Op>, b: Block, data: seq<Cell>)
    requires Run(states, ops) && Inv(states[0]) && Holds(states[0], b, data)
    requires forall i :: 0 <= i < |ops| ==> Spares(ops[i], b.start)
    ensures Holds(states[|ops|], b, data)
  {
    if |ops| > 0 {
      var n := |ops| - 1;
      assert Run(states[..n + 1], ops[..n]);
      RunKeepsBlock(states[..n + 1], ops[..n], b, data);
      RunKeepsInv(states, ops);
      StepKeepsBlock(states[n], ops[n], states[n + 1], b, data);
    }
  }

  /** What malloc hands out: a live block of at least the units asked for, at the lowest address
      where a free block fits, and beyond the old top only if no free block fits. */
  lemma MallocGives(s: State, n: nat, got: Option, s': State)
    requires Inv(s) && Step(s, Malloc(n, got), s')
    ensures got.Some? ==> exists b :: b in s'.blocks && b.inuse && b.start == got.value && b.Room() >= n
    ensures got.Some? && got.value < |s.mem| ==>
              forall b :: b in s.blocks && b.Fits(n) ==> got.value <= b.start
    ensures got.None? || got.value >= |s.mem| ==> forall b :: b in s.blocks ==> !b.Fits(n)
    ensures forall b :: b in s.blocks && b.inuse ==> Some(b.start) != got
  {
    var i: nat :| FirstFit(s.blocks, n, i) && MallocAt(s, n, i, got, s');
    var bs := s.blocks;
    forall k | 0 <= k < |bs|
      ensures bs[k].Fits(n) ==> k >= i
      ensures i < |bs| && k > i ==> bs[i].start <= bs[k].start
      ensures k != i ==> Some(bs[k].start) != got
    {
      Bounded(bs, |s.mem|, k);
      if i < |bs| && k > i { Ordered(bs, |s.mem|, i, k); }
      if i < |bs| && k < i { Ordered(bs, |s.mem|, k, i); }
    }
    if i < |bs| {
      Bounded(bs, |s.mem|, i);
      assert s'.blocks[i].Room() >= n;
    } else if got.Some? {
      assert s'.blocks[|bs|].Room() == n;
    }
  }

  /** What malloc makes of a heap with a block that fits. That block is cut down to the units asked for
      when at least two are over, and the rest is a free block behind it; otherwise it is handed out
      whole. No other block changes. */
  lemma MallocCarves(s: State, n: nat, head: nat, s': State) returns (b: Block)
    requires Inv(s) && Step(s, Malloc(n, Some(head)), s') && head < |s.mem|
    ensures b.start == head && Carved(s.blocks, s'.blocks, b, n)
  {
    var i := CarvedAt(s, n, head, s');
    b := s.blocks[i];
    CarveMeans(s.blocks, |s.mem|, i, n);
  }

  /** Otherwise the heap grows by exactly the units asked for and a header. */
  lemma MallocGrows(s: State, n: nat, head: nat, s': State)
    requires Inv(s) && Step(s, Malloc(n, Some(head)), s') && head >= |s.mem|
    ensures head == |s.mem| && |s'.mem| == |s.mem| + n + 1 && s'.blocks == s.blocks + [Block(head, n + 1, true)]
  {
    var i: nat :| FirstFit(s.blocks, n, i) && MallocAt(s, n, i, Some(head), s');
    if i < |s.blocks| {
      Bounded(s.blocks, |s.mem|, i);
    }
  }

  /** What free makes of it: that block is no longer in use, all others in use stay, and there is only
      one layout with these and no free neighbours. */
  lemma FreeEnds(s: State, head: nat, s': State, b: Block)
    requires Inv(s) && Step(s, Free(head), s') && b.inuse
    ensures |s'.mem| == |s.mem| && (b in s'.blocks <==> b in s.blocks && b.start != head)
    ensures forall bs: seq<Block> {:trigger Tiled(bs, |s.mem|)} :: Tiled(bs, |s.mem|) && Coalesced(bs) && SameLive(bs, s'.blocks) ==> bs == s'.blocks
  {
    StepKeepsInv(s, Free(head), s');
    var k: nat :| k < |s.blocks| && s.blocks[k].start == head && FreeAt(s, k, s');
    ReleaseMeans(s.blocks, |s.mem|, k, b);
    forall bs: seq<Block> {:trigger Tiled(bs, |s.mem|)} | Tiled(bs, |s.mem|) && Coalesced(bs) && SameLive(bs, s'.blocks)
      ensures bs == s'.blocks
    {
      LayoutUnique(bs, s'.blocks, |s.mem|);
    }
  }

  lemma FreeAtWipes(s: State, k: nat, s': State, u: nat)
    requires k < |s.blocks| && FreeAt(s, k, s') && u < |s.mem|
    ensures var b := s.blocks[k];
            && (b.start <= u < b.End() || u in Heads(s.blocks) ==> u in Heads(s'.blocks) || s'.mem[u] == DEADBEEF)
            && (u !in Heads(s.blocks) && !(b.start <= u < b.End()) ==> s'.mem[u] == s.mem[u])
  {
    assert s.blocks[k].start in Heads(s.blocks);
  }

  /** Every unit of the freed block, and every header that is gone, holds 0xdeadbeef afterwards, unless
      it is the header of the free block made of it. Other data is as it was. */
  lemma FreeWipes(s: State, b: Block, s': State, u: nat)
    requires Inv(s) && b in s.blocks && Step(s, Free(b.start), s') && u < |s.mem| == |s'.mem|
    ensures b.start <= u < b.End() || u in Heads(s.blocks) ==> u in Heads(s'.blocks) || s'.mem[u] == DEADBEEF
    ensures u !in Heads(s.blocks) && !(b.start <= u < b.End()) ==> s'.mem[u] == s.mem[u]
  {
    var k: nat :| k < |s.blocks| && s.blocks[k].start == b.start && FreeAt(s, k, s');
    FreeAtWipes(s, k, s', u);
    var j :| 0 <= j < |s.blocks| && s.blocks[j] == b;
    if j != k { Apart(s.blocks, |s.mem|, j, k); }
  }

  /** A store writes that unit and no other, and changes no block. */
  lemma StoreWrites(s: State, head: nat, unit: nat, value: Cell, s': State, u: nat)
    requires Step(s, Store(head, unit, value), s') && u < |s.mem|
    ensures s'.blocks == s.blocks && |s'.mem| == |s.mem| && s'.mem[u] == if u == unit then value else s.mem[u]
  {
  }

  /** Freeing at once what malloc carved out of a free block restores sizes and marks exactly. */
  lemma FreeUndoesMalloc(s: State, n: nat, head: nat, s1: State, s2: State)
    requires Inv(s) && Step(s, Malloc(n, Some(head)), s1) && Step(s1, Free(head), s2)
    requires head < |s.mem|
    ensures s2.blocks == s.blocks
  {
    StepKeepsInv(s, Malloc(n, Some(head)), s1);
    var i := CarvedAt(s, n, head, s1);
    var k := ReleasedAt(s1, head, s2);
    ReleaseUndoesCarve(s.blocks, i, n);
    CarveStarts(s.blocks, i, n);
    if k != i { Apart(s1.blocks, |s1.mem|, k, i); }
  }

  lemma CarvedAt(s: State, n: nat, head: nat, s': State) returns (i: nat)
    requires Inv(s) && Step(s, Malloc(n, Some(head)), s') && head < |s.mem|
    ensures i < |s.blocks| && s.blocks[i].Fits(n) && s.blocks[i].start == head && s'.blocks == Carve(s.blocks, i, n)
  {
    i :| FirstFit(s.blocks, n, i) && MallocAt(s, n, i, Some(head), s');
  }

  lemma ReleasedAt(s: State, head: nat, s': State) returns (k: nat)
    requires Step(s, Free(head), s')
    ensures k < |s.blocks| && s.blocks[k].start == head && s'.blocks == Release(s.blocks, k)
  {
    k :| k < |s.blocks| && s.blocks[k].start == head && FreeAt(s, k, s');
  }

  lemma CarveStarts(bs: seq<Block>, i: nat, n: nat)
    requires i < |bs| && bs[i].Fits(n)
    ensures i < |Carve(bs, i, n)| && Carve(bs, i, n)[i].start == bs[i].start
  {
  }

  // ---------------------------------------------------------------- bytes

  /** Line 330: round a byte count up to whole units, in 32-bit arithmetic. */
  function RoundUp(size: nat): nat {
    (size + 7) % WORD32 / 8 * 8
  }

  /** The rounded size covers the request, and adding a header to it does not wrap, exactly
      when size + 15 fits in 32 bits. */
  lemma RoundUpIff(size: nat)
    requires size < WORD32
    ensures size <= RoundUp(size) && RoundUp(size) + 8 < WORD32 <==> size + 15 < WORD32
    ensures size + 15 < WORD32 ==> RoundUp(size) < size + 8
    ensures RoundUp(size) % 8 == 0 && RoundUp(size) < WORD32
  {
  }

  /** The seven largest requests are rounded to 0, and the header does not fit on top of the eight below
      them. */
  lemma RoundUpWraps(size: nat)
    requires size < WORD32
    ensures RoundUp(size) == 0 <==> size == 0 || size >= 0xFFFF_FFF9
    ensures RoundUp(size) + 8 == WORD32 <==> 0xFFFF_FFF1 <= size < 0xFFFF_FFF9
  {
  }

  function DataAddr(base: nat, b: Block): nat { base + 8 * (b.start + 1) }

  function DataBytes(b: Block): int { 8 * b.Room() }

  /** Two live blocks occupy disjoint, 8-aligned byte ranges inside the heap. */
  lemma LiveDisjoint(s: State, base: nat, b: Block, c: Block)
    requires Inv(s) && base % 8 == 0 && b in s.blocks && c in s.blocks && b != c
    ensures DataAddr(base, b) % 8 == 0 && DataAddr(base, b) + DataBytes(b) <= base + 8 * |s.mem|
    ensures DataAddr(base, b) + DataBytes(b) < DataAddr(base, c) || DataAddr(base, c) + DataBytes(c) < DataAddr(base, b)
  {
    var i :| 0 <= i < |s.blocks| && s.blocks[i] == b;
    var j :| 0 <= j < |s.blocks| && s.blocks[j] == c;
    Bounded(s.blocks, |s.mem|, i);
    Apart(s.blocks, |s.mem|, i, j);
  }

  /** A block's data pointer is the heap top, where free() refuses it, exactly for an empty block
      (a request for 0 bytes) that is the last one. */
  lemma AtTopIff(s: State, base: nat, k: nat)
    requires Inv(s) && k < |s.blocks|
    ensures DataAddr(base, s.blocks[k]) >= base + 8 * |s.mem| <==> s.blocks[k].Room() == 0 && k == |s.blocks| - 1
  {
    Bounded(s.blocks, |s.mem|, k);
    if k < |s.blocks| - 1 {
      Ordered(s.blocks, |s.mem|, k, k + 1);
      Bounded(s.blocks, |s.mem|, k + 1);
    }
  }

  /** malloc(0) on the empty heap: a step, and the pointer is one free() refuses. */
  lemma EmptyAtTop(base: nat) returns (s: State)
    ensures Inv(State([], [])) && Step(State([], []), Malloc(0, Some(0)), s) && |s.blocks| == 1 && s.blocks[0].inuse
    ensures DataAddr(base, s.blocks[0]) >= base + 8 * |s.mem|
  {
    var s0 := State([], []);
    s := State([Block(0, 1, true)], [Cell(0, 0, MMAGIC, 1, 1, MMAGIC)]);
    assert Inv(s0);
    assert HeaderAt(s.mem, s.blocks, 0);
    assert FirstFit(s0.blocks, 0, 0) && MallocAt(s0, 0, 0, Some(0), s);
  }
}
