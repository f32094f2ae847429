/** The allocator itself: header fields read and rewritten in memory. A header pointer is the
    index of its unit; unit 0 is __heapbase and unit |mem| is __heaptop. */
module MallocHeap {
  import opened HeapLayout
  import opened Malloc

  /** How a call ends. Exit is one of the errx() calls for a corrupt heap or an internal error. */
  datatype Outcome = Ptr(addr: nat) | Null | PastTop(addr: nat) | Done | BadPointer | Exit

  /** Block k cut in two, the lower part with n units of data, both free. */
  ghost function Divide(bs: seq<Block>, k: nat, n: nat): seq<Block>
    requires k < |bs| && bs[k].units >= n + 3
  {
    var b := bs[k];
    bs[..k] + [Block(b.start, n + 1, false), Block(b.start + n + 1, b.units - n - 1, false)] + bs[k + 1..]
  }

  /** The header of block j reads the same in both memories. */
  ghost predicate SameHeader(mem: seq<Cell>, mem': seq<Cell>, bs: seq<Block>, j: int)
    requires 0 <= j < |bs|
  {
    bs[j].start < |mem| && bs[j].start < |mem'| && mem'[bs[j].start] == mem[bs[j].start]
  }

  /** If the headers of the replaced blocks and of the one above them are right and no other header
      was touched, all headers are right. */
  lemma SpliceHeaders(mem: seq<Cell>, bs: seq<Block>, mem': seq<Cell>, cs: seq<Block>, i: nat, j: nat, d: nat)
    requires Headers(mem, bs) && Spliced(bs, cs, i, j, d)
    requires forall k {:trigger SameHeader(mem, mem', bs, k)} :: 0 <= k < i || j < k < |bs| ==> SameHeader(mem, mem', bs, k)
    requires forall k {:trigger HeaderAt(mem', cs, k)} :: i <= k <= d && k < |cs| ==> HeaderAt(mem', cs, k)
    ensures Headers(mem', cs)
  {
    forall k | 0 <= k < |cs|
      ensures HeaderAt(mem', cs, k)
    {
      if k < i {
        assert HeaderAt(mem, bs, k) && SameHeader(mem, mem', bs, k) && (k > 0 ==> cs[k - 1] == bs[k - 1]);
      } else if k > d {
        var m := k - d + j;
        assert HeaderAt(mem, bs, m) && SameHeader(mem, mem', bs, m) && cs[k] == bs[m] && cs[k - 1] == bs[m - 1];
      }
    }
  }

  /** mem' is mem with only the units at changes rewritten. */
  ghost predicate SameBut(mem: seq<Cell>, mem': seq<Cell>, changes: set<nat>) {
    |mem'| == |mem| && forall u {:trigger mem'[u]} :: 0 <= u < |mem| && u !in changes ==> mem'[u] == mem[u]
  }

  /** The effect of __malloc_split on memory: the block headed at mh is cut after n units of data. */
  ghost predicate SplitAt(mem: seq<Cell>, mem': seq<Cell>, mh: nat, n: nat) {
    && mh < |mem| && mem[mh].nextblock >= n + 3 && mh + mem[mh].nextblock <= |mem|
    && var rest := mem[mh].nextblock - 1 - n;
       var next := mh + mem[mh].nextblock;
       && SameBut(mem, mem', {mh, mh + n + 1, next})
       && mem'[mh] == mem[mh].(nextblock := n + 1)
       && mem'[mh + n + 1] == Cell(n + 1, 0, MMAGIC, rest, 0, MMAGIC)
       && (next < |mem| ==> mem'[next] == mem[next].(prevblock := rest))
  }

  /** After a split the headers describe the divided layout. */
  lemma SplitDescribes(mem: seq<Cell>, bs: seq<Block>, k: nat, n: nat, mem': seq<Cell>)
    requires Wf(State(bs, mem)) && k < |bs| && bs[k].units >= n + 3 && !bs[k].inuse
    requires HeaderAt(mem, bs, k) && SplitAt(mem, mem', bs[k].start, n)
    ensures Wf(State(Divide(bs, k, n), mem'))
  {
    var cs := Divide(bs, k, n);
    assert Spliced(bs, cs, k, k + 1, k + 2);
    assert Link(bs, k) && Link(cs, k + 1);
    SpliceTiles(bs, |mem|, cs, k, k + 1, k + 2);
    assert HeaderAt(mem', cs, k) && HeaderAt(mem', cs, k + 1);
    if k + 1 < |bs| {
      assert HeaderAt(mem, bs, k + 1) && Link(bs, k + 1) && cs[k + 2] == bs[k + 1];
      assert HeaderAt(mem', cs, k + 2);
    }
    forall j | 0 <= j < k || k + 1 < j < |bs|
      ensures SameHeader(mem, mem', bs, j)
    {
      Bounded(bs, |mem|, j);
      if j < k { Ordered(bs, |mem|, j, k); } else { Ordered(bs, |mem|, k + 1, j); Ordered(bs, |mem|, k, k + 1); }
    }
    SpliceHeaders(mem, bs, mem', cs, k, k + 1, k + 2);
  }

  /** A split changes only headers of the divided layout. */
  lemma SplitTouches(mem: seq<Cell>, bs: seq<Block>, k: nat, n: nat, mem': seq<Cell>, u: nat)
    requires Tiled(bs, |mem|) && k < |bs| && bs[k].units >= n + 3
    requires HeaderAt(mem, bs, k) && SplitAt(mem, mem', bs[k].start, n)
    requires u < |mem| && u !in Heads(Divide(bs, k, n))
    ensures mem'[u] == mem[u]
  {
    var cs := Divide(bs, k, n);
    assert cs[k].start in Heads(cs) && cs[k + 1].start in Heads(cs);
    if k + 1 < |bs| {
      assert Link(bs, k + 1) && cs[k + 2] == bs[k + 1] && cs[k + 2].start in Heads(cs);
    }
  }

  /** The effect of __malloc_trymerge on memory when both blocks are free. */
  ghost predicate JoinedAt(mem: seq<Cell>, mem': seq<Cell>, mh: nat, mhnext: nat) {
    && mh < mhnext < |mem| && mem[mh].nextblock + mem[mhnext].nextblock < UNITS_MAX
    && var total := mem[mh].nextblock + mem[mhnext].nextblock;
       var nextnext := mhnext + mem[mhnext].nextblock;
       && mhnext < nextnext <= |mem|
       && SameBut(mem, mem', {mh, mhnext, nextnext})
       && mem'[mh] == mem[mh].(nextblock := total)
       && mem'[mhnext] == DEADBEEF
       && (nextnext < |mem| ==> mem'[nextnext] == mem[nextnext].(prevblock := total))
  }

  /** cs is bs with the free blocks k and k + 1 made one. */
  ghost predicate Joined(bs: seq<Block>, cs: seq<Block>, k: nat) {
    && Spliced(bs, cs, k, k + 2, k + 1)
    && cs[k] == Block(bs[k].start, bs[k].units + bs[k + 1].units, false)
  }

  lemma MergeJoins(bs: seq<Block>, k: nat)
    requires k + 1 < |bs| && !bs[k].inuse && !bs[k + 1].inuse
    ensures Joined(bs, MergeAt(bs, k), k)
  {
    var cs := MergeAt(bs, k);
    forall i | k + 1 <= i < |cs|
      ensures cs[i] == bs[i + 1]
    {
    }
  }

  /** The headers that a merge writes. */
  lemma MergedHeaders(mem: seq<Cell>, bs: seq<Block>, cs: seq<Block>, k: nat, mem': seq<Cell>)
    requires Wf(State(bs, mem)) && k + 1 < |bs| && !bs[k].inuse && !bs[k + 1].inuse && Joined(bs, cs, k)
    requires HeaderAt(mem, bs, k) && HeaderAt(mem, bs, k + 1) && JoinedAt(mem, mem', bs[k].start, bs[k + 1].start)
    ensures HeaderAt(mem', cs, k) && (k + 2 < |bs| ==> HeaderAt(mem', cs, k + 1))
  {
    if k > 0 {
      assert cs[k - 1] == bs[k - 1];
    }
    if k + 2 < |bs| {
      assert HeaderAt(mem, bs, k + 2) && Link(bs, k + 2) && cs[k + 1] == bs[k + 2];
    }
  }

  /** The headers that a merge leaves alone. */
  lemma MergeSpares(mem: seq<Cell>, bs: seq<Block>, k: nat, mem': seq<Cell>, j: nat)
    requires Tiled(bs, |mem|) && k + 1 < |bs| && j < |bs| && (j < k || k + 2 < j)
    requires HeaderAt(mem, bs, k + 1) && JoinedAt(mem, mem', bs[k].start, bs[k + 1].start)
    ensures SameHeader(mem, mem', bs, j)
  {
    Bounded(bs, |mem|, j);
    Ordered(bs, |mem|, k, k + 1);
    if j < k {
      Ordered(bs, |mem|, j, k);
    } else {
      assert Link(bs, k + 2);
      Ordered(bs, |mem|, k + 1, k + 2);
      Ordered(bs, |mem|, k + 2, j);
    }
  }

  lemma MergeHeaders(mem: seq<Cell>, bs: seq<Block>, cs: seq<Block>, k: nat, mem': seq<Cell>)
    requires Wf(State(bs, mem)) && k + 1 < |bs| && !bs[k].inuse && !bs[k + 1].inuse && Joined(bs, cs, k)
    requires HeaderAt(mem, bs, k) && HeaderAt(mem, bs, k + 1) && JoinedAt(mem, mem', bs[k].start, bs[k + 1].start)
    ensures Headers(mem', cs)
  {
    MergedHeaders(mem, bs, cs, k, mem');
    forall j | 0 <= j < k || k + 2 < j < |bs|
      ensures SameHeader(mem, mem', bs, j)
    {
      MergeSpares(mem, bs, k, mem', j);
    }
    SpliceHeaders(mem, bs, mem', cs, k, k + 2, k + 1);
  }

  /** After a merge the headers describe the merged layout. */
  lemma MergeDescribes(mem: seq<Cell>, bs: seq<Block>, k: nat, mem': seq<Cell>)
    requires Wf(State(bs, mem)) && k + 1 < |bs| && !bs[k].inuse && !bs[k + 1].inuse
    requires HeaderAt(mem, bs, k) && HeaderAt(mem, bs, k + 1) && JoinedAt(mem, mem', bs[k].start, bs[k + 1].start)
    ensures Wf(State(MergeAt(bs, k), mem'))
  {
    MergeTiles(bs, |mem|, k);
    MergeJoins(bs, k);
    MergeHeaders(mem, bs, MergeAt(bs, k), k, mem');
  }

  /** A merge removes the upper block's header and adds none. */
  lemma MergeHeads(bs: seq<Block>, k: nat, u: nat)
    requires k + 1 < |bs| && !bs[k].inuse && !bs[k + 1].inuse
    ensures u in Heads(MergeAt(bs, k)) ==> u in Heads(bs)
    ensures u in Heads(bs) && u != bs[k + 1].start ==> u in Heads(MergeAt(bs, k))
  {
    var cs := MergeAt(bs, k);
    MergeJoins(bs, k);
    if u in Heads(cs) {
      var j :| 0 <= j < |cs| && cs[j].start == u;
      assert bs[if j <= k then j else j + 1].start == u;
    }
    if u in Heads(bs) && u != bs[k + 1].start {
      var j :| 0 <= j < |bs| && bs[j].start == u;
      assert cs[if j <= k then j else j - 1].start == u;
    }
  }

  /** A merge changes only old headers and wipes the one that vanishes. */
  lemma MergeTouches(mem: seq<Cell>, bs: seq<Block>, k: nat, mem': seq<Cell>, u: nat)
    requires Tiled(bs, |mem|) && k + 1 < |bs| && u < |mem|
    requires HeaderAt(mem, bs, k) && HeaderAt(mem, bs, k + 1) && JoinedAt(mem, mem', bs[k].start, bs[k + 1].start)
    ensures u !in Heads(bs) ==> mem'[u] == mem[u]
    ensures u == bs[k + 1].start ==> mem'[u] == DEADBEEF
  {
    assert bs[k].start in Heads(bs) && bs[k + 1].start in Heads(bs);
    if k + 2 < |bs| {
      assert Link(bs, k + 2) && bs[k + 2].start in Heads(bs);
    }
  }

  lemma MarkHeaders(mem: seq<Cell>, bs: seq<Block>, k: nat, inuse: bool)
    requires Wf(State(bs, mem)) && k < |bs| && HeaderAt(mem, bs, k)
    ensures Headers(mem[bs[k].start := mem[bs[k].start].(inuse := if inuse then 1 else 0)], bs[k := bs[k].(inuse := inuse)])
  {
    var cs := bs[k := bs[k].(inuse := inuse)];
    var mem' := mem[bs[k].start := mem[bs[k].start].(inuse := if inuse then 1 else 0)];
    if k + 1 < |bs| {
      assert HeaderAt(mem, bs, k + 1) && cs[k + 1] == bs[k + 1];
      Apart(bs, |mem|, k, k + 1);
    }
    forall j | 0 <= j < k || k + 1 < j < |bs|
      ensures SameHeader(mem, mem', bs, j)
    {
      Bounded(bs, |mem|, j);
      Apart(bs, |mem|, j, k);
    }
    SpliceHeaders(mem, bs, mem', cs, k, k + 1, k + 1);
  }

  /** Changing one block's in-use bit in its header describes the re-marked layout. */
  lemma MarkDescribes(mem: seq<Cell>, bs: seq<Block>, k: nat, inuse: bool)
    requires Wf(State(bs, mem)) && k < |bs| && HeaderAt(mem, bs, k)
    ensures Wf(State(bs[k := bs[k].(inuse := inuse)], mem[bs[k].start := mem[bs[k].start].(inuse := if inuse then 1 else 0)]))
    ensures Heads(bs[k := bs[k].(inuse := inuse)]) == Heads(bs)
  {
    var cs := bs[k := bs[k].(inuse := inuse)];
    var mem' := mem[bs[k].start := mem[bs[k].start].(inuse := if inuse then 1 else 0)];
    MarkTiles(bs, |mem|, k, inuse);
    MarkHeaders(mem, bs, k, inuse);
    assert forall j :: 0 <= j < |bs| ==> cs[j].start == bs[j].start;
  }

  /** Memory mem' under layout cs agrees with freeing block b of state s: units that are neither old
      headers nor b's data are unchanged, and those that are, and are no longer headers, are wiped. */
  ghost predicate FreedUnit(s: State, b: Block, cs: seq<Block>, mem': seq<Cell>, u: int)
    requires 0 <= u < |s.mem| == |mem'|
  {
    var touched := u in Heads(s.blocks) || b.start < u < b.End();
    && (!touched ==> mem'[u] == s.mem[u] && u !in Heads(cs))
    && (touched && u !in Heads(cs) ==> mem'[u] == DEADBEEF)
  }

  ghost predicate Freed(s: State, b: Block, cs: seq<Block>, mem': seq<Cell>) {
    |mem'| == |s.mem| && forall u {:trigger FreedUnit(s, b, cs, mem', u)} :: 0 <= u < |s.mem| ==> FreedUnit(s, b, cs, mem', u)
  }

  /** A merge keeps the account of what free has changed. */
  lemma MergeKeepsFreed(s: State, b: Block, cs: seq<Block>, mem: seq<Cell>, k: nat, mem': seq<Cell>)
    requires Freed(s, b, cs, mem) && Wf(State(cs, mem)) && k + 1 < |cs| && !cs[k].inuse && !cs[k + 1].inuse
    requires HeaderAt(mem, cs, k) && HeaderAt(mem, cs, k + 1) && JoinedAt(mem, mem', cs[k].start, cs[k + 1].start)
    ensures Freed(s, b, MergeAt(cs, k), mem')
  {
    forall u | 0 <= u < |s.mem|
      ensures FreedUnit(s, b, MergeAt(cs, k), mem', u)
    {
      assert FreedUnit(s, b, cs, mem, u);
      MergeHeads(cs, k, u);
      MergeTouches(mem, cs, k, mem', u);
    }
  }

  /** Marking block k free and wiping its data: the first half of free. */
  lemma WipeDescribes(mem: seq<Cell>, bs: seq<Block>, k: nat, mem': seq<Cell>)
    requires Wf(State(bs, mem)) && k < |bs| && HeaderAt(mem, bs, k) && bs[k].End() <= |mem| == |mem'|
    requires mem'[bs[k].start] == mem[bs[k].start].(inuse := 0)
    requires forall u {:trigger mem'[u]} :: 0 <= u < |mem| && u != bs[k].start ==>
                                              mem'[u] == if bs[k].start < u < bs[k].End() then DEADBEEF else mem[u]
    ensures Wf(State(bs[k := bs[k].(inuse := false)], mem'))
    ensures Freed(State(bs, mem), bs[k], bs[k := bs[k].(inuse := false)], mem')
  {
    var cs := bs[k := bs[k].(inuse := false)];
    var marked := mem[bs[k].start := mem[bs[k].start].(inuse := 0)];
    MarkDescribes(mem, bs, k, false);
    forall j | 0 <= j < |cs|
      ensures HeaderAt(mem', cs, j)
    {
      assert HeaderAt(marked, cs, j);
      if j != k { Apart(cs, |mem|, j, k); }
      assert mem'[cs[j].start] == marked[cs[j].start];
    }
    forall u | 0 <= u < |mem|
      ensures FreedUnit(State(bs, mem), bs[k], cs, mem', u)
    {
      assert bs[k].start in Heads(bs);
    }
  }

  /** The layout of CarveStep before the block is marked. */
  ghost function Opened(bs: seq<Block>, k: nat, n: nat): seq<Block>
    requires k < |bs|
  {
    if bs[k].units >= n + 3 then Divide(bs, k, n) else bs
  }

  ghost predicate OpenedAt(mem: seq<Cell>, bs: seq<Block>, k: nat, n: nat, mem1: seq<Cell>)
    requires k < |bs|
  {
    && bs[k].start < |mem| == |mem1|
    && if bs[k].units >= n + 3 then SplitAt(mem, mem1, bs[k].start, n) else mem1 == mem
  }

  lemma OpenedDescribes(mem: seq<Cell>, bs: seq<Block>, k: nat, n: nat, mem1: seq<Cell>)
    requires Wf(State(bs, mem)) && k < |bs| && bs[k].Fits(n) && OpenedAt(mem, bs, k, n, mem1)
    ensures Wf(State(Opened(bs, k, n), mem1)) && k < |Opened(bs, k, n)| && HeaderAt(mem1, Opened(bs, k, n), k)
    ensures Opened(bs, k, n)[k].start == bs[k].start
  {
    assert HeaderAt(mem, bs, k);
    if bs[k].units >= n + 3 {
      SplitDescribes(mem, bs, k, n, mem1);
    }
    assert HeaderAt(mem1, Opened(bs, k, n), k);
  }

  lemma OpenedTouches(mem: seq<Cell>, bs: seq<Block>, k: nat, n: nat, mem1: seq<Cell>, u: nat)
    requires Wf(State(bs, mem)) && k < |bs| && OpenedAt(mem, bs, k, n, mem1)
    requires u < |mem| && u !in Heads(Opened(bs, k, n))
    ensures mem1[u] == mem[u] && u != bs[k].start
  {
    assert HeaderAt(mem, bs, k);
    assert Opened(bs, k, n)[k].start in Heads(Opened(bs, k, n));
    if bs[k].units >= n + 3 {
      SplitTouches(mem, bs, k, n, mem1, u);
    }
  }

  /** Splitting and then marking block k in use is a first-fit allocation step. */
  lemma CarveStep(mem: seq<Cell>, bs: seq<Block>, k: nat, n: nat, mem1: seq<Cell>, mem2: seq<Cell>)
    requires Inv(State(bs, mem)) && k < |bs| && FirstFit(bs, n, k) && OpenedAt(mem, bs, k, n, mem1)
    requires mem2 == mem1[bs[k].start := mem1[bs[k].start].(inuse := 1)]
    ensures Step(State(bs, mem), Malloc(n, Some(bs[k].start)), State(Carve(bs, k, n), mem2))
  {
    var cs := Opened(bs, k, n);
    OpenedDescribes(mem, bs, k, n, mem1);
    MarkDescribes(mem1, cs, k, true);
    assert cs[k := cs[k].(inuse := true)] == Carve(bs, k, n);
    forall u | 0 <= u < |mem| && u !in Heads(cs)
      ensures mem2[u] == mem[u]
    {
      OpenedTouches(mem, bs, k, n, mem1, u);
    }
    assert MallocAt(State(bs, mem), n, k, Some(bs[k].start), State(Carve(bs, k, n), mem2));
  }

  /** Writing one in-use header in fresh memory at the top is a growing allocation step. */
  lemma GrowStep(mem: seq<Cell>, bs: seq<Block>, n: nat, mem': seq<Cell>)
    requires Inv(State(bs, mem)) && FirstFit(bs, n, |bs|) && |mem| + n + 1 == |mem'| < UNITS_MAX
    requires mem <= mem' && mem'[|mem|] == Cell(if bs == [] then 0 else bs[|bs| - 1].units, 0, MMAGIC, n + 1, 1, MMAGIC)
    ensures Step(State(bs, mem), Malloc(n, Some(|mem|)), State(bs + [Block(|mem|, n + 1, true)], mem'))
  {
    var cs := bs + [Block(|mem|, n + 1, true)];
    forall k | 0 <= k < |cs|
      ensures HeaderAt(mem', cs, k)
    {
      if k < |bs| {
        assert HeaderAt(mem, bs, k) && cs[k] == bs[k];
      }
    }
    assert MallocAt(State(bs, mem), n, |bs|, Some(|mem|), State(cs, mem'));
  }

  /** Freed memory under the released layout is a free step. */
  lemma FreeStep(s: State, k: nat, mem': seq<Cell>)
    requires Inv(s) && k < |s.blocks| && s.blocks[k].inuse
    requires Freed(s, s.blocks[k], Release(s.blocks, k), mem') && Wf(State(Release(s.blocks, k), mem'))
    ensures Step(s, Free(s.blocks[k].start), State(Release(s.blocks, k), mem'))
  {
    var s' := State(Release(s.blocks, k), mem');
    var b := s.blocks[k];
    forall u | 0 <= u < |s.mem| && u !in Heads(s.blocks) && !(b.start < u < b.End())
      ensures mem'[u] == s.mem[u]
    {
      assert FreedUnit(s, b, s'.blocks, mem', u);
    }
    forall u | 0 <= u < |s.mem| && u !in Heads(s'.blocks) && (u in Heads(s.blocks) || b.start < u < b.End())
      ensures mem'[u] == DEADBEEF
    {
      assert FreedUnit(s, b, s'.blocks, mem', u);
    }
    assert FreeAt(s, k, s');
  }

  class Heap {
    const base: nat       // __heapbase, a byte address
    var mem: seq<Cell>    // [__heapbase, __heaptop)
    ghost var blocks: seq<Block>

    ghost function Image(): State
      reads this
    {
      State(blocks, mem)
    }

    ghost predicate Valid()
      reads this
    {
      Inv(Image()) && base % 8 == 0 && base > 0 && base + 8 * |mem| < WORD32
    }

    /** __malloc_init: the heap starts at the break, moved up to a multiple of MBLOCKSIZE. */
    constructor (brk: nat)
      requires 0 < brk && brk + 8 < WORD32
      ensures Valid() && Image() == State([], []) && brk <= base < brk + 8
    {
      base := if brk % 8 != 0 then brk + (8 - brk % 8) else brk;
      mem := [];
      blocks := [];
    }

    /** __malloc_split: leave n units of data in the block at mh, if there is room for another block. */
    method Split(mh: nat, n: nat) returns (ok: bool)
      requires mh < |mem| && mem[mh].nextblock - 1 >= n && mh + mem[mh].nextblock <= |mem|
      modifies this`mem
      ensures ok
      ensures if old(mem)[mh].nextblock >= n + 3 then SplitAt(old(mem), mem, mh, n) else mem == old(mem)
    {
      if mem[mh].nextblock - 1 - n < 2 {
        return true;
      }
      var mhnext := mh + mem[mh].nextblock;
      var oldroom := mem[mh].nextblock - 1;
      mem := mem[mh := mem[mh].(nextblock := n + 1)];
      var mhnew := mh + mem[mh].nextblock;
      if mhnew == mhnext {
        return false; // split screwed up
      }
      mem := mem[mhnew := Cell(n + 1, 0, MMAGIC, oldroom - n, 0, MMAGIC)];
      if mhnext != |mem| {
        mem := mem[mhnext := mem[mhnext].(prevblock := mem[mhnew].nextblock)];
      }
      return true;
    }

    /** __malloc_trymerge: join two adjacent blocks if both are free. */
    method TryMerge(mh: nat, mhnext: nat) returns (ok: bool)
      requires mh < mhnext < |mem| && mem[mh].nextblock + mem[mhnext].nextblock < UNITS_MAX
      requires mhnext < mhnext + mem[mhnext].nextblock <= |mem|
      modifies this`mem
      ensures ok <==> old(mem)[mh].nextblock == old(mem)[mhnext].prevblock
      ensures if ok && old(mem)[mh].inuse == 0 && old(mem)[mhnext].inuse == 0
              then JoinedAt(old(mem), mem, mh, mhnext) else mem == old(mem)
    {
      if mem[mh].nextblock != mem[mhnext].prevblock {
        return false; // heap corrupt
      }
      if mem[mh].inuse == 1 || mem[mhnext].inuse == 1 {
        return true;
      }
      var mhnextnext := mhnext + mem[mhnext].nextblock;
      mem := mem[mh := mem[mh].(nextblock := mem[mh].nextblock + mem[mhnext].nextblock)];
      if mhnextnext != |mem| {
        mem := mem[mhnextnext := mem[mhnextnext].(prevblock := mem[mh].nextblock)];
      }
      Deadbeef(mhnext, 1);
      return true;
    }

    /** __malloc_deadbeef, word by word: the high word of a unit holds the first three fields. */
    method Deadbeef(from: nat, units: nat)
      requires from + units <= |mem|
      modifies this`mem
      ensures |mem| == |old(mem)|
      ensures forall u {:trigger mem[u]} :: 0 <= u < |mem| ==>
                                              mem[u] == if from <= u < from + units then DEADBEEF else old(mem)[u]
    {
      var i := 0;
      while i < 2 * units
        invariant 0 <= i <= 2 * units && |mem| == |old(mem)|
        invariant forall u {:trigger mem[u]} :: 0 <= u < |mem| && !(from <= u < from + (i + 1) / 2) ==> mem[u] == old(mem)[u]
        invariant forall u {:trigger mem[u]} :: from <= u < from + i / 2 ==> mem[u] == DEADBEEF
        invariant i % 2 == 1 ==> var c := mem[from + i / 2]; c.prevblock == 0x1BD5B7DD && c.pad == 1 && c.magic1 == 3
      {
        var u := from + i / 2;
        mem := mem[u := if i % 2 == 0 then mem[u].(prevblock := 0x1BD5B7DD, pad := 1, magic1 := 3)
                        else mem[u].(nextblock := 0x1BD5B7DD, inuse := 1, magic2 := 3)];
        i := i + 1;
      }
    }

    /** The first-fit allocator. sbrk gives more memory, holding anything, or refuses. When adding the
        header wraps to 0 it is asked for nothing, and the header of the block returned is written
        above the heap. */
    method Malloc(size: nat, granted: bool, given: nat -> Cell) returns (r: Outcome)
      requires Valid() && size < WORD32
      modifies this
      ensures Valid()
      ensures r.Ptr? || r.Null? || r.PastTop?
      ensures r.PastTop? <==> granted && RoundUp(size) + 8 >= WORD32
      ensures r.PastTop? ==> Image() == old(Image()) && r.addr == base + 8 * (|mem| + 1)
      ensures var n := RoundUp(size) / 8;
              if r.Ptr? then
                exists head: nat :: r.addr == base + 8 * (head + 1) && Step(old(Image()), Op.Malloc(n, Some(head)), Image())
              else
                Image() == old(Image()) && Step(old(Image()), Op.Malloc(n, None), Image())
    {
      var n := RoundUp(size) / 8;
      ghost var s0 := Image();
      var i := 0;
      var rightprevblock := 0;
      ghost var k := 0;
      if |blocks| > 0 { assert Link(blocks, 0); }
      while i < |mem|
        invariant Image() == s0 && 0 <= k <= |blocks|
        invariant i == if k < |blocks| then blocks[k].start else |mem|
        invariant rightprevblock == if k == 0 then 0 else blocks[k - 1].units
        invariant forall j :: 0 <= j < k ==> !blocks[j].Fits(n)
        decreases |mem| - i
      {
        assert HeaderAt(mem, blocks, k) && Link(blocks, k);
        Bounded(blocks, |mem|, k);
        if k + 1 < |blocks| { assert Link(blocks, k + 1); }
        var mh := mem[i];
        if !mh.Ok() {
          return Exit; // bad magic bits
        }
        if mh.prevblock != rightprevblock {
          return Exit; // bad previous-block size
        }
        rightprevblock := mh.nextblock;
        if mh.inuse == 1 || mh.nextblock - 1 < n {
          i, k := i + mh.nextblock, k + 1;
          continue;
        }
        var ok := Allocate(i, n, k);
        return if ok then Ptr(base + 8 * (i + 1)) else Exit;
      }
      if k < |blocks| { Bounded(blocks, |mem|, k); }
      if i != |mem| {
        return Exit; // ran off end
      }
      assert FirstFit(blocks, n, |blocks|);
      assert MallocAt(s0, n, |blocks|, None, s0);
      if !granted {
        return Null;
      }
      if (8 * n + 8) % WORD32 == 0 {
        return PastTop(base + 8 * (i + 1));
      }
      if base + 8 * (|mem| + n + 1) >= WORD32 {
        return Null;
      }
      Expand(n, rightprevblock, given);
      return Ptr(base + 8 * (i + 1));
    }

    /** malloc(), lines 365-371: the block at mh, which is large enough, is split and taken. */
    method Allocate(mh: nat, n: nat, ghost k: nat) returns (ok: bool)
      requires Valid() && k < |blocks| && blocks[k].start == mh && FirstFit(blocks, n, k)
      modifies this
      ensures ok && Valid() && Step(old(Image()), Op.Malloc(n, Some(mh)), Image())
    {
      ghost var s0 := Image();
      assert HeaderAt(mem, blocks, k);
      Bounded(blocks, |mem|, k);
      ok := Split(mh, n);
      ghost var split := mem;
      mem := mem[mh := mem[mh].(inuse := 1)];
      CarveStep(s0.mem, s0.blocks, k, n, split, mem);
      blocks := Carve(s0.blocks, k, n);
      StepKeepsInv(s0, Op.Malloc(n, Some(mh)), Image());
    }

    /** malloc(), lines 386-400: a block at the top of the grown heap. */
    method Expand(n: nat, rightprevblock: nat, given: nat -> Cell)
      requires Valid() && FirstFit(blocks, n, |blocks|) && base + 8 * (|mem| + n + 1) < WORD32
      requires rightprevblock == if blocks == [] then 0 else blocks[|blocks| - 1].units
      modifies this
      ensures Valid() && Step(old(Image()), Op.Malloc(n, Some(old(|mem|))), Image())
    {
      ghost var s0 := Image();
      var i := |mem|;
      mem := mem + seq(n + 1, given);
      mem := mem[i := Cell(rightprevblock, 0, MMAGIC, n + 1, 1, MMAGIC)];
      GrowStep(s0.mem, s0.blocks, n, mem);
      blocks := blocks + [Block(i, n + 1, true)];
      StepKeepsInv(s0, Op.Malloc(n, Some(i)), Image());
    }

    /** free(), lines 498-502: merge the free block at mh with the block above, unless at the top. */
    method MergeAbove(mh: nat, ghost s0: State, ghost k: nat, ghost b: Block) returns (ok: bool)
      requires Wf(Image()) && Freed(s0, b, blocks, mem) && k < |blocks| && blocks[k].start == mh && !blocks[k].inuse
      modifies this
      ensures ok && blocks == if k + 1 < |old(blocks)| then MergeAt(old(blocks), k) else old(blocks)
      ensures Wf(Image()) && Freed(s0, b, blocks, mem)
    {
      ghost var mem0 := mem;
      assert HeaderAt(mem, blocks, k);
      Bounded(blocks, |mem|, k);
      if k + 1 < |blocks| {
        assert Link(blocks, k + 1) && HeaderAt(mem, blocks, k + 1);
        Bounded(blocks, |mem|, k + 1);
      }
      var mhnext := mh + mem[mh].nextblock;
      ok := true;
      if mhnext != |mem| {
        ok := TryMerge(mh, mhnext);
        if !blocks[k + 1].inuse {
          MergeDescribes(mem0, blocks, k, mem);
          MergeKeepsFreed(s0, b, blocks, mem0, k, mem);
          blocks := MergeAt(blocks, k);
        }
      }
    }

    /** free(), lines 504-508: merge it with the block below, unless at the bottom. */
    method MergeBelow(mh: nat, ghost s0: State, ghost k: nat, ghost b: Block) returns (ok: bool)
      requires Wf(Image()) && Freed(s0, b, blocks, mem) && k < |blocks| && blocks[k].start == mh && !blocks[k].inuse
      modifies this
      ensures ok && blocks == if k > 0 then MergeAt(old(blocks), k - 1) else old(blocks)
      ensures Wf(Image()) && Freed(s0, b, blocks, mem)
    {
      ghost var mem0 := mem;
      assert HeaderAt(mem, blocks, k) && Link(blocks, k);
      Bounded(blocks, |mem|, k);
      if k > 0 {
        assert HeaderAt(mem, blocks, k - 1) && Link(blocks, k - 1);
      }
      ok := true;
      if mh != 0 {
        var mhprev := mh - mem[mh].prevblock;
        ok := TryMerge(mhprev, mh);
        if !blocks[k - 1].inuse {
          MergeDescribes(mem0, blocks, k - 1, mem);
          MergeKeepsFreed(s0, b, blocks, mem0, k - 1, mem);
          blocks := MergeAt(blocks, k - 1);
        }
      }
    }

    /** free(), lines 492-508: mark the block, wipe it, merge it both ways. */
    method ReleaseBlock(mh: nat, ghost k: nat) returns (ok: bool)
      requires Valid() && k < |blocks| && blocks[k].start == mh && blocks[k].inuse
      modifies this
      ensures ok && Valid() && Step(old(Image()), Op.Free(mh), Image())
    {
      ghost var s0 := Image();
      assert HeaderAt(mem, blocks, k);
      Bounded(blocks, |mem|, k);
      mem := mem[mh := mem[mh].(inuse := 0)];
      Deadbeef(mh + 1, mem[mh].nextblock - 1);
      WipeDescribes(s0.mem, s0.blocks, k, mem);
      blocks := s0.blocks[k := s0.blocks[k].(inuse := false)];
      ok := MergeAbove(mh, s0, k, s0.blocks[k]);
      assert blocks == ReleaseUp(s0.blocks, k) && blocks[k].start == mh && !blocks[k].inuse;
      if ok {
        ok := MergeBelow(mh, s0, k, s0.blocks[k]);
      }
      FreeStep(s0, k, mem);
      StepKeepsInv(s0, Op.Free(mh), Image());
    }

    /** The unit whose header free() looks at for pointer x. */
    function HeaderUnit(x: nat): int { (x - base) / 8 - 1 }

    /** x is the data pointer of a live block. */
    ghost predicate Live(x: nat)
      reads this
    {
      x >= base + 8 && (x - base) % 8 == 0 && exists b :: b in blocks && b.inuse && b.start == HeaderUnit(x)
    }

    /** A pointer free() may be given without reading user data as a header: out of range, or
        aligned with a genuine header or something that does not look like one before it. */
    ghost predicate Acceptable(x: nat)
      reads this
    {
      x < base || x >= base + 8 * |mem| ||
      (x >= base + 8 && (x - base) % 8 == 0 &&
       (HeaderUnit(x) in Heads(blocks) || !mem[HeaderUnit(x)].Ok() || mem[HeaderUnit(x)].inuse == 0))
    }

    /** free(): exactly the live pointers below the heap top are freed; NULL is ignored; any other
        acceptable pointer is reported and changes nothing. No consistency check fails. */
    method Free(x: nat) returns (r: Outcome)
      requires Valid() && Acceptable(x)
      modifies this
      ensures Valid()
      ensures if x == 0 then r == Done && Image() == old(Image())
              else if old(Live(x)) && x < old(base + 8 * |mem|) then
                r == Done && Step(old(Image()), Op.Free(HeaderUnit(x)), Image())
              else r == BadPointer && Image() == old(Image())
    {
      if x == 0 {
        return Done;
      }
      if x < base || x >= base + 8 * |mem| {
        return BadPointer;
      }
      var mh := HeaderUnit(x);
      ghost var k: nat := 0;
      if mh in Heads(blocks) {
        k :| 0 <= k < |blocks| && blocks[k].start == mh;
        assert HeaderAt(mem, blocks, k);
      }
      if !mem[mh].Ok() {
        return BadPointer;
      }
      if mem[mh].inuse == 0 {
        assert mh in Heads(blocks) ==> forall j :: 0 <= j < |blocks| && blocks[j].start == mh ==> HeaderAt(mem, blocks, j);
        return BadPointer;
      }
      ghost var live := blocks[k];
      assert live in blocks && live.inuse && live.start == mh;
      var ok := ReleaseBlock(mh, k);
      return if ok then Done else Exit;
    }
  }

  /** __malloc_init(), called once. x is what sbrk(0) returns; the sbrk() that aligns it is granted or
      not, and gives the same address or another. When there is no heap the program has exited. */
  method Init(x: int, granted: bool, same: bool) returns (heap: Heap?)
    requires -1 <= x < WORD32 - 8
    ensures heap == null <==> x <= 0 || (x % 8 != 0 && !(granted && same))
    ensures heap != null ==> fresh(heap) && heap.Valid() && heap.Image() == State([], []) && x <= heap.base < x + 8
  {
    if x == -1 || x == 0 {
      return null;
    }
    if x % 8 != 0 && (!granted || !same) {
      return null;
    }
    heap := new Heap(x);
  }
}
