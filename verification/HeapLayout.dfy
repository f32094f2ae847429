/** The block layout of the user-level heap: what the chain of malloc headers
    between __heapbase and __heaptop describes. All lengths are in 8-byte units
    (MBLOCKSIZE), because every header is one unit and every block a whole number
    of units. */
module HeapLayout {

  /** One block: the unit its header occupies, its length including the header, and its in-use mark. */
  datatype Block = Block(start: nat, units: nat, inuse: bool) {
    function End(): nat { start + units }

    /** Units of data, M_SIZE / MBLOCKSIZE. */
    function Room(): int { units - 1 }

    predicate Fits(n: nat) { !inuse && n <= Room() }
  }

  /** Block k starts where its predecessor ends. */
  ghost predicate Link(bs: seq<Block>, k: int)
    requires 0 <= k < |bs|
  {
    bs[k].units >= 1 && bs[k].start == if k == 0 then 0 else bs[k - 1].End()
  }

  ghost predicate Tiled(bs: seq<Block>, top: nat) {
    && top == (if bs == [] then 0 else bs[|bs| - 1].End())
    && forall k {:trigger Link(bs, k)} :: 0 <= k < |bs| ==> Link(bs, k)
  }

  ghost predicate Guarded(bs: seq<Block>, k: int)
    requires 0 <= k < |bs|
  {
    bs[k].inuse || k == 0 || bs[k - 1].inuse
  }

  /** No two neighbours are both free. */
  ghost predicate Coalesced(bs: seq<Block>) {
    forall k {:trigger Guarded(bs, k)} :: 0 <= k < |bs| ==> Guarded(bs, k)
  }

  /** Block i is the lowest one that can serve a request for n units; i == |bs| when none can. */
  ghost predicate FirstFit(bs: seq<Block>, n: nat, i: nat) {
    && i <= |bs|
    && (i < |bs| ==> bs[i].Fits(n))
    && (forall j :: 0 <= j < i ==> !bs[j].Fits(n))
  }

  /** Give block i to a request for n units, splitting off the rest when at least two units are left over. */
  function Carve(bs: seq<Block>, i: nat, n: nat): seq<Block>
    requires i < |bs| && bs[i].Fits(n)
  {
    var b := bs[i];
    if b.Room() - n < 2 then
      bs[i := b.(inuse := true)]
    else
      bs[..i] + [Block(b.start, n + 1, true), Block(b.start + n + 1, b.units - n - 1, false)] + bs[i + 1..]
  }

  /** Join blocks i and i+1 if both are free. */
  function MergeAt(bs: seq<Block>, i: nat): seq<Block>
    requires i + 1 < |bs|
  {
    if bs[i].inuse || bs[i + 1].inuse then bs
    else bs[..i] + [Block(bs[i].start, bs[i].units + bs[i + 1].units, false)] + bs[i + 2..]
  }

  /** The layout after block i has been freed and merged with the block above it. */
  function ReleaseUp(bs: seq<Block>, i: nat): (up: seq<Block>)
    requires i < |bs|
    ensures |up| > i
  {
    var freed := bs[i := bs[i].(inuse := false)];
    if i + 1 < |freed| then MergeAt(freed, i) else freed
  }

  /** Free block i and coalesce it with the block above, then with the block below. */
  function Release(bs: seq<Block>, i: nat): seq<Block>
    requires i < |bs|
  {
    var up := ReleaseUp(bs, i);
    if i > 0 then MergeAt(up, i - 1) else up
  }

  /** Blocks lie in address order, end to end. */
  lemma {:induction false} Ordered(bs: seq<Block>, top: nat, i: nat, j: nat)
    requires Tiled(bs, top) && i < j < |bs|
    ensures bs[i].End() <= bs[j].start
    decreases j - i
  {
    assert Link(bs, j) && Link(bs, j - 1);
    if i + 1 < j {
      Ordered(bs, top, i, j - 1);
    }
  }

  /** Different blocks share no unit. */
  lemma Apart(bs: seq<Block>, top: nat, i: nat, j: nat)
    requires Tiled(bs, top) && i < |bs| && j < |bs| && i != j
    ensures bs[i].End() <= bs[j].start || bs[j].End() <= bs[i].start
    ensures bs[i].start != bs[j].start
  {
    assert Link(bs, i) && Link(bs, j);
    if i < j { Ordered(bs, top, i, j); } else { Ordered(bs, top, j, i); }
  }

  lemma Bounded(bs: seq<Block>, top: nat, i: nat)
    requires Tiled(bs, top) && i < |bs|
    ensures bs[i].start < bs[i].End() <= top
  {
    assert Link(bs, i) && Link(bs, |bs| - 1);
    if i < |bs| - 1 {
      Ordered(bs, top, i, |bs| - 1);
    }
  }

  /** cs is bs with blocks i..j replaced by blocks i..d. */
  ghost predicate Spliced(bs: seq<Block>, cs: seq<Block>, i: nat, j: nat, d: nat) {
    && i < j <= |bs| && i < d <= |cs| && |cs| - d == |bs| - j
    && (forall k {:trigger cs[k]} :: 0 <= k < i ==> cs[k] == bs[k])
    && (forall k {:trigger cs[k]} :: d <= k < |cs| ==> cs[k] == bs[k - d + j])
  }

  /** Replacing blocks by a chain over the same units keeps the tiling. */
  lemma SpliceTiles(bs: seq<Block>, top: nat, cs: seq<Block>, i: nat, j: nat, d: nat)
    requires Tiled(bs, top) && Spliced(bs, cs, i, j, d)
    requires forall k {:trigger Link(cs, k)} :: i < k < d ==> Link(cs, k)
    requires cs[i].units >= 1 && cs[i].start == bs[i].start && cs[d - 1].End() == bs[j - 1].End()
    ensures Tiled(cs, top)
  {
    forall k | 0 <= k < |cs|
      ensures Link(cs, k)
    {
      if k < i {
        assert Link(bs, k) && (k > 0 ==> cs[k - 1] == bs[k - 1]);
      } else if k == i {
        assert Link(bs, i) && (k > 0 ==> cs[k - 1] == bs[k - 1]);
      } else if k == d {
        assert Link(bs, j) && cs[d] == bs[j];
      } else if k > d {
        assert Link(bs, k - d + j) && cs[k - 1] == bs[k - 1 - d + j];
      }
    }
    assert d < |cs| ==> cs[|cs| - 1] == bs[|bs| - 1];
  }

  /** Replacing blocks keeps Coalesced outside the blocks i..=d that are checked separately. */
  lemma SpliceCoalesced(bs: seq<Block>, cs: seq<Block>, i: nat, j: nat, d: nat)
    requires Spliced(bs, cs, i, j, d)
    requires forall k {:trigger Guarded(bs, k)} :: 0 <= k < i || j < k < |bs| ==> Guarded(bs, k)
    requires forall k {:trigger Guarded(cs, k)} :: i <= k <= d && k < |cs| ==> Guarded(cs, k)
    ensures Coalesced(cs)
  {
    forall k | 0 <= k < |cs|
      ensures Guarded(cs, k)
    {
      if k < i {
        assert Guarded(bs, k) && (k > 0 ==> cs[k - 1] == bs[k - 1]);
      } else if k > d {
        assert Guarded(bs, k - d + j) && cs[k - 1] == bs[k - 1 - d + j];
      }
    }
  }

  lemma CarveTiles(bs: seq<Block>, top: nat, i: nat, n: nat)
    requires Tiled(bs, top) && Coalesced(bs) && i < |bs| && bs[i].Fits(n)
    ensures Tiled(Carve(bs, i, n), top) && Coalesced(Carve(bs, i, n))
  {
    var cs := Carve(bs, i, n);
    var d := if bs[i].Room() - n < 2 then i + 1 else i + 2;
    assert Spliced(bs, cs, i, i + 1, d);
    assert Link(bs, i) && Guarded(bs, i) && Link(cs, d - 1);
    SpliceTiles(bs, top, cs, i, i + 1, d);
    if i + 1 < |bs| {
      assert Guarded(bs, i + 1) && cs[d] == bs[i + 1];
    }
    SpliceCoalesced(bs, cs, i, i + 1, d);
  }

  /** Changing only the in-use mark keeps the tiling. */
  lemma MarkTiles(bs: seq<Block>, top: nat, i: nat, inuse: bool)
    requires Tiled(bs, top) && i < |bs|
    ensures Tiled(bs[i := bs[i].(inuse := inuse)], top)
  {
    var cs := bs[i := bs[i].(inuse := inuse)];
    assert Link(bs, i);
    SpliceTiles(bs, top, cs, i, i + 1, i + 1);
  }

  lemma MergeTiles(bs: seq<Block>, top: nat, i: nat)
    requires Tiled(bs, top) && i + 1 < |bs|
    ensures Tiled(MergeAt(bs, i), top)
  {
    var cs := MergeAt(bs, i);
    if !bs[i].inuse && !bs[i + 1].inuse {
      assert Link(bs, i) && Link(bs, i + 1);
      SpliceTiles(bs, top, cs, i, i + 2, i + 1);
    }
  }

  /** All neighbours but blocks k-1 and k are guarded. */
  ghost predicate CoalescedBut(bs: seq<Block>, k: int) {
    forall j {:trigger Guarded(bs, j)} :: 0 <= j < |bs| && j != k ==> Guarded(bs, j)
  }

  /** If only blocks i and i+1 may both be free, one merge restores Coalesced. */
  lemma MergeCoalesces(bs: seq<Block>, i: nat)
    requires i + 1 < |bs| && CoalescedBut(bs, i + 1)
    ensures Coalesced(MergeAt(bs, i))
  {
    var cs := MergeAt(bs, i);
    if !bs[i].inuse && !bs[i + 1].inuse {
      assert Guarded(bs, i) && Guarded(cs, i);
      if i + 2 < |bs| {
        assert Guarded(bs, i + 2) && cs[i + 1] == bs[i + 2];
      }
      SpliceCoalesced(bs, cs, i, i + 2, i + 1);
    } else {
      assert Guarded(bs, i + 1);
    }
  }

  /** After the upward merge only blocks i-1 and i may still both be free. */
  lemma ReleaseUpTiles(bs: seq<Block>, top: nat, i: nat)
    requires Tiled(bs, top) && Coalesced(bs) && i < |bs| && bs[i].inuse
    ensures Tiled(ReleaseUp(bs, i), top) && |ReleaseUp(bs, i)| > i && CoalescedBut(ReleaseUp(bs, i), i)
  {
    var freed := bs[i := bs[i].(inuse := false)];
    var up := ReleaseUp(bs, i);
    MarkTiles(bs, top, i, false);
    if i + 1 < |freed| {
      MergeTiles(freed, top, i);
    }
    var d := |bs| - |up|;
    forall k | 0 <= k < |up| && k != i
      ensures Guarded(up, k)
    {
      if k < i {
        assert Guarded(bs, k) && up[k] == bs[k] && (k > 0 ==> up[k - 1] == bs[k - 1]);
      } else {
        assert Guarded(bs, k + d) && up[k] == bs[k + d];
        assert k > i + 1 ==> up[k - 1] == bs[k - 1 + d];
        assert d == 1 ==> !bs[i + 1].inuse;
      }
    }
  }

  /** Freeing keeps the tiling and, thanks to the two merges, leaves no free neighbours. */
  lemma ReleaseTiles(bs: seq<Block>, top: nat, i: nat)
    requires Tiled(bs, top) && Coalesced(bs) && i < |bs| && bs[i].inuse
    ensures Tiled(Release(bs, i), top) && Coalesced(Release(bs, i))
  {
    ReleaseUpTiles(bs, top, i);
    var up := ReleaseUp(bs, i);
    if i > 0 {
      MergeTiles(up, top, i - 1);
      MergeCoalesces(up, i - 1);
    } else {
      assert Guarded(up, 0);
    }
  }

  /** Freeing a block just carved out of a free block restores the layout exactly. */
  lemma ReleaseUndoesCarve(bs: seq<Block>, i: nat, n: nat)
    requires Coalesced(bs) && i < |bs| && bs[i].Fits(n)
    ensures i < |Carve(bs, i, n)| && Release(Carve(bs, i, n), i) == bs
  {
    var cs := Carve(bs, i, n);
    assert Guarded(bs, i) && (i + 1 < |bs| ==> Guarded(bs, i + 1));
    var freed := cs[i := cs[i].(inuse := false)];
    if bs[i].Room() - n >= 2 {
      assert freed[i + 2..] == bs[i + 1..] && freed[..i] == bs[..i];
      assert ReleaseUp(cs, i) == bs;
    } else {
      assert freed == bs;
    }
  }

  lemma MergeKeeps(bs: seq<Block>, i: nat, b: Block)
    requires i + 1 < |bs| && b in bs && b.inuse
    ensures b in MergeAt(bs, i)
  {
    var k :| 0 <= k < |bs| && bs[k] == b;
    var cs := MergeAt(bs, i);
    if cs != bs {
      assert k < i ==> cs[k] == b;
      assert k > i + 1 ==> cs[k - 1] == b;
    }
  }

  /** A block in use other than block i survives Release(bs, i). */
  lemma ReleaseKeeps(bs: seq<Block>, i: nat, b: Block)
    requires i < |bs| && b in bs && b.inuse && b != bs[i]
    ensures b in Release(bs, i)
  {
    var freed := bs[i := bs[i].(inuse := false)];
    var k :| 0 <= k < |bs| && bs[k] == b;
    assert freed[k] == b;
    if i + 1 < |freed| {
      MergeKeeps(freed, i, b);
    }
    if i > 0 {
      MergeKeeps(ReleaseUp(bs, i), i - 1, b);
    }
  }

  /** A block in use survives Carve(bs, i, n). */
  lemma CarveKeeps(bs: seq<Block>, i: nat, n: nat, b: Block)
    requires i < |bs| && bs[i].Fits(n) && b in bs && b.inuse
    ensures b in Carve(bs, i, n)
  {
    var k :| 0 <= k < |bs| && bs[k] == b;
    var cs := Carve(bs, i, n);
    assert k < i ==> cs[k] == b;
    if bs[i].Room() - n >= 2 {
      assert k > i ==> cs[k + 1] == b;
    } else {
      assert k > i ==> cs[k] == b;
    }
  }

  /** The request is cut off the front of its block when at least two units are over, and gets the
      whole block otherwise; every other block stays. */
  ghost predicate Carved(bs: seq<Block>, cs: seq<Block>, b: Block, n: nat) {
    && b in bs && b.Fits(n)
    && (if b.Room() < n + 2 then Block(b.start, b.units, true) in cs
        else Block(b.start, n + 1, true) in cs && Block(b.start + n + 1, b.units - (n + 1), false) in cs)
    && (forall c :: c in bs && c != b ==> c in cs)
    && (forall c :: c in cs && !(b.start <= c.start < b.End()) ==> c in bs)
  }

  lemma CarveMeans(bs: seq<Block>, top: nat, i: nat, n: nat)
    requires Tiled(bs, top) && i < |bs| && bs[i].Fits(n)
    ensures Carved(bs, Carve(bs, i, n), bs[i], n)
  {
    var cs, b := Carve(bs, i, n), bs[i];
    var d := if b.Room() < n + 2 then i + 1 else i + 2;
    assert Spliced(bs, cs, i, i + 1, d);
    assert cs[i] in cs && cs[d - 1] in cs;
    forall c | c in bs && c != b
      ensures c in cs
    {
      var k :| 0 <= k < |bs| && bs[k] == c;
      assert cs[if k < i then k else k - (i + 1) + d] == c;
    }
    assert Link(bs, i);
    forall c | c in cs && !(b.start <= c.start < b.End())
      ensures c in bs
    {
      var k :| 0 <= k < |cs| && cs[k] == c;
      assert k < i || k >= d;
    }
  }

  /** A block in use after a merge was there before it. */
  lemma MergeMakesFree(bs: seq<Block>, i: nat, b: Block)
    requires i + 1 < |bs| && b in MergeAt(bs, i) && b.inuse
    ensures b in bs
  {
    var cs := MergeAt(bs, i);
    var k :| 0 <= k < |cs| && cs[k] == b;
    if cs != bs {
      assert k < i ==> bs[k] == b;
      assert k > i ==> bs[k + 1] == b;
    }
  }

  /** The blocks in use after a release are those in use before, but for the one released. */
  lemma ReleaseMeans(bs: seq<Block>, top: nat, i: nat, b: Block)
    requires Tiled(bs, top) && i < |bs| && bs[i].inuse && b.inuse
    ensures b in Release(bs, i) <==> b in bs && b.start != bs[i].start
  {
    if b in bs && b.start != bs[i].start {
      ReleaseKeeps(bs, i, b);
    }
    if b in Release(bs, i) {
      var up := ReleaseUp(bs, i);
      var freed := bs[i := bs[i].(inuse := false)];
      if i > 0 {
        MergeMakesFree(up, i - 1, b);
      }
      if i + 1 < |freed| {
        MergeMakesFree(freed, i, b);
      }
      var k :| 0 <= k < |freed| && freed[k] == b;
      assert bs[k] == b;
      Apart(bs, top, k, i);
    }
  }

  /** The same blocks in use. */
  ghost predicate SameLive(bs: seq<Block>, cs: seq<Block>) {
    forall b: Block :: b.inuse ==> (b in bs <==> b in cs)
  }

  /** If the layouts agree below block k, and cs has a shorter free block there, the block after that
      is in use and starts inside the block of bs. */
  lemma NoShorter(bs: seq<Block>, cs: seq<Block>, top: nat, k: nat)
    requires Tiled(bs, top) && Tiled(cs, top) && Coalesced(cs) && SameLive(bs, cs)
    requires k < |bs| && k < |cs| && bs[k].start == cs[k].start && !bs[k].inuse && !cs[k].inuse
    ensures cs[k].End() >= bs[k].End()
  {
    Bounded(bs, top, k);
    Bounded(cs, top, k);
    if cs[k].End() < bs[k].End() {
      assert k + 1 < |cs|;
      assert Link(cs, k + 1) && Guarded(cs, k + 1);
      var j :| 0 <= j < |bs| && bs[j] == cs[k + 1];
      Apart(bs, top, j, k);
      Bounded(bs, top, j);
    }
  }

  lemma SameAt(bs: seq<Block>, cs: seq<Block>, top: nat, k: nat)
    requires Tiled(bs, top) && Tiled(cs, top) && Coalesced(bs) && Coalesced(cs) && SameLive(bs, cs)
    requires k < |bs| && k < |cs| && bs[k].start == cs[k].start
    ensures bs[k] == cs[k]
  {
    if bs[k].inuse {
      assert bs[k] in cs;
      var j :| 0 <= j < |cs| && cs[j] == bs[k];
      if j != k { Apart(cs, top, j, k); }
    } else if cs[k].inuse {
      assert cs[k] in bs;
      var j :| 0 <= j < |bs| && bs[j] == cs[k];
      if j != k { Apart(bs, top, j, k); }
    } else {
      NoShorter(bs, cs, top, k);
      NoShorter(cs, bs, top, k);
    }
  }

  lemma {:induction false} SameUpTo(bs: seq<Block>, cs: seq<Block>, top: nat, k: nat)
    requires Tiled(bs, top) && Tiled(cs, top) && Coalesced(bs) && Coalesced(cs) && SameLive(bs, cs)
    requires k <= |bs| && k <= |cs|
    ensures bs[..k] == cs[..k]
  {
    if k > 0 {
      SameUpTo(bs, cs, top, k - 1);
      assert Link(bs, k - 1) && Link(cs, k - 1);
      assert k > 1 ==> bs[..k - 1][k - 2] == cs[..k - 1][k - 2];
      SameAt(bs, cs, top, k - 1);
    }
  }

  /** The blocks in use and the top of the heap determine the layout. */
  lemma LayoutUnique(bs: seq<Block>, cs: seq<Block>, top: nat)
    requires Tiled(bs, top) && Tiled(cs, top) && Coalesced(bs) && Coalesced(cs) && SameLive(bs, cs)
    ensures bs == cs
  {
    var k := if |bs| < |cs| then |bs| else |cs|;
    SameUpTo(bs, cs, top, k);
    assert k > 0 ==> bs[..k][k - 1] == cs[..k][k - 1];
    if k < |bs| {
      assert Link(bs, k);
      Bounded(bs, top, k);
    } else if k < |cs| {
      assert Link(cs, k);
      Bounded(cs, top, k);
    }
  }
}
