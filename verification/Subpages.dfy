/** The kernel's subpage allocator as a value: pages of equal-sized blocks, each with its free list
    in order, and the two orders in which the pages are listed. */
module Subpages {
  import Arith

  const PAGE_SIZE := 4096
  const NSIZES := 8
  const NPAGEREFS := 256
  const LARGEST_SUBPAGE_SIZE := 2048

  type SizeClass = t: nat | t < NSIZES

  function Size(t: SizeClass): (sz: nat)
    ensures 16 <= sz <= 2048
  {
    [16, 32, 64, 128, 256, 512, 1024, 2048][t]
  }

  function Blocks(t: SizeClass): (n: nat)
    ensures 2 <= n <= 256
  {
    PAGE_SIZE / Size(t)
  }

  /** blocktype(): the smallest size class that holds sz bytes. */
  function BlockType(sz: nat, t: SizeClass := 0): (r: SizeClass)
    requires sz <= LARGEST_SUBPAGE_SIZE && (t > 0 ==> Size(t - 1) < sz)
    ensures t <= r && sz <= Size(r) && (r > 0 ==> Size(r - 1) < sz)
    decreases NSIZES - t
  {
    if sz <= Size(t) then t else BlockType(sz, t + 1)
  }

  /** A page of blocks of type btype with the offsets of its free blocks, first to be handed out first. */
  datatype Page = Page(addr: nat, btype: SizeClass, free: seq<nat>)

  /** Pages by page reference; all and bysize are the lists at allbase and sizebases. */
  datatype Heap = Heap(pages: map<nat, Page>, all: seq<nat>, bysize: seq<seq<nat>>)

  ghost predicate Distinct<T(!new)>(s: seq<T>) {
    forall i, j :: 0 <= i < j < |s| ==> s[i] != s[j]
  }

  predicate IsBlock(t: SizeClass, off: int) {
    0 <= off < PAGE_SIZE && off % Size(t) == 0
  }

  /** The free list visits distinct blocks of the page, and not all of them. */
  ghost predicate PageOk(p: Page) {
    && p.addr > 0 && p.addr % PAGE_SIZE == 0
    && Distinct(p.free)
    && (forall i :: 0 <= i < |p.free| ==> IsBlock(p.btype, p.free[i]))
    && |p.free| < Blocks(p.btype)
  }

  ghost predicate PageAt(h: Heap, r: nat)
    requires r in h.pages
  {
    r < NPAGEREFS && PageOk(h.pages[r])
  }

  ghost predicate Apart(h: Heap, r: nat, q: nat)
    requires r in h.pages && q in h.pages
  {
    r != q ==> h.pages[r].addr != h.pages[q].addr
  }

  ghost predicate PagesOk(h: Heap) {
    && (forall r {:trigger PageAt(h, r)} :: r in h.pages ==> PageAt(h, r))
    && (forall r, q {:trigger Apart(h, r, q)} :: r in h.pages && q in h.pages ==> Apart(h, r, q))
  }

  /** The t-th list by size holds exactly the pages of type t, once each. */
  ghost predicate ListAt(h: Heap, t: int)
    requires 0 <= t < |h.bysize|
  {
    Distinct(h.bysize[t]) && forall r :: r in h.bysize[t] <==> r in h.pages && h.pages[r].btype == t
  }

  /** The list of all pages is the disjoint union of the lists by size. */
  ghost predicate ListsOk(h: Heap) {
    && |h.bysize| == NSIZES && Distinct(h.all)
    && (forall r :: r in h.all <==> r in h.pages)
    && (forall t {:trigger ListAt(h, t)} :: 0 <= t < NSIZES ==> ListAt(h, t))
  }

  ghost predicate Inv(h: Heap) {
    PagesOk(h) && ListsOk(h)
  }

  /** Address a is a block of page p that is not on its free list. */
  predicate LiveIn(p: Page, a: int) {
    IsBlock(p.btype, a - p.addr) && (a - p.addr) !in p.free
  }

  ghost predicate Live(h: Heap, a: int) {
    exists r :: r in h.pages && LiveIn(h.pages[r], a)
  }

  // ---------------------------------------------------------------- operations

  /** The blocks of a fresh page, highest offset first. */
  function FullList(t: SizeClass): (s: seq<nat>)
    ensures |s| == Blocks(t)
  {
    seq(Blocks(t), (i: nat) requires i < Blocks(t) => (Blocks(t) - 1 - i) * Size(t))
  }

  /** The first page of a list with a free block, or |list|. */
  function FirstWithSpace(list: seq<nat>, pages: map<nat, Page>, i: nat := 0): (k: nat)
    requires i <= |list|
    ensures i <= k <= |list|
    ensures forall j :: i <= j < k ==> list[j] in pages ==> pages[list[j]].free == []
    ensures k < |list| ==> list[k] in pages && pages[list[k]].free != []
    decreases |list| - i
  {
    if i == |list| then i
    else if list[i] in pages && pages[list[i]].free != [] then i
    else FirstWithSpace(list, pages, i + 1)
  }

  /** allocpageref(): the lowest page reference not in use, or NPAGEREFS. */
  function LowestFree(pages: map<nat, Page>, i: nat := 0): (r: nat)
    requires i <= NPAGEREFS
    ensures i <= r <= NPAGEREFS && (forall j :: i <= j < r ==> j in pages) && (r < NPAGEREFS ==> r !in pages)
    decreases NPAGEREFS - i
  {
    if i == NPAGEREFS || i !in pages then i else LowestFree(pages, i + 1)
  }

  /** Hand out the first free block of page r. */
  function Pop(h: Heap, r: nat): Heap
    requires r in h.pages && h.pages[r].free != []
  {
    h.(pages := h.pages[r := h.pages[r].(free := h.pages[r].free[1..])])
  }

  function AddPage(h: Heap, r: nat, t: SizeClass, addr: nat): Heap
    requires |h.bysize| == NSIZES
  {
    Heap(h.pages[r := Page(addr, t, FullList(t))], [r] + h.all, h.bysize[t := [r] + h.bysize[t]])
  }

  function Without(s: seq<nat>, r: nat): seq<nat> {
    if s == [] then [] else if s[0] == r then s[1..] else [s[0]] + Without(s[1..], r)
  }

  function DropPage(h: Heap, r: nat): Heap
    requires r in h.pages && |h.bysize| == NSIZES
  {
    var t := h.pages[r].btype;
    Heap(h.pages - {r}, Without(h.all, r), h.bysize[t := Without(h.bysize[t], r)])
  }

  /** alloc_kpages may give kpage: 0, or an aligned page no listed page uses. */
  ghost predicate FreshPage(h: Heap, kpage: nat) {
    kpage == 0 || (kpage % PAGE_SIZE == 0 && forall r {:trigger h.pages[r]} :: r in h.pages ==> h.pages[r].addr != kpage)
  }

  datatype Alloc = Alloc(h: Heap, ptr: nat)

  /** Lines 381-406: hand out the block at the head of page r's free list. */
  function TakeFrom(h: Heap, r: nat): Alloc
    requires r in h.pages && h.pages[r].free != []
  {
    Alloc(Pop(h, r), h.pages[r].addr + h.pages[r].free[0])
  }

  /** Lines 432-460: list a fresh page under reference r and hand out its first block. */
  function TakeFresh(h: Heap, r: nat, t: SizeClass, kpage: nat): Alloc
    requires |h.bysize| == NSIZES
  {
    TakeFrom(AddPage(h, r, t, kpage), r)
  }

  /** subpage_kmalloc(): ptr is 0 when there is no page reference or no page left. */
  function Kmalloc(h: Heap, sz: nat, kpage: nat): Alloc
    requires sz <= LARGEST_SUBPAGE_SIZE && |h.bysize| == NSIZES
  {
    var t := BlockType(sz);
    var list := h.bysize[t];
    var k := FirstWithSpace(list, h.pages);
    if k < |list| then TakeFrom(h, list[k])
    else
      var r := LowestFree(h.pages);
      if r == NPAGEREFS || kpage == 0 then Alloc(h, 0) else TakeFresh(h, r, t, kpage)
  }

  predicate InPage(p: Page, a: int) {
    p.addr <= a < p.addr + PAGE_SIZE
  }

  /** The first page of a list that contains address a, or |list|. */
  function FindPage(list: seq<nat>, pages: map<nat, Page>, a: int, i: nat := 0): (k: nat)
    requires i <= |list|
    ensures i <= k <= |list|
    ensures forall j :: i <= j < k ==> list[j] in pages ==> !InPage(pages[list[j]], a)
    ensures k < |list| ==> list[k] in pages && InPage(pages[list[k]], a)
    decreases |list| - i
  {
    if i == |list| then i
    else if list[i] in pages && InPage(pages[list[i]], a) then i
    else FindPage(list, pages, a, i + 1)
  }

  /** subpage_kfree() of a block of page r. */
  function KfreeIn(h: Heap, r: nat, ptr: nat): Heap
    requires r in h.pages && |h.bysize| == NSIZES && h.pages[r].addr <= ptr
  {
    var p := h.pages[r];
    var h' := h.(pages := h.pages[r := p.(free := [ptr - p.addr] + p.free)]);
    if |p.free| + 1 == Blocks(p.btype) then DropPage(h', r) else h'
  }

  /** What subpage_kfree() does with an address. */
  datatype Release = NotMine | Misplaced | Freed(h: Heap)

  function Kfree(h: Heap, ptr: nat): Release
    requires |h.bysize| == NSIZES
  {
    var k := FindPage(h.all, h.pages, ptr);
    if k == |h.all| then NotMine
    else if !IsBlock(h.pages[h.all[k]].btype, ptr - h.pages[h.all[k]].addr) then Misplaced
    else Freed(KfreeIn(h, h.all[k], ptr))
  }

  // ---------------------------------------------------------------- blocks of a page

  lemma FullListOk(t: SizeClass)
    ensures Distinct(FullList(t)) && forall i :: 0 <= i < Blocks(t) ==> IsBlock(t, FullList(t)[i])
  {
    var n, z := Blocks(t), Size(t);
    SizeDivides(t);
    forall i | 0 <= i < n
      ensures IsBlock(t, FullList(t)[i])
    {
      MulBlock(t, n - 1 - i);
    }
    forall i, j | 0 <= i < j < n
      ensures FullList(t)[i] != FullList(t)[j]
    {
      MulLess(n - 1 - j, n - 1 - i, z);
    }
  }

  lemma SizeDivides(t: SizeClass)
    ensures Blocks(t) * Size(t) == PAGE_SIZE
  {
  }

  lemma MulLess(a: int, b: int, z: nat)
    requires a < b && z > 0
    ensures a * z < b * z
  {
  }

  lemma MulBlock(t: SizeClass, i: nat)
    requires i < Blocks(t)
    ensures IsBlock(t, i * Size(t)) && i * Size(t) / Size(t) == i
  {
    var z := Size(t);
    Arith.Remainder(i, 0, z);
    SizeDivides(t);
    MulLess(i, Blocks(t), z);
  }

  lemma BlockIndex(t: SizeClass, off: int)
    requires IsBlock(t, off)
    ensures off == off / Size(t) * Size(t) && 0 <= off / Size(t) < Blocks(t)
  {
    assert t == 0 || t == 1 || t == 2 || t == 3 || t == 4 || t == 5 || t == 6 || t == 7;
  }

  /** The offsets 0, z, ..., (n-1)z. */
  ghost function Multiples(n: nat, z: nat): (s: set<int>)
    requires z > 0
    ensures |s| == n && forall o :: o in s ==> 0 <= o < n * z
  {
    if n == 0 then {} else
      assert (n - 1) * z + z == n * z;
      Multiples(n - 1, z) + {(n - 1) * z}
  }

  lemma {:induction false} InMultiples(n: nat, z: nat, i: nat)
    requires z > 0 && i < n
    ensures i * z in Multiples(n, z)
  {
    if i < n - 1 { InMultiples(n - 1, z, i); }
  }

  lemma {:induction false} MultipleIndex(n: nat, z: nat, o: int) returns (i: nat)
    requires z > 0 && o in Multiples(n, z)
    ensures i < n && o == i * z
  {
    if o == (n - 1) * z { i := n - 1; } else { i := MultipleIndex(n - 1, z, o); }
  }

  ghost function Elements(s: seq<nat>): set<int> { set x | x in s }

  lemma {:induction false} DistinctCard(s: seq<nat>)
    requires Distinct(s)
    ensures |Elements(s)| == |s|
  {
    if s != [] {
      var n := |s| - 1;
      DistinctCard(s[..n]);
      assert Elements(s) == Elements(s[..n]) + {s[n]};
    }
  }

  lemma FreeAreMultiples(t: SizeClass, free: seq<nat>)
    requires forall i :: 0 <= i < |free| ==> IsBlock(t, free[i])
    ensures Elements(free) <= Multiples(Blocks(t), Size(t))
  {
    forall x | x in Elements(free)
      ensures x in Multiples(Blocks(t), Size(t))
    {
      BlockIndex(t, x);
      InMultiples(Blocks(t), Size(t), x / Size(t));
    }
  }

  lemma SubsetEqual(a: set<int>, b: set<int>)
    requires a <= b && |a| == |b|
    ensures a == b
  {
    assert |b - a| == |b| - |a|;
  }

  /** A free list as long as the page has blocks holds every block. */
  lemma FullCovers(t: SizeClass, free: seq<nat>, off: int)
    requires Distinct(free) && (forall i :: 0 <= i < |free| ==> IsBlock(t, free[i]))
    requires |free| == Blocks(t) && IsBlock(t, off)
    ensures off in free
  {
    FreeAreMultiples(t, free);
    DistinctCard(free);
    SubsetEqual(Elements(free), Multiples(Blocks(t), Size(t)));
    BlockIndex(t, off);
    InMultiples(Blocks(t), Size(t), off / Size(t));
  }

  /** Every listed page has a block in use. */
  lemma SomeLive(p: Page) returns (a: nat)
    requires PageOk(p)
    ensures LiveIn(p, a)
  {
    FreeAreMultiples(p.btype, p.free);
    DistinctCard(p.free);
    var m := Multiples(Blocks(p.btype), Size(p.btype));
    assert m != Elements(p.free);
    var o :| o in m && o !in Elements(p.free);
    var i := MultipleIndex(Blocks(p.btype), Size(p.btype), o);
    MulBlock(p.btype, i);
    a := p.addr + o;
  }

  // ---------------------------------------------------------------- every operation keeps the invariant

  lemma {:induction false} WithoutOk(s: seq<nat>, r: nat)
    requires Distinct(s)
    ensures Distinct(Without(s, r)) && forall x :: x in Without(s, r) <==> x in s && x != r
  {
    if s != [] {
      WithoutOk(s[1..], r);
      assert s == [s[0]] + s[1..] && s[0] !in s[1..];
      if s[0] != r {
        var w := Without(s[1..], r);
        assert s[0] !in w && Without(s, r) == [s[0]] + w;
      }
    }
  }

  /** Replacing page r by another of the same place and type keeps the invariant. */
  lemma SetPageInv(h: Heap, r: nat, p: Page)
    requires Inv(h) && r in h.pages && PageOk(p) && p.addr == h.pages[r].addr && p.btype == h.pages[r].btype
    ensures Inv(h.(pages := h.pages[r := p]))
  {
    var h' := h.(pages := h.pages[r := p]);
    forall q | q in h'.pages
      ensures PageAt(h', q)
    {
      assert PageAt(h, q);
    }
    forall q, x | q in h'.pages && x in h'.pages
      ensures Apart(h', q, x)
    {
      assert Apart(h, q, x);
    }
    forall t | 0 <= t < NSIZES
      ensures ListAt(h', t)
    {
      assert ListAt(h, t);
    }
  }

  lemma NewPageInv(h: Heap, r: nat, p: Page)
    requires Inv(h) && r !in h.pages && r < NPAGEREFS && PageOk(p) && FreshPage(h, p.addr)
    ensures Inv(Heap(h.pages[r := p], [r] + h.all, h.bysize[p.btype := [r] + h.bysize[p.btype]]))
  {
    var h' := Heap(h.pages[r := p], [r] + h.all, h.bysize[p.btype := [r] + h.bysize[p.btype]]);
    assert r !in h.all && Distinct(h'.all);
    forall q | q in h'.pages
      ensures PageAt(h', q)
    {
      if q != r { assert PageAt(h, q); }
    }
    forall q, x | q in h'.pages && x in h'.pages
      ensures Apart(h', q, x)
    {
      if q != r && x != r { assert Apart(h, q, x); }
    }
    forall t | 0 <= t < NSIZES
      ensures ListAt(h', t)
    {
      assert ListAt(h, t) && r !in h.bysize[t];
    }
  }

  lemma DropPageInv(h: Heap, r: nat)
    requires Inv(h) && r in h.pages
    ensures Inv(DropPage(h, r))
  {
    var h' := DropPage(h, r);
    WithoutOk(h.all, r);
    forall q | q in h'.pages
      ensures PageAt(h', q)
    {
      assert PageAt(h, q);
    }
    forall q, x | q in h'.pages && x in h'.pages
      ensures Apart(h', q, x)
    {
      assert Apart(h, q, x);
    }
    forall t | 0 <= t < NSIZES
      ensures ListAt(h', t)
    {
      assert ListAt(h, t);
      WithoutOk(h.bysize[t], r);
    }
  }

  lemma TailOk(p: Page)
    requires PageOk(p) && p.free != []
    ensures PageOk(p.(free := p.free[1..])) && p.free[0] !in p.free[1..]
  {
  }

  /** The page subpage_kmalloc() makes when no page of the type has space, one block handed out. */
  lemma FreshPageOk(t: SizeClass, addr: nat)
    requires addr > 0 && addr % PAGE_SIZE == 0
    ensures PageOk(Page(addr, t, FullList(t)[1..])) && FullList(t)[0] !in FullList(t)[1..] && IsBlock(t, FullList(t)[0])
  {
    FullListOk(t);
  }

  lemma KfreeKeepsInv(h: Heap, ptr: nat, r: nat)
    requires Inv(h) && r in h.pages && LiveIn(h.pages[r], ptr)
    ensures Inv(KfreeIn(h, r, ptr))
  {
    assert PageAt(h, r);
    var p := h.pages[r];
    var q := p.(free := [ptr - p.addr] + p.free);
    if |p.free| + 1 == Blocks(p.btype) {
      DropPageInv(h, r);
      assert h.pages[r := q] - {r} == h.pages - {r};
      assert KfreeIn(h, r, ptr) == DropPage(h, r);
    } else {
      SetPageInv(h, r, q);
    }
  }

  // ---------------------------------------------------------------- what is in use

  /** Pages at different addresses share no address. */
  lemma PagesApart(p: Page, q: Page, a: int)
    requires p.addr % PAGE_SIZE == 0 && q.addr % PAGE_SIZE == 0 && InPage(p, a) && InPage(q, a)
    ensures p.addr == q.addr
  {
  }

  /** An address in use belongs to one page only. */
  lemma LivePage(h: Heap, a: int, r: nat, q: nat)
    requires Inv(h) && r in h.pages && q in h.pages && InPage(h.pages[r], a) && LiveIn(h.pages[q], a)
    ensures q == r
  {
    assert PageAt(h, r) && PageAt(h, q) && Apart(h, r, q);
    PagesApart(h.pages[r], h.pages[q], a);
  }

  /** Two different multiples of z are z apart. */
  lemma GridApart(i: int, j: int, z: nat)
    requires i * z < j * z
    ensures i * z + z <= j * z
  {
    Arith.Scale(j, i, z);
    Arith.Scale(i + 1, j, z);
    assert (i + 1) * z == i * z + z;
  }

  /** A block ends inside its page. */
  lemma BlockEnds(t: SizeClass, off: int)
    requires IsBlock(t, off)
    ensures off + Size(t) <= PAGE_SIZE
  {
    BlockIndex(t, off);
    SizeDivides(t);
    GridApart(off / Size(t), Blocks(t), Size(t));
  }

  /** Two blocks in use do not overlap. */
  lemma LiveDisjoint(h: Heap, a: nat, b: nat, r: nat, q: nat)
    requires Inv(h) && r in h.pages && q in h.pages && LiveIn(h.pages[r], a) && LiveIn(h.pages[q], b) && a < b
    ensures a + Size(h.pages[r].btype) <= b
  {
    var p := h.pages[r];
    var z := Size(p.btype);
    BlockEnds(p.btype, a - p.addr);
    if r == q {
      BlockIndex(p.btype, a - p.addr);
      BlockIndex(p.btype, b - p.addr);
      GridApart((a - p.addr) / z, (b - p.addr) / z, z);
    } else {
      assert PageAt(h, r) && PageAt(h, q) && Apart(h, r, q);
      PageEnds(p.addr, h.pages[q].addr, b);
    }
  }

  /** Pages are as far apart as they are large. */
  lemma PageEnds(addr: int, other: int, b: int)
    requires addr % PAGE_SIZE == 0 && other % PAGE_SIZE == 0 && addr != other && other <= b < other + PAGE_SIZE
    ensures addr + PAGE_SIZE <= b || b < addr
  {
  }

  /** If only page r differs, an address outside it keeps its use. */
  lemma LiveElsewhere(h: Heap, h': Heap, r: nat, a: int)
    requires h.pages - {r} == h'.pages - {r}
    requires (r in h.pages && LiveIn(h.pages[r], a)) <==> (r in h'.pages && LiveIn(h'.pages[r], a))
    ensures Live(h, a) <==> Live(h', a)
  {
    if Live(h, a) {
      var q :| q in h.pages && LiveIn(h.pages[q], a);
      assert q != r ==> q in (h.pages - {r}) && (h.pages - {r})[q] == (h'.pages - {r})[q];
      assert q in h'.pages && LiveIn(h'.pages[q], a);
    }
    if Live(h', a) {
      var q :| q in h'.pages && LiveIn(h'.pages[q], a);
      assert q != r ==> q in (h'.pages - {r}) && (h.pages - {r})[q] == (h'.pages - {r})[q];
      assert q in h.pages && LiveIn(h.pages[q], a);
    }
  }

  /** Every block of a fresh page is on its free list. */
  lemma FreshPageIdle(t: SizeClass, kpage: nat, a: int)
    ensures !LiveIn(Page(kpage, t, FullList(t)), a)
  {
    FullListOk(t);
    if IsBlock(t, a - kpage) { FullCovers(t, FullList(t), a - kpage); }
  }

  /** Freeing a block in use ends its use and no other, also when its page is given back. */
  lemma KfreeLive(h: Heap, r: nat, ptr: nat, a: int)
    requires Inv(h) && r in h.pages && LiveIn(h.pages[r], ptr)
    ensures Live(KfreeIn(h, r, ptr), a) <==> Live(h, a) && a != ptr
  {
    var p := h.pages[r];
    var h' := KfreeIn(h, r, ptr);
    var free := [ptr - p.addr] + p.free;
    assert PageAt(h, r);
    if |free| == Blocks(p.btype) {
      if IsBlock(p.btype, a - p.addr) { FullCovers(p.btype, free, a - p.addr); }
      if a == ptr {
        if Live(h', a) {
          var q :| q in h'.pages && LiveIn(h'.pages[q], a);
          LivePage(h, a, r, q);
        }
      } else {
        assert h.pages - {r} == h'.pages - {r};
        LiveElsewhere(h, h', r, a);
      }
    } else if a == ptr {
      if Live(h', a) {
        var q :| q in h'.pages && LiveIn(h'.pages[q], a);
        assert q != r ==> LiveIn(h.pages[q], a);
        if q != r { LivePage(h, a, r, q); }
      }
    } else {
      assert h.pages - {r} == h'.pages - {r};
      LiveElsewhere(h, h', r, a);
    }
  }

  /** subpage_kfree() finds the page of a block in use and puts the block back on it. */
  lemma KfreeFinds(h: Heap, r: nat, ptr: nat)
    requires Inv(h) && r in h.pages && LiveIn(h.pages[r], ptr)
    ensures Kfree(h, ptr) == Freed(KfreeIn(h, r, ptr))
  {
    var k := FindPage(h.all, h.pages, ptr);
    assert r in h.all;
    var j :| 0 <= j < |h.all| && h.all[j] == r;
    assert k <= j;
    assert h.all[k] in h.all;
    LivePage(h, ptr, h.all[k], r);
  }

  /** The page of the list that an address is on. */
  lemma PageFound(h: Heap, r: nat, ptr: nat)
    requires Inv(h) && r in h.pages && InPage(h.pages[r], ptr)
    ensures FindPage(h.all, h.pages, ptr) < |h.all| && h.all[FindPage(h.all, h.pages, ptr)] == r
  {
    var k := FindPage(h.all, h.pages, ptr);
    assert r in h.all;
    var j :| 0 <= j < |h.all| && h.all[j] == r;
    assert k <= j;
    var q := h.all[k];
    assert PageAt(h, r) && PageAt(h, q);
    if q != r {
      assert Apart(h, r, q);
      PagesApart(h.pages[r], h.pages[q], ptr);
    }
  }

  ghost predicate OnPage(h: Heap, a: int) {
    exists r :: r in h.pages && h.pages[r].addr <= a < h.pages[r].addr + PAGE_SIZE
  }

  /** On a page, but not at a multiple of its block size. */
  ghost predicate OffGrid(h: Heap, a: int) {
    exists r :: r in h.pages && h.pages[r].addr <= a < h.pages[r].addr + PAGE_SIZE && (a - h.pages[r].addr) % Size(h.pages[r].btype) != 0
  }

  /** What subpage_kfree() does with any address: it is not a subpage allocation if and only if it is on
      no page, it is misplaced if and only if it is on a page but at no block of it, and otherwise that
      block is freed. */
  lemma KfreeIff(h: Heap, ptr: nat)
    requires Inv(h)
    ensures Kfree(h, ptr).NotMine? <==> !OnPage(h, ptr)
    ensures Kfree(h, ptr).Misplaced? <==> OffGrid(h, ptr)
    ensures forall r :: r in h.pages && IsBlock(h.pages[r].btype, ptr - h.pages[r].addr) ==> Kfree(h, ptr) == Freed(KfreeIn(h, r, ptr))
  {
    forall r | r in h.pages && InPage(h.pages[r], ptr)
      ensures FindPage(h.all, h.pages, ptr) < |h.all| && h.all[FindPage(h.all, h.pages, ptr)] == r
    {
      PageFound(h, r, ptr);
    }
  }

  /** What a successful allocation from page r of type t gives: a consistent allocator, a block of
      that page that was not in use and now is, no other change of use, and freeing it undoes it. */
  ghost predicate Served(h: Heap, k: Alloc, r: nat, t: SizeClass) {
    && Inv(h) && Inv(k.h) && k.ptr != 0
    && r in k.h.pages && k.h.pages[r].btype == t && LiveIn(k.h.pages[r], k.ptr) && !Live(h, k.ptr)
    && (forall a: nat {:trigger Live(k.h, a)} :: a != k.ptr ==> (Live(k.h, a) <==> Live(h, a)))
    && KfreeIn(k.h, r, k.ptr) == h
  }

  lemma TakeFromServes(h: Heap, r: nat)
    requires Inv(h) && r in h.pages && h.pages[r].free != []
    ensures Served(h, TakeFrom(h, r), r, h.pages[r].btype)
  {
    var p, k := h.pages[r], TakeFrom(h, r);
    assert PageAt(h, r);
    TailOk(p);
    var p' := p.(free := p.free[1..]);
    SetPageInv(h, r, p');
    TakeFromUndone(h, r);
    assert IsBlock(p.btype, p.free[0]);
    if q :| q in h.pages && LiveIn(h.pages[q], k.ptr) {
      LivePage(h, k.ptr, r, q);
    }
    TakeFromSpares(h, r);
  }

  lemma TakeFromUndone(h: Heap, r: nat)
    requires |h.bysize| == NSIZES && r in h.pages && h.pages[r].free != [] && |h.pages[r].free| < Blocks(h.pages[r].btype)
    ensures r in TakeFrom(h, r).h.pages && KfreeIn(TakeFrom(h, r).h, r, TakeFrom(h, r).ptr) == h
  {
    var p := h.pages[r];
    assert [p.free[0]] + p.free[1..] == p.free;
    assert h.pages[r := p.(free := p.free[1..])][r := p] == h.pages;
  }

  lemma TakeFromSpares(h: Heap, r: nat)
    requires Inv(h) && r in h.pages && h.pages[r].free != []
    ensures forall a: nat :: a != TakeFrom(h, r).ptr ==> (Live(TakeFrom(h, r).h, a) <==> Live(h, a))
  {
    var p, k := h.pages[r], TakeFrom(h, r);
    assert PageAt(h, r);
    assert [p.free[0]] + p.free[1..] == p.free;
    assert h.pages - {r} == k.h.pages - {r};
    forall a: nat | a != k.ptr
      ensures Live(k.h, a) <==> Live(h, a)
    {
      LiveElsewhere(h, k.h, r, a);
    }
  }

  /** A fresh page whose only block in use is freed is taken off both lists again. */
  lemma DropUndoesAdd(h: Heap, r: nat, t: SizeClass, kpage: nat)
    requires |h.bysize| == NSIZES && r !in h.pages
    ensures KfreeIn(TakeFresh(h, r, t, kpage).h, r, kpage + FullList(t)[0]) == h
  {
    var p := Page(kpage, t, FullList(t));
    assert [p.free[0]] + p.free[1..] == p.free;
    assert h.pages[r := p][r := p.(free := p.free[1..])][r := p] - {r} == h.pages;
    assert Without([r] + h.all, r) == h.all && Without([r] + h.bysize[t], r) == h.bysize[t];
    assert h.bysize[t := [r] + h.bysize[t]][t := h.bysize[t]] == h.bysize;
  }

  lemma TakeFreshShape(h: Heap, r: nat, t: SizeClass, kpage: nat)
    requires |h.bysize| == NSIZES
    ensures TakeFresh(h, r, t, kpage) ==
            Alloc(Heap(h.pages[r := Page(kpage, t, FullList(t)[1..])], [r] + h.all, h.bysize[t := [r] + h.bysize[t]]),
                  kpage + FullList(t)[0])
  {
  }

  lemma FreshLive(h: Heap, h': Heap, r: nat, t: SizeClass, kpage: nat, a: nat)
    requires r !in h.pages && h'.pages == h.pages[r := Page(kpage, t, FullList(t)[1..])] && a != kpage + FullList(t)[0]
    ensures Live(h', a) <==> Live(h, a)
  {
    FreshPageIdle(t, kpage, a);
    assert FullList(t) == [FullList(t)[0]] + FullList(t)[1..];
    assert h.pages - {r} == h'.pages - {r};
    LiveElsewhere(h, h', r, a);
  }

  lemma TakeFreshServes(h: Heap, r: nat, t: SizeClass, kpage: nat)
    requires Inv(h) && r !in h.pages && r < NPAGEREFS && kpage != 0 && FreshPage(h, kpage)
    ensures Served(h, TakeFresh(h, r, t, kpage), r, t)
  {
    var k := TakeFresh(h, r, t, kpage);
    DropUndoesAdd(h, r, t, kpage);
    TakeFreshShape(h, r, t, kpage);
    var p := Page(kpage, t, FullList(t)[1..]);
    FreshPageOk(t, kpage);
    NewPageInv(h, r, p);
    if q :| q in h.pages && LiveIn(h.pages[q], k.ptr) {
      assert PageAt(h, q);
      PagesApart(p, h.pages[q], k.ptr);
    }
    forall a: nat | a != k.ptr
      ensures Live(k.h, a) <==> Live(h, a)
    {
      FreshLive(h, k.h, r, t, kpage, a);
    }
  }

  ghost predicate NoSpace(h: Heap, t: SizeClass) {
    forall q :: q in h.pages && h.pages[q].btype == t ==> h.pages[q].free == []
  }

  lemma NoneWithSpace(h: Heap, t: SizeClass)
    requires Inv(h) && FirstWithSpace(h.bysize[t], h.pages) == |h.bysize[t]|
    ensures NoSpace(h, t)
  {
    forall q | q in h.pages && h.pages[q].btype == t
      ensures h.pages[q].free == []
    {
      assert ListAt(h, t) && q in h.bysize[t];
    }
  }

  /** A page that was not there before is kpage, at the lowest reference not in use, and was needed. */
  ghost predicate NewOnlyIf(h: Heap, h': Heap, r: nat, t: SizeClass, kpage: nat) {
    r in h'.pages && r !in h.pages ==>
      h'.pages[r].addr == kpage && r < NPAGEREFS && (forall q :: 0 <= q < r ==> q in h.pages) && NoSpace(h, t)
  }

  /** A request is served from a page of the smallest type that fits, a new one at the lowest unused
      reference only when none of that type has space. It fails only when there is no reference or page
      for a new one. */
  lemma KmallocServes(h: Heap, sz: nat, kpage: nat) returns (r: nat)
    requires Inv(h) && sz <= LARGEST_SUBPAGE_SIZE && FreshPage(h, kpage)
    ensures var k, t := Kmalloc(h, sz, kpage), BlockType(sz);
            if k.ptr != 0 then Served(h, k, r, t) && NewOnlyIf(h, k.h, r, t, kpage)
            else k.h == h && (kpage == 0 || forall q :: 0 <= q < NPAGEREFS ==> q in h.pages) && NoSpace(h, t)
  {
    var t := BlockType(sz);
    var list := h.bysize[t];
    var k := FirstWithSpace(list, h.pages);
    if k < |list| {
      r := list[k];
      assert ListAt(h, t) && r in h.bysize[t];
      TakeFromServes(h, r);
    } else {
      r := LowestFree(h.pages);
      NoneWithSpace(h, t);
      if r < NPAGEREFS && kpage != 0 {
        TakeFreshServes(h, r, t, kpage);
      }
    }
  }

  lemma KmallocKeepsInv(h: Heap, sz: nat, kpage: nat)
    requires Inv(h) && sz <= LARGEST_SUBPAGE_SIZE && FreshPage(h, kpage)
    ensures Inv(Kmalloc(h, sz, kpage).h)
  {
    var r := KmallocServes(h, sz, kpage);
  }

  /** Freeing at once what was just allocated restores the allocator exactly: free-list order,
      counts, both page lists and the page references in use, also when a fresh page was made. */
  lemma KfreeUndoesKmalloc(h: Heap, sz: nat, kpage: nat)
    requires Inv(h) && sz <= LARGEST_SUBPAGE_SIZE && FreshPage(h, kpage) && Kmalloc(h, sz, kpage).ptr != 0
    ensures Inv(Kmalloc(h, sz, kpage).h)
    ensures Kfree(Kmalloc(h, sz, kpage).h, Kmalloc(h, sz, kpage).ptr) == Freed(h)
  {
    var r := KmallocServes(h, sz, kpage);
    var k := Kmalloc(h, sz, kpage);
    KfreeFinds(k.h, r, k.ptr);
  }

  // ---------------------------------------------------------------- every run

  /** A request for sz bytes with kpage on offer from alloc_kpages, or the return of a pointer. */
  datatype Op = Get(sz: nat, kpage: nat) | Put(ptr: nat)

  /** The allocator and the pointers a client holds: it returns only pointers it holds. */
  datatype World = World(h: Heap, held: set<nat>)

  ghost predicate Allowed(w: World, op: Op) {
    if op.Get? then op.sz <= LARGEST_SUBPAGE_SIZE && FreshPage(w.h, op.kpage) else op.ptr in w.held
  }

  ghost function Do(w: World, op: Op): World
    requires Inv(w.h) && Allowed(w, op)
  {
    match op
    case Get(sz, kpage) =>
      var k := Kmalloc(w.h, sz, kpage);
      World(k.h, if k.ptr == 0 then w.held else w.held + {k.ptr})
    case Put(ptr) =>
      var f := Kfree(w.h, ptr);
      if f.Freed? then World(f.h, w.held - {ptr}) else w
  }

  /** The blocks in use are exactly the pointers held. */
  ghost predicate WorldInv(w: World) {
    Inv(w.h) && forall a: nat :: a in w.held <==> Live(w.h, a)
  }

  lemma DoKeepsInv(w: World, op: Op)
    requires WorldInv(w) && Allowed(w, op)
    ensures WorldInv(Do(w, op))
    ensures op.Put? ==> Kfree(w.h, op.ptr).Freed?
  {
    match op
    case Get(sz, kpage) =>
      var r := KmallocServes(w.h, sz, kpage);
    case Put(ptr) =>
      var r :| r in w.h.pages && LiveIn(w.h.pages[r], ptr);
      KfreeKeepsInv(w.h, ptr, r);
      KfreeFinds(w.h, r, ptr);
      forall a: nat
        ensures Live(KfreeIn(w.h, r, ptr), a) <==> Live(w.h, a) && a != ptr
      {
        KfreeLive(w.h, r, ptr, a);
      }
  }

  ghost predicate Next(w: World, op: Op, w': World) {
    Inv(w.h) && Allowed(w, op) && w' == Do(w, op)
  }

  ghost predicate Run(ws: seq<World>, ops: seq<Op>) {
    && |ws| == |ops| + 1
    && forall i, j {:trigger ops[i], ws[j]} :: 0 <= i < |ops| && j == i + 1 ==> Next(ws[i], ops[i], ws[j])
  }

  /** Between the calls of any run: free lists, page lists and page references are consistent, and
      the blocks in use are exactly those handed out and not yet returned. */
  lemma {:induction false} RunKeepsInv(ws: seq<World>, ops: seq<Op>)
    requires Run(ws, ops) && WorldInv(ws[0])
    ensures forall i :: 0 <= i < |ws| ==> WorldInv(ws[i])
  {
    if |ops| > 0 {
      var n := |ops| - 1;
      var init, pre := ws[..n + 1], ops[..n];
      assert Run(init, pre);
      RunKeepsInv(init, pre);
      assert WorldInv(init[n]) && init[n] == ws[n] && Next(ws[n], ops[n], ws[n + 1]);
      DoKeepsInv(ws[n], ops[n]);
      assert forall i :: 0 <= i <= n ==> ws[i] == init[i];
    }
  }
}
