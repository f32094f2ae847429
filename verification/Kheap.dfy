/** The subpage allocator's own data: page references linked into two intrusive lists, free lists
    threaded through the free blocks in memory. Page references are indices; -1 is NULL. */
module Kheap {
  import opened Subpages
  import opened WordBits

  const NULL := -1
  const INVALID_OFFSET := 0xffff

  /** struct pageref. */
  datatype PageRef = PageRef(nextSame: int, nextAll: int, pab: nat, freeOff: nat, nfree: nat) {
    function PageAddr(): nat { pab - pab % PAGE_SIZE }
    function BlockTypeBits(): nat { pab % PAGE_SIZE }
    function Next(all: bool): int { if all then nextAll else nextSame }
  }

  /** MKPAB: a page address and a block type share one word and can both be read back. */
  function Mkpab(addr: nat, t: nat): nat { addr - addr % PAGE_SIZE + t % PAGE_SIZE }

  lemma MkpabReadsBack(addr: nat, t: nat)
    requires addr % PAGE_SIZE == 0 && t < PAGE_SIZE
    ensures var m := Mkpab(addr, t); m - m % PAGE_SIZE == addr && m % PAGE_SIZE == t
  {
  }

  function At(refs: seq<nat>, i: nat): int { if i < |refs| then refs[i] else NULL }

  ghost predicate LinkAt(prs: seq<PageRef>, refs: seq<nat>, all: bool, i: int)
    requires 0 <= i < |refs|
  {
    refs[i] < |prs| && prs[refs[i]].Next(all) == At(refs, i + 1)
  }

  /** Following next pointers from base visits refs, in order. */
  ghost predicate Linked(prs: seq<PageRef>, base: int, refs: seq<nat>, all: bool) {
    base == At(refs, 0) && forall i {:trigger LinkAt(prs, refs, all, i)} :: 0 <= i < |refs| ==> LinkAt(prs, refs, all, i)
  }

  ghost predicate ChainAt(mem: map<nat, nat>, addr: nat, free: seq<nat>, i: int)
    requires 0 <= i < |free|
  {
    && free[i] < PAGE_SIZE && addr + free[i] in mem
    && mem[addr + free[i]] == (if i + 1 < |free| then addr + free[i + 1] else 0)
  }

  /** The first word of each free block points to the next one. */
  ghost predicate Chain(mem: map<nat, nat>, addr: nat, free: seq<nat>) {
    forall i {:trigger ChainAt(mem, addr, free, i)} :: 0 <= i < |free| ==> ChainAt(mem, addr, free, i)
  }

  ghost predicate PageRep(prs: seq<PageRef>, mem: map<nat, nat>, r: nat, p: Page) {
    && r < |prs| && p.addr > 0 && p.addr % PAGE_SIZE == 0
    && prs[r].pab == p.addr + p.btype
    && prs[r].nfree == |p.free|
    && prs[r].freeOff == (if p.free == [] then INVALID_OFFSET else p.free[0])
    && Chain(mem, p.addr, p.free)
  }

  ghost predicate RepAt(h: Heap, prs: seq<PageRef>, mem: map<nat, nat>, r: nat)
    requires r in h.pages
  {
    PageRep(prs, mem, r, h.pages[r])
  }

  /** The static data represent h. */
  ghost predicate Rep(h: Heap, prs: seq<PageRef>, inuse: seq<bool>, sizebases: seq<int>, allbase: int, mem: map<nat, nat>) {
    && |prs| == |inuse| == NPAGEREFS && |sizebases| == |h.bysize| == NSIZES
    && (forall r {:trigger RepAt(h, prs, mem, r)} :: r in h.pages ==> RepAt(h, prs, mem, r))
    && Linked(prs, allbase, h.all, true)
    && (forall t {:trigger Linked(prs, sizebases[t], h.bysize[t], false)} ::
          0 <= t < NSIZES ==> Linked(prs, sizebases[t], h.bysize[t], false))
    && (forall r :: 0 <= r < NPAGEREFS ==> (inuse[r] <==> r in h.pages))
  }

  // ---------------------------------------------------------------- lists

  /** Changing other fields, or references not listed, leaves a list alone. */
  lemma LinkedFrame(prs: seq<PageRef>, prs': seq<PageRef>, base: int, refs: seq<nat>, all: bool)
    requires Linked(prs, base, refs, all) && |prs'| == |prs|
    requires forall i :: 0 <= i < |refs| && refs[i] < |prs| ==> prs'[refs[i]].Next(all) == prs[refs[i]].Next(all)
    ensures Linked(prs', base, refs, all)
  {
    forall i | 0 <= i < |refs|
      ensures LinkAt(prs', refs, all, i)
    {
      assert LinkAt(prs, refs, all, i);
    }
  }

  lemma {:induction false} WithoutAt(s: seq<nat>, k: nat)
    requires Distinct(s) && k < |s|
    ensures Without(s, s[k]) == s[..k] + s[k + 1..]
  {
    if k > 0 {
      var rest := s[1..];
      WithoutAt(rest, k - 1);
      assert rest[k - 1] == s[k] && rest[k..] == s[k + 1..];
      assert s[..k] == [s[0]] + rest[..k - 1];
    }
  }

  /** out is refs without its k-th element. */
  ghost predicate Drops(refs: seq<nat>, out: seq<nat>, k: nat) {
    && k < |refs| == |out| + 1
    && forall i {:trigger out[i]} :: 0 <= i < |out| ==> out[i] == refs[if i < k then i else i + 1]
  }

  lemma UnlinkLink(prs: seq<PageRef>, prs': seq<PageRef>, refs: seq<nat>, out: seq<nat>, all: bool, k: nat, i: nat)
    requires Drops(refs, out, k) && Distinct(refs) && |prs'| == |prs| && i < |out|
    requires LinkAt(prs, refs, all, if i < k then i else i + 1)
    requires forall r :: 0 <= r < |prs| ==>
                           prs'[r].Next(all) == if k > 0 && r == refs[k - 1] then At(refs, k + 1) else prs[r].Next(all)
    ensures LinkAt(prs', out, all, i)
  {
    assert out[i] == refs[if i < k then i else i + 1];
    if i + 1 < |out| {
      assert out[i + 1] == refs[if i + 1 < k then i + 1 else i + 2];
    }
  }

  /** Pointing the k-th link past its reference takes that reference off the list. */
  lemma UnlinkAt(prs: seq<PageRef>, prs': seq<PageRef>, base: int, base': int, refs: seq<nat>, all: bool, k: nat)
    requires Linked(prs, base, refs, all) && Distinct(refs) && k < |refs| && |prs'| == |prs|
    requires base' == (if k == 0 then At(refs, 1) else base)
    requires forall r :: 0 <= r < |prs| ==>
                           prs'[r].Next(all) == if k > 0 && r == refs[k - 1] then At(refs, k + 1) else prs[r].Next(all)
    ensures Linked(prs', base', Without(refs, refs[k]), all)
  {
    WithoutAt(refs, k);
    var out := Without(refs, refs[k]);
    assert Drops(refs, out, k);
    forall i | 0 <= i < |out|
      ensures LinkAt(prs', out, all, i)
    {
      assert LinkAt(prs, refs, all, if i < k then i else i + 1);
      UnlinkLink(prs, prs', refs, out, all, k, i);
    }
  }

  /** A new head in front of a list. */
  lemma LinkHead(prs: seq<PageRef>, prs': seq<PageRef>, base: int, refs: seq<nat>, all: bool, r: nat)
    requires Linked(prs, base, refs, all) && r !in refs && r < |prs| == |prs'|
    requires prs'[r].Next(all) == base
    requires forall q :: 0 <= q < |prs| && q != r ==> prs'[q].Next(all) == prs[q].Next(all)
    ensures Linked(prs', r, [r] + refs, all)
  {
    var s := [r] + refs;
    forall i | 0 <= i < |s|
      ensures LinkAt(prs', s, all, i)
    {
      if i > 0 {
        assert LinkAt(prs, refs, all, i - 1);
      }
    }
  }

  // ---------------------------------------------------------------- free lists

  lemma ChainTail(mem: map<nat, nat>, addr: nat, free: seq<nat>)
    requires Chain(mem, addr, free) && free != []
    ensures Chain(mem, addr, free[1..])
  {
    forall i | 0 <= i < |free| - 1
      ensures ChainAt(mem, addr, free[1..], i)
    {
      assert ChainAt(mem, addr, free, i + 1);
    }
  }

  lemma ChainPush(mem: map<nat, nat>, mem': map<nat, nat>, addr: nat, free: seq<nat>, off: nat)
    requires Chain(mem, addr, free) && off < PAGE_SIZE
    requires addr + off in mem' && mem'[addr + off] == if free == [] then 0 else addr + free[0]
    requires forall i :: 0 <= i < |free| && addr + free[i] in mem ==> addr + free[i] in mem' && mem'[addr + free[i]] == mem[addr + free[i]]
    ensures Chain(mem', addr, [off] + free)
  {
    var s := [off] + free;
    forall i | 0 <= i < |s|
      ensures ChainAt(mem', addr, s, i)
    {
      if i > 0 {
        assert ChainAt(mem, addr, free, i - 1);
      }
    }
  }

  // ---------------------------------------------------------------- representation steps

  /** Rewriting page r's counts, free list and blocks represents h with page r replaced. */
  lemma RepSetPage(h: Heap, r: nat, p: Page, prs: seq<PageRef>, prs': seq<PageRef>, inuse: seq<bool>, sizebases: seq<int>, allbase: int,
                   mem: map<nat, nat>, mem': map<nat, nat>)
    requires Rep(h, prs, inuse, sizebases, allbase, mem) && r in h.pages && r < |prs| == |prs'|
    requires forall q :: 0 <= q < |prs| ==>
               prs'[q].nextAll == prs[q].nextAll && prs'[q].nextSame == prs[q].nextSame && (q != r ==> prs'[q] == prs[q])
    requires PageRep(prs', mem', r, p)
    requires forall q {:trigger h.pages[q]} :: q in h.pages && q != r ==> Chain(mem', h.pages[q].addr, h.pages[q].free)
    ensures Rep(h.(pages := h.pages[r := p]), prs', inuse, sizebases, allbase, mem')
  {
    var h' := h.(pages := h.pages[r := p]);
    forall q | q in h'.pages
      ensures RepAt(h', prs', mem', q)
    {
      assert RepAt(h, prs, mem, q);
    }
    LinkedFrame(prs, prs', allbase, h.all, true);
    forall t | 0 <= t < NSIZES
      ensures Linked(prs', sizebases[t], h.bysize[t], false)
    {
      LinkedFrame(prs, prs', sizebases[t], h.bysize[t], false);
    }
  }

  /** Filling in reference r and making it the head of both lists represents h with the page added. */
  lemma RepAddPage(h: Heap, r: nat, p: Page, prs: seq<PageRef>, prs': seq<PageRef>, inuse: seq<bool>, inuse': seq<bool>,
                   sizebases: seq<int>, sizebases': seq<int>, allbase: int, mem: map<nat, nat>, mem': map<nat, nat>)
    requires Inv(h) && Rep(h, prs, inuse, sizebases, allbase, mem) && r !in h.pages && r < |prs| == |prs'|
    requires forall q :: 0 <= q < |prs| && q != r ==> prs'[q] == prs[q]
    requires prs'[r].nextAll == allbase && prs'[r].nextSame == sizebases[p.btype]
    requires inuse' == inuse[r := true] && sizebases' == sizebases[p.btype := r]
    requires PageRep(prs', mem', r, p)
    requires forall q {:trigger h.pages[q]} :: q in h.pages ==> Chain(mem', h.pages[q].addr, h.pages[q].free)
    ensures Rep(Heap(h.pages[r := p], [r] + h.all, h.bysize[p.btype := [r] + h.bysize[p.btype]]), prs', inuse', sizebases', r, mem')
  {
    var h' := Heap(h.pages[r := p], [r] + h.all, h.bysize[p.btype := [r] + h.bysize[p.btype]]);
    forall q | q in h'.pages
      ensures RepAt(h', prs', mem', q)
    {
      if q != r { assert RepAt(h, prs, mem, q); }
    }
    LinkHead(prs, prs', allbase, h.all, true, r);
    forall t | 0 <= t < NSIZES
      ensures Linked(prs', sizebases'[t], h'.bysize[t], false)
    {
      assert ListAt(h, t) && r !in h.bysize[t];
      assert Linked(prs, sizebases[t], h.bysize[t], false);
      if t == p.btype {
        LinkHead(prs, prs', sizebases[t], h.bysize[t], false, r);
      } else {
        LinkedFrame(prs, prs', sizebases[t], h.bysize[t], false);
      }
    }
  }

  /** Unlinking reference r from both lists and clearing its bit represents h without the page. */
  lemma RepDropPage(h: Heap, r: nat, prs: seq<PageRef>, prs': seq<PageRef>, inuse: seq<bool>, inuse': seq<bool>,
                    sizebases: seq<int>, sizebases': seq<int>, allbase: int, allbase': int, mem: map<nat, nat>)
    requires Rep(h, prs, inuse, sizebases, allbase, mem) && r in h.pages && |prs'| == |prs| && |sizebases'| == NSIZES
    requires forall q :: 0 <= q < |prs| ==> SameButLinks(prs[q], prs'[q])
    requires Linked(prs', allbase', Without(h.all, r), true)
    requires var t := h.pages[r].btype;
             && Linked(prs', sizebases'[t], Without(h.bysize[t], r), false)
             && forall u :: 0 <= u < NSIZES && u != t ==> sizebases'[u] == sizebases[u] && Linked(prs', sizebases[u], h.bysize[u], false)
    requires r < NPAGEREFS && inuse' == inuse[r := false]
    ensures Rep(DropPage(h, r), prs', inuse', sizebases', allbase', mem)
  {
    var h' := DropPage(h, r);
    forall q | q in h'.pages
      ensures RepAt(h', prs', mem, q)
    {
      assert RepAt(h, prs, mem, q);
    }
  }

  ghost predicate SameButLinks(a: PageRef, b: PageRef) {
    a.pab == b.pab && a.freeOff == b.freeOff && a.nfree == b.nfree
  }

  /** Writes inside one page do not disturb the free list of another. */
  lemma OtherPageChain(p: Page, addr: nat, mem: map<nat, nat>, mem': map<nat, nat>)
    requires p.addr % PAGE_SIZE == 0 && addr % PAGE_SIZE == 0 && p.addr != addr && Chain(mem, p.addr, p.free)
    requires forall a :: a in mem && !(addr <= a < addr + PAGE_SIZE) ==> a in mem' && mem'[a] == mem[a]
    ensures Chain(mem', p.addr, p.free)
  {
    forall i | 0 <= i < |p.free|
      ensures ChainAt(mem', p.addr, p.free, i)
    {
      assert ChainAt(mem, p.addr, p.free, i);
      if addr <= p.addr + p.free[i] < addr + PAGE_SIZE {
        PagesApart(p, Page(addr, p.btype, []), p.addr + p.free[i]);
      }
    }
  }

  /** The lowest n blocks of a page, highest first. */
  ghost function Lowest(t: SizeClass, n: nat): (s: seq<nat>)
    requires n <= Blocks(t)
    ensures |s| == n && forall i {:trigger s[i]} :: 0 <= i < n ==> s[i] == FullList(t)[Blocks(t) - n + i]
  {
    FullList(t)[Blocks(t) - n..]
  }

  lemma LowestNext(t: SizeClass, n: nat)
    requires 0 < n < Blocks(t)
    ensures Lowest(t, n + 1) == [n * Size(t)] + Lowest(t, n) && Lowest(t, n)[0] == (n - 1) * Size(t)
    ensures n * Size(t) !in Lowest(t, n)
  {
    FullListOk(t);
    assert FullList(t)[Blocks(t) - 1 - n] == n * Size(t);
  }

  lemma LowestPush(mem: map<nat, nat>, kpage: nat, t: SizeClass, n: nat)
    requires 0 < n < Blocks(t) && Chain(mem, kpage, Lowest(t, n))
    ensures Chain(mem[kpage + n * Size(t) := kpage + (n - 1) * Size(t)], kpage, Lowest(t, n + 1))
    ensures n * Size(t) < PAGE_SIZE
  {
    MulBlock(t, n);
    LowestNext(t, n);
    ChainPush(mem, mem[kpage + n * Size(t) := kpage + (n - 1) * Size(t)], kpage, Lowest(t, n), n * Size(t));
  }

  lemma LowestEnds(t: SizeClass)
    ensures Lowest(t, 1) == [0] && Lowest(t, Blocks(t)) == FullList(t)
  {
    assert FullList(t)[Blocks(t) - 1] == 0;
  }

  /** Blocks of one page do not overlap, so writing one block leaves the others' links alone. */
  lemma SamePageChain(p: Page, off: nat, mem: map<nat, nat>, mem': map<nat, nat>)
    requires PageOk(p) && Chain(mem, p.addr, p.free) && IsBlock(p.btype, off) && off !in p.free
    requires forall a :: a in mem && !(p.addr + off <= a < p.addr + off + Size(p.btype)) ==> a in mem' && mem'[a] == mem[a]
    ensures Chain(mem', p.addr, p.free)
  {
    forall i | 0 <= i < |p.free|
      ensures ChainAt(mem', p.addr, p.free, i)
    {
      assert ChainAt(mem, p.addr, p.free, i);
      BlocksApart(p.btype, off, p.free[i]);
    }
  }

  lemma BlocksApart(t: SizeClass, a: nat, b: nat)
    requires IsBlock(t, a) && IsBlock(t, b) && a != b
    ensures !(a <= b < a + Size(t))
  {
    BlockIndex(t, a);
    BlockIndex(t, b);
    if a < b {
      GridApart(a / Size(t), b / Size(t), Size(t));
    }
  }

  lemma FirstWithSpaceIs(list: seq<nat>, pages: map<nat, Page>, i: nat, k: nat)
    requires i <= k <= |list| && (forall j :: i <= j < k ==> list[j] in pages && pages[list[j]].free == [])
    requires k < |list| ==> list[k] in pages && pages[list[k]].free != []
    ensures FirstWithSpace(list, pages, i) == k
    decreases k - i
  {
    if i < k { FirstWithSpaceIs(list, pages, i + 1, k); }
  }

  lemma FindPageIs(list: seq<nat>, pages: map<nat, Page>, a: int, i: nat, k: nat)
    requires i <= k <= |list| && (forall j :: i <= j < k ==> list[j] in pages && !InPage(pages[list[j]], a))
    requires k < |list| ==> list[k] in pages && InPage(pages[list[k]], a)
    ensures FindPage(list, pages, a, i) == k
    decreases k - i
  {
    if i < k { FindPageIs(list, pages, a, i + 1, k); }
  }

  datatype Outcome = MinusOne | Zero | Panic

  /** References on another size list are not on list t. */
  lemma OtherListFrame(h: Heap, prs: seq<PageRef>, prs': seq<PageRef>, base: int, t: nat, u: nat)
    requires ListsOk(h) && t < NSIZES && u < NSIZES && t != u && Linked(prs, base, h.bysize[u], false) && |prs'| == |prs|
    requires forall q {:trigger prs'[q]} :: 0 <= q < |prs| && q !in h.bysize[t] ==> prs'[q] == prs[q]
    ensures Linked(prs', base, h.bysize[u], false)
  {
    assert ListAt(h, t) && ListAt(h, u);
    forall i | 0 <= i < |h.bysize[u]| && h.bysize[u][i] < |prs|
      ensures prs'[h.bysize[u][i]].Next(false) == prs[h.bysize[u][i]].Next(false)
    {
      assert h.bysize[u][i] in h.bysize[u] && h.bysize[u][i] !in h.bysize[t];
    }
    LinkedFrame(prs, prs', base, h.bysize[u], false);
  }

  lemma SetFreeLists(h: Heap, r: nat, free: seq<nat>)
    requires ListsOk(h) && r in h.pages
    ensures ListsOk(h.(pages := h.pages[r := h.pages[r].(free := free)]))
  {
    var h' := h.(pages := h.pages[r := h.pages[r].(free := free)]);
    forall t | 0 <= t < NSIZES
      ensures ListAt(h', t)
    {
      assert ListAt(h, t);
    }
  }

  /** No word outside the len bytes at ptr differs. */
  ghost predicate Outside(mem: map<nat, nat>, mem': map<nat, nat>, ptr: nat, len: nat) {
    forall a :: a in mem && !(ptr <= a < ptr + len) ==> a in mem' && mem'[a] == mem[a]
  }

  /** Writing inside one block leaves the free lists of all other pages alone. */
  lemma OthersChain(h: Heap, r: nat, off: nat, prs: seq<PageRef>, mem: map<nat, nat>, mem': map<nat, nat>)
    requires Inv(h) && r in h.pages && IsBlock(h.pages[r].btype, off)
    requires forall q {:trigger RepAt(h, prs, mem, q)} :: q in h.pages ==> RepAt(h, prs, mem, q)
    requires Outside(mem, mem', h.pages[r].addr + off, Size(h.pages[r].btype))
    ensures forall q {:trigger h.pages[q]} :: q in h.pages && q != r ==> Chain(mem', h.pages[q].addr, h.pages[q].free)
  {
    var p := h.pages[r];
    assert PageAt(h, r);
    BlockEnds(p.btype, off);
    forall q | q in h.pages && q != r
      ensures Chain(mem', h.pages[q].addr, h.pages[q].free)
    {
      assert RepAt(h, prs, mem, q) && PageAt(h, q) && Apart(h, r, q);
      OtherPageChain(h.pages[q], p.addr, mem, mem');
    }
  }

  /** The word at a, in block b of page r, is as it was if the block is in use and not spare. */
  ghost predicate KeptAt(h: Heap, mem: map<nat, nat>, mem': map<nat, nat>, spare: nat, r: nat, b: nat, a: nat) {
    r in h.pages && LiveIn(h.pages[r], b) && b != spare && b <= a < b + Size(h.pages[r].btype) && a in mem ==>
      a in mem' && mem'[a] == mem[a]
  }

  /** No word of a block in use differs, but for those of the block spare. */
  ghost predicate DataKept(h: Heap, mem: map<nat, nat>, mem': map<nat, nat>, spare: nat) {
    forall r: nat, b: nat, a: nat {:trigger KeptAt(h, mem, mem', spare, r, b, a)} :: KeptAt(h, mem, mem', spare, r, b, a)
  }

  /** Writing a page that is not in the heap spares all data. */
  lemma FreshSpares(h: Heap, kpage: nat, mem: map<nat, nat>, mem': map<nat, nat>)
    requires Inv(h) && FreshPage(h, kpage) && Outside(mem, mem', kpage, PAGE_SIZE)
    ensures DataKept(h, mem, mem', 0)
  {
    forall r: nat, b: nat, a: nat
      ensures KeptAt(h, mem, mem', 0, r, b, a)
    {
      if r in h.pages && LiveIn(h.pages[r], b) && b <= a < b + Size(h.pages[r].btype) {
        assert PageAt(h, r);
        BlockEnds(h.pages[r].btype, b - h.pages[r].addr);
        PageEnds(kpage, h.pages[r].addr, a);
      }
    }
  }

  /** Writing a block in use spares the data of all others. */
  lemma BlockSpares(h: Heap, q: nat, ptr: nat, mem: map<nat, nat>, mem': map<nat, nat>)
    requires Inv(h) && q in h.pages && LiveIn(h.pages[q], ptr) && Outside(mem, mem', ptr, Size(h.pages[q].btype))
    ensures DataKept(h, mem, mem', ptr)
  {
    forall r: nat, b: nat, a: nat
      ensures KeptAt(h, mem, mem', ptr, r, b, a)
    {
      if r in h.pages && LiveIn(h.pages[r], b) && b != ptr {
        if b < ptr { LiveDisjoint(h, b, ptr, r, q); } else { LiveDisjoint(h, ptr, b, q, r); }
      }
    }
  }

  /** Such a write breaks no free list. */
  lemma BlockWriteRep(h: Heap, q: nat, ptr: nat, prs: seq<PageRef>, mem: map<nat, nat>, mem': map<nat, nat>)
    requires Inv(h) && q in h.pages && LiveIn(h.pages[q], ptr) && Outside(mem, mem', ptr, Size(h.pages[q].btype))
    requires forall r {:trigger RepAt(h, prs, mem, r)} :: r in h.pages ==> RepAt(h, prs, mem, r)
    ensures forall r {:trigger RepAt(h, prs, mem', r)} :: r in h.pages ==> RepAt(h, prs, mem', r)
  {
    var p := h.pages[q];
    assert PageAt(h, q) && RepAt(h, prs, mem, q);
    SamePageChain(p, ptr - p.addr, mem, mem');
    OthersChain(h, q, ptr - p.addr, prs, mem, mem');
    forall r | r in h.pages
      ensures RepAt(h, prs, mem', r)
    {
      assert RepAt(h, prs, mem, r);
      assert r != q ==> Chain(mem', h.pages[r].addr, h.pages[r].free);
    }
  }

  /** What a page reference says about its page. */
  lemma RefReads(h: Heap, prs: seq<PageRef>, mem: map<nat, nat>, r: nat)
    requires r in h.pages && RepAt(h, prs, mem, r)
    ensures r < |prs| && prs[r].PageAddr() == h.pages[r].addr && prs[r].BlockTypeBits() == h.pages[r].btype
    ensures prs[r].nfree == |h.pages[r].free|
  {
  }

  /** A block pushed on the free list of its page. */
  lemma RepPush(h: Heap, r: nat, off: nat, prs: seq<PageRef>, prs': seq<PageRef>, inuse: seq<bool>, sizebases: seq<int>,
                allbase: int, mem: map<nat, nat>, mem': map<nat, nat>)
    requires Inv(h) && Rep(h, prs, inuse, sizebases, allbase, mem) && r in h.pages && r < |prs|
    requires IsBlock(h.pages[r].btype, off) && off !in h.pages[r].free
    requires prs' == prs[r := prs[r].(freeOff := off, nfree := prs[r].nfree + 1)]
    requires var p := h.pages[r];
             && Outside(mem, mem', p.addr + off, Size(p.btype))
             && p.addr + off in mem' && mem'[p.addr + off] == if p.free == [] then 0 else p.addr + p.free[0]
    ensures var p := h.pages[r];
            Rep(h.(pages := h.pages[r := p.(free := [off] + p.free)]), prs', inuse, sizebases, allbase, mem')
  {
    var p := h.pages[r];
    assert RepAt(h, prs, mem, r) && PageAt(h, r);
    SamePageChain(p, off, mem, mem');
    ChainPush(mem', mem', p.addr, p.free, off);
    OthersChain(h, r, off, prs, mem, mem');
    RepSetPage(h, r, p.(free := [off] + p.free), prs, prs', inuse, sizebases, allbase, mem, mem');
  }

  /** The use of ptr ends and no other; page, if it is not 0, was its page and is none any more. */
  ghost predicate UseEnds(h: Heap, h': Heap, ptr: nat, page: nat) {
    && (forall a :: Live(h', a) <==> Live(h, a) && a != ptr)
    && (page != 0 ==> page <= ptr < page + PAGE_SIZE && forall q :: q in h'.pages ==> h'.pages[q].addr != page)
    && (page == 0 ==> forall q :: q in h.pages ==> q in h'.pages && h'.pages[q].addr == h.pages[q].addr)
  }

  lemma FreedEnds(h: Heap, r: nat, ptr: nat, h': Heap, page: nat)
    requires Inv(h) && r in h.pages && LiveIn(h.pages[r], ptr) && h' == KfreeIn(h, r, ptr)
    requires page == if r in h'.pages then 0 else h.pages[r].addr
    ensures UseEnds(h, h', ptr, page)
  {
    forall a
      ensures Live(h', a) <==> Live(h, a) && a != ptr
    {
      KfreeLive(h, r, ptr, a);
    }
    assert PageAt(h, r);
    forall q | q in h.pages && q != r
      ensures h.pages[q].addr != h.pages[r].addr
    {
      assert Apart(h, r, q);
    }
  }

  /** A free block holds 0xdeadbeef behind its link. */
  ghost predicate Wiped(mem: map<nat, nat>, ptr: nat, size: nat) {
    forall i {:trigger ptr + 4 * i} :: 1 <= i < size / 4 ==> ptr + 4 * i in mem && mem[ptr + 4 * i] == 0xdeadbeef
  }

  const INUSE_WORDS := 8

  class SubpageAllocator {
    var pagerefs: array<PageRef>
    var words: array<bv32>        // pagerefs_inuse
    var sizebases: array<int>
    var allbase: int
    var mem: map<nat, nat>        // words of kernel memory, by address
    ghost var heap: Heap
    ghost var inuse: seq<bool>    // the bits of words

    ghost predicate Apart()
      reads this
    {
      var w: object := words; w != sizebases && w != pagerefs
    }

    ghost predicate RepNow()
      reads this, pagerefs, words, sizebases
    {
      Rep(heap, pagerefs[..], inuse, sizebases[..], allbase, mem) && Holds(words[..], inuse) && Apart()
    }

    ghost predicate Valid()
      reads this, pagerefs, words, sizebases
    {
      Inv(heap) && RepNow()
    }

    /** The kernel's static data, all zero (null) at boot. */
    constructor ()
      ensures Valid() && heap == Heap(map[], [], seq(NSIZES, _ => []))
    {
      pagerefs := new PageRef[NPAGEREFS](_ => PageRef(NULL, NULL, 0, 0, 0));
      words := new bv32[INUSE_WORDS](_ => 0);
      inuse := seq(NPAGEREFS, _ => false);
      sizebases := new int[NSIZES](_ => NULL);
      allbase := NULL;
      mem := map[];
      heap := Heap(map[], [], seq(NSIZES, _ => []));
      new;
      NoFlags(words[..], inuse);
      forall t | 0 <= t < NSIZES
        ensures ListAt(heap, t) && Linked(pagerefs[..], sizebases[..][t], heap.bysize[t], false)
      {
      }
    }

    /** blocktype(): panics exactly for a size no class fits. */
    method BlockTypeOf(sz: nat) returns (panics: bool, t: SizeClass)
      ensures panics <==> sz > LARGEST_SUBPAGE_SIZE
      ensures !panics ==> t == BlockType(sz)
    {
      var i := 0;
      while i < NSIZES
        invariant 0 <= i <= NSIZES && (forall j: SizeClass :: j < i ==> Size(j) < sz)
        invariant sz <= LARGEST_SUBPAGE_SIZE ==> i < NSIZES && BlockType(sz) == BlockType(sz, i)
      {
        if sz <= Size(i) {
          return false, i;
        }
        i := i + 1;
      }
      return true, 0;
    }

    /** Lines 381-406: take the first free block of page reference pr. */
    method DoAlloc(pr: nat) returns (ptr: nat)
      requires RepNow() && pr in heap.pages && heap.pages[pr].free != []
      modifies this`heap, pagerefs
      ensures heap == TakeFrom(old(heap), pr).h && ptr == TakeFrom(old(heap), pr).ptr && RepNow()
    {
      ghost var prs, p := pagerefs[..], heap.pages[pr];
      assert RepAt(heap, prs, mem, pr) && ChainAt(mem, p.addr, p.free, 0);
      assert pagerefs[pr].freeOff < PAGE_SIZE;
      var prpage := pagerefs[pr].PageAddr();
      var fla := prpage + pagerefs[pr].freeOff;
      ptr := fla;
      var fl := mem[fla];
      pagerefs[pr] := pagerefs[pr].(nfree := pagerefs[pr].nfree - 1);
      if fl != 0 {
        assert pagerefs[pr].nfree > 0;
        fla := fl;
        assert fla - prpage < PAGE_SIZE by { assert ChainAt(mem, p.addr, p.free, 1); }
        pagerefs[pr] := pagerefs[pr].(freeOff := fla - prpage);
      } else {
        assert pagerefs[pr].nfree == 0;
        pagerefs[pr] := pagerefs[pr].(freeOff := INVALID_OFFSET);
      }
      ChainTail(mem, p.addr, p.free);
      RepSetPage(heap, pr, p.(free := p.free[1..]), prs, pagerefs[..], inuse, sizebases[..], allbase, mem, mem) by {
        forall q | q in heap.pages && q != pr
          ensures Chain(mem, heap.pages[q].addr, heap.pages[q].free)
        {
          assert RepAt(heap, prs, mem, q);
        }
      }
      heap := Pop(heap, pr);
    }

    /** allocpageref(): claim the lowest reference not in use. */
    method AllocPageRef() returns (r: int)
      requires RepNow()
      modifies words, this`inuse
      ensures r == if LowestFree(heap.pages) == NPAGEREFS then NULL else LowestFree(heap.pages)
      ensures inuse == (if r == NULL then old(inuse) else old(inuse)[r := true]) && Holds(words[..], inuse)
    {
      var k;
      r, k := FirstClear(words, inuse);
      if r == NULL {
        return;
      }
      SetFlag(words, inuse, r, k);
      inuse := inuse[r := true];
    }

    /** freepageref(). */
    method FreePageRef(r: nat)
      requires Holds(words[..], inuse) && r < |inuse| && inuse[r]
      modifies words, this`inuse
      ensures inuse == old(inuse)[r := false] && Holds(words[..], inuse)
    {
      ClearFlag(words, inuse, r);
      inuse := inuse[r := false];
    }

    /** Lines 441-449: thread all blocks of a fresh page on a free list, the highest first. */
    method FormatPage(kpage: nat, t: SizeClass) returns (last: nat)
      modifies this`mem
      ensures Chain(mem, kpage, FullList(t)) && last == kpage + FullList(t)[0]
      ensures Outside(old(mem), mem, kpage, PAGE_SIZE)
    {
      var z, n := Size(t), Blocks(t);
      last := kpage;
      mem := mem[last := 0];
      LowestEnds(t);
      assert Chain(mem, kpage, [0]) by {
        assert ChainAt(mem, kpage, [0], 0);
      }
      var i := 1;
      while i < n
        invariant 1 <= i <= n && last == kpage + (i - 1) * z && Chain(mem, kpage, Lowest(t, i))
        invariant forall a :: a in old(mem) && !(kpage <= a < kpage + PAGE_SIZE) ==> a in mem && mem[a] == old(mem)[a]
      {
        LowestPush(mem, kpage, t, i);
        mem := mem[kpage + i * z := last];
        last := kpage + i * z;
        i := i + 1;
      }
    }

    /** Lines 373-379: walk the list of size class t to the first page with a free block. */
    method FindSpace(t: SizeClass) returns (pr: int)
      requires Valid()
      ensures var list := heap.bysize[t]; pr == At(list, FirstWithSpace(list, heap.pages))
    {
      ghost var list := heap.bysize[t];
      assert ListAt(heap, t) && Linked(pagerefs[..], sizebases[..][t], list, false);
      pr := sizebases[t];
      ghost var k := 0;
      while pr != NULL
        invariant 0 <= k <= |list| && pr == At(list, k)
        invariant forall j :: 0 <= j < k ==> list[j] in heap.pages && heap.pages[list[j]].free == []
        decreases |list| - k
      {
        assert list[k] in list;
        assert RepAt(heap, pagerefs[..], mem, list[k]) && LinkAt(pagerefs[..], list, false, k);
        assert pagerefs[pr].BlockTypeBits() == t;
        if pagerefs[pr].nfree > 0 {
          break;
        }
        pr := pagerefs[pr].nextSame;
        k := k + 1;
      }
      if k < |list| {
        assert list[k] in list && RepAt(heap, pagerefs[..], mem, list[k]);
      }
      FirstWithSpaceIs(list, heap.pages, 0, k);
    }

    /** Lines 432-457: format the page and put reference pr, just claimed, on both lists. */
    method NewPage(pr: nat, t: SizeClass, kpage: nat, ghost inuse0: seq<bool>)
      requires Inv(heap) && Rep(heap, pagerefs[..], inuse0, sizebases[..], allbase, mem)
      requires pr !in heap.pages && pr < NPAGEREFS && kpage != 0 && FreshPage(heap, kpage) && inuse == inuse0[pr := true]
      requires Holds(words[..], inuse) && Apart()
      modifies this`mem, this`heap, this`allbase, pagerefs, sizebases
      ensures heap == AddPage(old(heap), pr, t, kpage) && RepNow()
      ensures Outside(old(mem), mem, kpage, PAGE_SIZE)
    {
      ghost var prs, sizebases0, mem0, allbase0, words0 := pagerefs[..], sizebases[..], mem, allbase, words[..];
      var last := FormatPage(kpage, t);
      pagerefs[pr] := PageRef(sizebases[t], allbase, Mkpab(kpage, t), last - kpage, Blocks(t));
      assert pagerefs[pr].freeOff == (pagerefs[pr].nfree - 1) * Size(t);
      sizebases[t] := pr;
      allbase := pr;
      assert words[..] == words0;
      ghost var p := Page(kpage, t, FullList(t));
      forall q | q in heap.pages
        ensures Chain(mem, heap.pages[q].addr, heap.pages[q].free)
      {
        assert RepAt(heap, prs, mem0, q) && PageAt(heap, q);
        OtherPageChain(heap.pages[q], kpage, mem0, mem);
      }
      RepAddPage(heap, pr, p, prs, pagerefs[..], inuse0, inuse, sizebases0, sizebases[..], allbase0, mem0, mem);
      heap := AddPage(heap, pr, t, kpage);
    }

    /** Lines 415-457: a reference and a page for it, or NULL with nothing changed. */
    method GetPage(t: SizeClass, kpage: nat) returns (pr: int)
      requires Valid() && FreshPage(heap, kpage)
      modifies this`mem, this`heap, this`allbase, this`inuse, pagerefs, words, sizebases
      ensures pr == if kpage == 0 || LowestFree(old(heap).pages) == NPAGEREFS then NULL else LowestFree(old(heap).pages)
      ensures heap == (if pr == NULL then old(heap) else AddPage(old(heap), pr, t, kpage)) && RepNow()
      ensures Outside(old(mem), mem, kpage, PAGE_SIZE)
    {
      ghost var inuse0, prs, bases := inuse, pagerefs[..], sizebases[..];
      pr := AllocPageRef();
      assert pagerefs[..] == prs && sizebases[..] == bases;
      if pr == NULL {
        return;
      }
      if kpage == 0 {
        FreePageRef(pr);
        assert inuse == inuse0 && pagerefs[..] == prs && sizebases[..] == bases;
        return NULL;
      }
      NewPage(pr, t, kpage, inuse0);
    }

    /** subpage_kmalloc(). kpage is what alloc_kpages(1) returns if it is called. */
    method SubpageKmalloc(sz: nat, kpage: nat) returns (ptr: nat)
      requires Valid() && sz <= LARGEST_SUBPAGE_SIZE && FreshPage(heap, kpage)
      modifies this`mem, this`heap, this`allbase, this`inuse, pagerefs, words, sizebases
      ensures Valid() && heap == Kmalloc(old(heap), sz, kpage).h && ptr == Kmalloc(old(heap), sz, kpage).ptr
      ensures Outside(old(mem), mem, kpage, PAGE_SIZE) && DataKept(old(heap), old(mem), mem, 0)
    {
      ghost var h, mem0 := heap, mem;
      ptr := AllocateBlock(sz, kpage);
      FreshSpares(h, kpage, mem0, mem);
    }

    /** Its body. */
    method AllocateBlock(sz: nat, kpage: nat) returns (ptr: nat)
      requires Valid() && sz <= LARGEST_SUBPAGE_SIZE && FreshPage(heap, kpage)
      modifies this`mem, this`heap, this`allbase, this`inuse, pagerefs, words, sizebases
      ensures Valid() && heap == Kmalloc(old(heap), sz, kpage).h && ptr == Kmalloc(old(heap), sz, kpage).ptr
      ensures Outside(old(mem), mem, kpage, PAGE_SIZE)
    {
      var panics, t := BlockTypeOf(sz);
      assert !panics;
      KmallocKeepsInv(heap, sz, kpage);
      var pr := FindSpace(t);
      if pr != NULL {
        ptr := DoAlloc(pr);
        return;
      }
      pr := GetPage(t, kpage);
      if pr == NULL {
        return 0;
      }
      ptr := DoAlloc(pr);
    }

    /** fill_deadbeef(): overwrite a block, word by word. */
    method FillDeadbeef(ptr: nat, len: nat)
      modifies this`mem
      ensures Outside(old(mem), mem, ptr, len)
      ensures forall i :: 0 <= i < len / 4 ==> ptr + 4 * i in mem && mem[ptr + 4 * i] == 0xdeadbeef
    {
      var i := 0;
      while i < len / 4
        invariant 0 <= i <= len / 4
        invariant forall a :: a in old(mem) && !(ptr <= a < ptr + len) ==> a in mem && mem[a] == old(mem)[a]
        invariant forall j :: 0 <= j < i ==> ptr + 4 * j in mem && mem[ptr + 4 * j] == 0xdeadbeef
      {
        mem := mem[ptr + 4 * i := 0xdeadbeef];
        i := i + 1;
      }
    }

    /** One loop of remove_lists(): take pr off the list at allbase, or at sizebases[t]. guy is the
        reference whose next pointer is looked at, NULL for the base itself. */
    method Unlink(pr: nat, all: bool, t: SizeClass, ghost refs: seq<nat>)
      requires sizebases.Length == NSIZES && Distinct(refs) && pr in refs
      requires Linked(pagerefs[..], if all then allbase else sizebases[t], refs, all)
      modifies this`allbase, pagerefs, sizebases
      ensures |pagerefs[..]| == |old(pagerefs[..])| && |sizebases[..]| == |old(sizebases[..])|
      ensures Linked(pagerefs[..], if all then allbase else sizebases[t], Without(refs, pr), all)
      ensures forall q {:trigger pagerefs[..][q]} :: 0 <= q < pagerefs.Length ==>
                SameButLinks(pagerefs[..][q], old(pagerefs[..])[q]) && pagerefs[..][q].Next(!all) == old(pagerefs[..])[q].Next(!all)
                && (q !in refs ==> pagerefs[..][q] == old(pagerefs[..])[q])
      ensures all ==> sizebases[..] == old(sizebases[..])
      ensures !all ==> allbase == old(allbase) && forall u :: 0 <= u < NSIZES && u != t ==> sizebases[..][u] == old(sizebases[..])[u]
    {
      ghost var prs, base := pagerefs[..], if all then allbase else sizebases[t];
      var guy := NULL;
      var cur := if all then allbase else sizebases[t];
      ghost var k := 0;
      ghost var at :| 0 <= at < |refs| && refs[at] == pr;
      while cur != NULL && cur != pr
        invariant 0 <= k <= at && cur == At(refs, k) && guy == (if k == 0 then NULL else refs[k - 1])
        decreases |refs| - k
      {
        assert LinkAt(prs, refs, all, k);
        guy := cur;
        cur := pagerefs[cur].Next(all);
        k := k + 1;
      }
      assert LinkAt(prs, refs, all, k);
      assert k > 0 ==> LinkAt(prs, refs, all, k - 1);
      var next := pagerefs[pr].Next(all);
      if guy == NULL {
        if all { allbase := next; } else { sizebases[t] := next; }
      } else {
        pagerefs[guy] := if all then pagerefs[guy].(nextAll := next) else pagerefs[guy].(nextSame := next);
        assert refs[k - 1] in refs;
      }
      UnlinkAt(prs, pagerefs[..], base, if all then allbase else sizebases[t], refs, all, k);
    }

    /** remove_lists(), then the bit of the reference cleared by freepageref(). */
    method RemovePage(pr: nat, t: SizeClass)
      requires ListsOk(heap) && RepNow() && pr in heap.pages && pr < NPAGEREFS && heap.pages[pr].btype == t
      modifies this`heap, this`allbase, this`inuse, pagerefs, words, sizebases
      ensures heap == DropPage(old(heap), pr) && RepNow()
    {
      ghost var prs, inuse0, sizebases0, allbase0, words0 := pagerefs[..], inuse, sizebases[..], allbase, words[..];
      assert ListAt(heap, t) && pr in heap.bysize[t] && pr in heap.all;
      assert Linked(prs, sizebases[..][t], heap.bysize[t], false);
      Unlink(pr, false, t, heap.bysize[t]);
      ghost var prs1 := pagerefs[..];
      LinkedFrame(prs, prs1, allbase, heap.all, true);
      forall u | 0 <= u < NSIZES && u != t
        ensures Linked(prs1, sizebases0[u], heap.bysize[u], false)
      {
        OtherListFrame(heap, prs, prs1, sizebases0[u], t, u);
      }
      Unlink(pr, true, t, heap.all);
      forall u | 0 <= u < NSIZES && u != t
        ensures Linked(pagerefs[..], sizebases0[u], heap.bysize[u], false)
      {
        LinkedFrame(prs1, pagerefs[..], sizebases0[u], heap.bysize[u], false);
      }
      LinkedFrame(prs1, pagerefs[..], sizebases[t], Without(heap.bysize[t], pr), false);
      ghost var prs', bases' := pagerefs[..], sizebases[..];
      assert words[..] == words0;
      FreePageRef(pr);
      assert pagerefs[..] == prs' && sizebases[..] == bases';
      RepDropPage(heap, pr, prs, prs', inuse0, inuse, sizebases0, bases', allbase0, allbase, mem);
      heap := DropPage(heap, pr);
    }

    /** Lines 482-493: the page reference whose page contains ptr, or NULL. */
    method FindOwner(ptr: nat) returns (pr: int)
      requires Valid()
      ensures pr == At(heap.all, FindPage(heap.all, heap.pages, ptr))
    {
      ghost var list := heap.all;
      pr := allbase;
      ghost var k := 0;
      while pr != NULL
        invariant 0 <= k <= |list| && pr == At(list, k)
        invariant forall j :: 0 <= j < k ==> list[j] in heap.pages && !InPage(heap.pages[list[j]], ptr)
        decreases |list| - k
      {
        assert list[k] in list;
        assert RepAt(heap, pagerefs[..], mem, list[k]) && LinkAt(pagerefs[..], list, true, k);
        var prpage, blktype := pagerefs[pr].PageAddr(), pagerefs[pr].BlockTypeBits();
        assert 0 <= blktype < NSIZES && prpage == heap.pages[pr].addr;
        if prpage <= ptr < prpage + PAGE_SIZE {
          break;
        }
        pr := pagerefs[pr].nextAll;
        k := k + 1;
      }
      FindPageIs(list, heap.pages, ptr, 0, k);
    }

    /** Lines 512-525: wipe a block and make its first word link to the head of the free list. */
    method WipeAndLink(prpage: nat, offset: nat, freeOff: nat, size: nat)
      requires size >= 4
      modifies this`mem
      ensures Outside(old(mem), mem, prpage + offset, size) && Wiped(mem, prpage + offset, size)
      ensures prpage + offset in mem && mem[prpage + offset] == if freeOff == INVALID_OFFSET then 0 else prpage + freeOff
    {
      var fla := prpage + offset;
      FillDeadbeef(fla, size);
      if freeOff == INVALID_OFFSET {
        mem := mem[fla := 0];
      } else {
        mem := mem[fla := prpage + freeOff];
      }
    }

    /** Lines 508-527: wipe the block and push it on its page's free list. */
    method PushBlock(pr: nat, ptr: nat)
      requires Valid() && pr in heap.pages && LiveIn(heap.pages[pr], ptr)
      modifies this`mem, this`heap, pagerefs
      ensures var p := old(heap).pages[pr]; heap == old(heap).(pages := old(heap).pages[pr := p.(free := [ptr - p.addr] + p.free)])
      ensures RepNow() && ListsOk(heap)
      ensures Outside(old(mem), mem, ptr, Size(old(heap).pages[pr].btype)) && Wiped(mem, ptr, Size(old(heap).pages[pr].btype))
    {
      ghost var prs, mem0, p := pagerefs[..], mem, heap.pages[pr];
      assert RepAt(heap, prs, mem, pr) && PageAt(heap, pr);
      RefReads(heap, prs, mem, pr);
      var prpage := pagerefs[pr].PageAddr();
      var offset := ptr - prpage;
      WipeAndLink(prpage, offset, pagerefs[pr].freeOff, Size(pagerefs[pr].BlockTypeBits()));
      pagerefs[pr] := pagerefs[pr].(freeOff := offset, nfree := pagerefs[pr].nfree + 1);
      RepPush(heap, pr, offset, prs, pagerefs[..], inuse, sizebases[..], allbase, mem0, mem);
      SetFreeLists(heap, pr, [offset] + p.free);
      heap := heap.(pages := heap.pages[pr := p.(free := [offset] + p.free)]);
    }

    /** Lines 508-535: push the block and, if the whole page is free, give the page back. page is what
        free_kpages() is called with, 0 if it is not. */
    method FreeBlock(pr: nat, ptr: nat) returns (page: nat)
      requires Valid() && pr in heap.pages && LiveIn(heap.pages[pr], ptr)
      modifies this`mem, this`heap, this`allbase, this`inuse, pagerefs, words, sizebases
      ensures Valid() && heap == KfreeIn(old(heap), pr, ptr)
      ensures page == if pr in heap.pages then 0 else old(heap).pages[pr].addr
      ensures Outside(old(mem), mem, ptr, Size(old(heap).pages[pr].btype)) && Wiped(mem, ptr, Size(old(heap).pages[pr].btype))
    {
      KfreeKeepsInv(heap, ptr, pr);
      assert PageAt(heap, pr);
      PushBlock(pr, ptr);
      assert RepAt(heap, pagerefs[..], mem, pr);
      RefReads(heap, pagerefs[..], mem, pr);
      var blktype := pagerefs[pr].BlockTypeBits();
      assert pagerefs[pr].nfree <= PAGE_SIZE / Size(blktype);
      page := 0;
      if pagerefs[pr].nfree == PAGE_SIZE / Size(blktype) {
        page := pagerefs[pr].PageAddr();
        RemovePage(pr, blktype);
      }
    }

    /** subpage_kfree(): -1 for an address on none of the pages, 0 when freed, otherwise panic. A
        block already free is not detected by the code and must not be passed. page is what
        free_kpages() is called with: the page of the block if no block of it is in use any more. */
    method SubpageKfree(ptr: nat) returns (rc: Outcome, page: nat)
      requires Valid()
      requires forall r {:trigger heap.pages[r]} :: r in heap.pages && IsBlock(heap.pages[r].btype, ptr - heap.pages[r].addr) ==>
                                                      LiveIn(heap.pages[r], ptr)
      modifies this`mem, this`heap, this`allbase, this`inuse, pagerefs, words, sizebases
      ensures Valid()
      ensures match Kfree(old(heap), ptr)
              case NotMine => rc == MinusOne && heap == old(heap) && mem == old(mem)
              case Misplaced => rc == Panic && heap == old(heap) && mem == old(mem)
              case Freed(h) => rc == Zero && heap == h
      ensures (rc.MinusOne? <==> !OnPage(old(heap), ptr)) && (rc.Panic? <==> OffGrid(old(heap), ptr))
      ensures rc.Zero? ==> UseEnds(old(heap), heap, ptr, page)
      ensures rc.Zero? ==> exists r :: r in old(heap).pages && LiveIn(old(heap).pages[r], ptr) && Wiped(mem, ptr, Size(old(heap).pages[r].btype))
      ensures !rc.Zero? ==> page == 0
      ensures DataKept(old(heap), old(mem), mem, ptr)
    {
      page := 0;
      KfreeIff(heap, ptr);
      var pr := FindOwner(ptr);
      if pr == NULL {
        return MinusOne, 0;
      }
      assert pr in heap.all;
      var placed := WellPlaced(pr, ptr);
      if !placed {
        return Panic, 0;
      }
      page := FreeFound(pr, ptr);
      return Zero, page;
    }

    /** Lines 508-535, and what they leave alone. */
    method FreeFound(pr: nat, ptr: nat) returns (page: nat)
      requires Valid() && pr in heap.pages && LiveIn(heap.pages[pr], ptr)
      modifies this`mem, this`heap, this`allbase, this`inuse, pagerefs, words, sizebases
      ensures Valid() && heap == KfreeIn(old(heap), pr, ptr) && UseEnds(old(heap), heap, ptr, page)
      ensures DataKept(old(heap), old(mem), mem, ptr) && Wiped(mem, ptr, Size(old(heap).pages[pr].btype))
    {
      ghost var h := heap;
      page := FreeBlock(pr, ptr);
      BlockSpares(h, pr, ptr, old(mem), mem);
      FreedEnds(h, pr, ptr, heap, page);
    }

    /** Lines 500-505: the address is that of a block. */
    method WellPlaced(pr: nat, ptr: nat) returns (r: bool)
      requires Valid() && pr in heap.pages && InPage(heap.pages[pr], ptr)
      ensures r <==> IsBlock(heap.pages[pr].btype, ptr - heap.pages[pr].addr)
    {
      assert RepAt(heap, pagerefs[..], mem, pr) && PageAt(heap, pr);
      var prpage, blktype := pagerefs[pr].PageAddr(), pagerefs[pr].BlockTypeBits();
      var offset := ptr - prpage;
      return !(offset >= PAGE_SIZE || offset % Size(blktype) != 0);
    }

    /** A client writes a word of a block it holds: the free lists, which live in the same memory, are
        not touched, and neither is anybody else's data. */
    method Store(ghost r: nat, ghost block: nat, addr: nat, word: nat)
      requires Valid() && r in heap.pages && LiveIn(heap.pages[r], block) && block <= addr < block + Size(heap.pages[r].btype)
      modifies this`mem
      ensures Valid() && mem == old(mem)[addr := word] && DataKept(heap, old(mem), mem, block)
    {
      ghost var mem0 := mem;
      mem := mem[addr := word];
      BlockSpares(heap, r, block, mem0, mem);
      BlockWriteRep(heap, r, block, pagerefs[..], mem0, mem);
    }
  }
}
