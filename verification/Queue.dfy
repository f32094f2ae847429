/** queue.c: a queue of pointers in a ring buffer that doubles when full. */
module Queue {

  const MAXINT := 0x7fff_ffff

  /** What the ring holds when elements are read from nr and written at nw. */
  function Window<T>(data: seq<T>, nr: nat, nw: nat): seq<T>
    requires nr < |data| && nw < |data|
  {
    if nr <= nw then data[nr..nw] else data[nr..] + data[..nw]
  }

  /** The slot after i; the code writes (i + 1) % n. */
  function After(i: nat, n: nat): nat { if i + 1 == n then 0 else i + 1 }

  lemma AfterIsMod(i: nat, n: nat)
    requires i < n
    ensures (i + 1) % n == After(i, n) < n
  {
    if i + 1 < n {
      assert (i + 1) % n == i + 1;
    }
  }

  lemma WindowPut<T>(data: seq<T>, nr: nat, nw: nat, x: T)
    requires nr < |data| && nw < |data| && After(nw, |data|) != nr
    ensures Window(data[nw := x], nr, After(nw, |data|)) == Window(data, nr, nw) + [x]
  {
    var d := data[nw := x];
    if nr <= nw {
      assert d[nr..nw + 1] == data[nr..nw] + [x];
    } else {
      assert d[nr..] == data[nr..] && d[..nw + 1] == data[..nw] + [x];
    }
  }

  lemma WindowTake<T>(data: seq<T>, nr: nat, nw: nat)
    requires nr < |data| && nw < |data| && nr != nw
    ensures Window(data, nr, nw) == [data[nr]] + Window(data, After(nr, |data|), nw)
  {
  }

  lemma FullIff<T>(data: seq<T>, nr: nat, nw: nat)
    requires nr < |data| && nw < |data|
    ensures |Window(data, nr, nw)| < |data|
    ensures After(nw, |data|) == nr <==> |Window(data, nr, nw)| == |data| - 1
  {
  }

  lemma MoveOne<T>(moved: seq<T>, left: seq<T>, all: seq<T>)
    requires moved + left == all && left != []
    ensures (moved + [left[0]]) + left[1..] == all
  {
  }

  class Ring<T(0)> {
    var size: nat
    var nextwrite: nat
    var nextread: nat
    var data: array<T>

    ghost predicate Valid()
      reads this
    {
      0 < size == data.Length <= MAXINT && nextread < size && nextwrite < size
    }

    /** The queued elements, oldest first. */
    ghost function Contents(): (r: seq<T>)
      reads this, data
      requires Valid()
      ensures |r| < size
    {
      Window(data[..], nextread, nextwrite)
    }

    ghost predicate Full()
      reads this, data
      requires Valid()
    {
      |Contents()| == size - 1
    }

    /** q_create() with memory available. */
    constructor (n: nat)
      requires 0 < n <= MAXINT
      ensures Valid() && fresh(data) && Contents() == [] && size == n
    {
      size := n;
      data := new T[n];
      nextread, nextwrite := 0, 0;
    }

    method Empty() returns (r: bool)
      requires Valid()
      ensures r <==> Contents() == []
    {
      r := nextwrite == nextread;
    }

    /** q_grow(), lines 30-35: double until target fits. */
    static method Doubled(size: nat, target: nat) returns (nsize: nat)
      requires 0 < size <= MAXINT && target <= 0x4000_0000
      ensures size <= nsize <= MAXINT && target <= nsize && (target <= size ==> nsize == size)
      ensures nsize == size || nsize < 2 * target
    {
      nsize := size;
      while nsize < target
        invariant size <= nsize <= MAXINT && (target <= size ==> nsize == size) && (nsize == size || nsize < 2 * target)
        decreases target - nsize
      {
        nsize := nsize * 2;
        assert nsize > 0;
      }
    }

    /** q_grow(), lines 44-47: re-add the elements of the old buffer. None of the additions can find
        the new buffer full. */
    method Refill(olddata: array<T>, onr: nat, onw: nat)
      requires Valid() && Contents() == [] && olddata != data && olddata.Length <= size
      requires onr < olddata.Length && onw < olddata.Length
      modifies this, data
      ensures Valid() && Contents() == Window(old(olddata[..]), onr, onw) && size == old(size) && data == old(data)
      decreases 1, 0
    {
      ghost var src := olddata[..];
      ghost var all := Window(src, onr, onw);
      ghost var left := all;
      var i: nat := onr;
      FullIff(src, onr, onw);
      while i != onw
        invariant Valid() && size == old(size) && data == old(data) && olddata[..] == src && i < |src|
        invariant left == Window(src, i, onw)
        invariant Contents() + left == all
        decreases |left|
      {
        WindowTake(src, i, onw);
        AfterIsMod(i, olddata.Length);
        ghost var moved := Contents();
        var result := AddTail(olddata[i], true);
        assert result;
        MoveOne(moved, left, all);
        left := left[1..];
        i := (i + 1) % olddata.Length;
      }
    }

    /** q_grow(): move the elements, in order, to a buffer of at least target slots. kmalloc answers
        memory; if it fails nothing changes. */
    method Grow(target: nat, memory: bool) returns (ok: bool)
      requires Valid() && target <= 0x4000_0000
      modifies this
      ensures Valid() && ok == memory && Contents() == old(Contents())
      ensures ok ==> size >= target && size >= old(size) && fresh(data) && (size == old(size) || size < 2 * target)
      ensures !ok ==> size == old(size) && data == old(data)
      decreases 1, 1
    {
      var olddata, onr, onw := data, nextread, nextwrite;
      var nsize := Doubled(size, target);
      if !memory {
        return false;
      }
      size := nsize;
      data := new T[nsize];
      nextread, nextwrite := 0, 0;
      Refill(olddata, onr, onw);
      return true;
    }

    /** q_preallocate(). */
    method Preallocate(n: nat, memory: bool) returns (ok: bool)
      requires Valid() && n <= 0x4000_0000
      modifies this
      ensures Valid() && Contents() == old(Contents()) && (ok ==> size >= n) && (memory ==> ok)
      ensures size == old(size) || size < 2 * n
      ensures data == old(data) || fresh(data)
    {
      ok := true;
      if n > size {
        ok := Grow(n, memory);
      }
    }

    /** q_addtail(): append; grows only when full, and only then can it fail. */
    method AddTail(x: T, memory: bool) returns (ok: bool)
      requires Valid() && (Full() ==> size + 1 <= 0x4000_0000)
      modifies this, data
      ensures Valid() && ok == (memory || !old(Full()))
      ensures Contents() == if ok then old(Contents()) + [x] else old(Contents())
      ensures !old(Full()) || !ok ==> size == old(size) && data == old(data)
      ensures data == old(data) || fresh(data)
      ensures size == old(size) || old(size) < size <= 2 * |Contents()| + 1
      decreases if Full() then 2 else 0
    {
      FullIff(data[..], nextread, nextwrite);
      AfterIsMod(nextwrite, size);
      var nextnext := (nextwrite + 1) % size;
      if nextnext == nextread {
        var result := Grow(size + 1, memory);
        if !result {
          return false;
        }
        AfterIsMod(nextwrite, size);
        nextnext := (nextwrite + 1) % size;
        FullIff(data[..], nextread, nextwrite);
      }
      WindowPut(data[..], nextread, nextwrite, x);
      data[nextwrite] := x;
      nextwrite := nextnext;
      return true;
    }

    /** What q_remhead() would take. */
    method Head() returns (x: T)
      requires Valid() && Contents() != []
      ensures x == Contents()[0]
    {
      WindowTake(data[..], nextread, nextwrite);
      x := data[nextread];
    }

    /** q_remhead(). */
    method RemHead() returns (x: T)
      requires Valid() && Contents() != []
      modifies this
      ensures Valid() && [x] + Contents() == old(Contents()) && data == old(data) && size == old(size)
    {
      WindowTake(data[..], nextread, nextwrite);
      AfterIsMod(nextread, size);
      x := data[nextread];
      nextread := (nextread + 1) % size;
    }
  }
}
