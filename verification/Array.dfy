/** array.c: a growable array of pointers. */
module Array {

  class Guys<T(0)> {
    var num: nat
    var v: array<T> // v.Length is max; no storage is an array of length 0

    ghost predicate Valid()
      reads this
    {
      num <= v.Length
    }

    ghost function Contents(): seq<T>
      reads this, v
      requires Valid()
    {
      v[..num]
    }

    /** array_create() with memory available. */
    constructor ()
      ensures Valid() && fresh(v) && v.Length == 0 && Contents() == []
    {
      num := 0;
      v := new T[0];
    }

    /** array_getguy() */
    method GetGuy(index: nat) returns (x: T)
      requires Valid() && index < num
      ensures x == Contents()[index]
    {
      x := v[index];
    }

    /** array_setguy() */
    method SetGuy(index: nat, x: T)
      requires Valid() && index < num
      modifies v
      ensures Valid() && Contents() == old(Contents())[index := x]
    {
      v[index] := x;
    }

    /** array_preallocate(): room for n, or an error that changes nothing. It always asks for new
        storage, even when there is room. */
    method Preallocate(n: nat, memory: bool) returns (ok: bool)
      requires Valid()
      modifies this
      ensures Valid() && ok == memory && num == old(num) && Contents() == old(Contents())
      ensures if ok then fresh(v) && v.Length >= n && v.Length >= old(v.Length) else v == old(v)
    {
      var newmax := v.Length;
      while n > newmax
        invariant newmax >= v.Length
      {
        newmax := (newmax + 1) * 2;
      }
      if !memory {
        return false;
      }
      var newv := new T[newmax];
      for i := 0 to num
        invariant v == old(v) && num == old(num) && newv.Length == newmax && fresh(newv) && v[..] == old(v[..])
        invariant newv[..i] == v[..i]
      {
        newv[i] := v[i];
      }
      v := newv;
      return true;
    }

    /** array_setsize(). Only growing past max can fail; emptying drops a storage of more than 16. */
    method SetSize(n: nat, memory: bool) returns (ok: bool)
      requires Valid()
      modifies this
      ensures Valid() && ok == (n <= old(v.Length) || memory)
      ensures if ok then num == n else num == old(num) && v == old(v)
      ensures ok && n <= old(num) ==> Contents() == old(Contents())[..n]
      ensures ok && old(num) <= n ==> Contents()[..old(num)] == old(Contents())
      ensures ok && n <= old(v.Length) ==> (v == old(v) <==> !(n == 0 && old(v.Length) > 16))
      ensures v == old(v) || fresh(v)
    {
      ok := true;
      if n > v.Length {
        ok := Preallocate(n, memory);
        if !ok {
          return;
        }
      } else if n == 0 && v.Length > 16 {
        v := new T[0];
      }
      num := n;
    }

    /** array_add(): appends; it can fail only when num has reached max. */
    method Add(x: T, memory: bool) returns (ok: bool)
      requires Valid()
      modifies this, v
      ensures Valid() && ok == (old(num) < old(v.Length) || memory)
      ensures Contents() == if ok then old(Contents()) + [x] else old(Contents())
      ensures old(num) < old(v.Length) ==> v == old(v)
      ensures v == old(v) || fresh(v)
    {
      var ix := num;
      ok := SetSize(ix + 1, memory);
      if !ok {
        return;
      }
      v[ix] := x;
    }

    /** array_remove(): closes the gap. */
    method Remove(index: nat)
      requires Valid() && index < num
      modifies this`num, v
      ensures Valid() && Contents() == old(Contents())[..index] + old(Contents())[index + 1..]
    {
      var i := index;
      while i < num - 1
        invariant num == old(num) && index <= i < num
        invariant forall k :: 0 <= k < v.Length && !(index <= k < i) ==> v[k] == old(v[k])
        invariant forall k :: index <= k < i ==> v[k] == old(v[k + 1])
      {
        v[i] := v[i + 1];
        i := i + 1;
      }
      num := num - 1;
    }
  }

  /** What thread_fork() relies on: with room for n made beforehand, adding up to n in all cannot fail. */
  method AddsNeedNoMemory<T(0)>(a: Guys<T>, xs: seq<T>, n: nat) returns (ok: bool)
    requires a.Valid() && a.num + |xs| <= n <= a.v.Length
    modifies a, a.v
    ensures ok && a.Valid() && a.v == old(a.v) && a.Contents() == old(a.Contents()) + xs
  {
    ok := true;
    for i := 0 to |xs|
      invariant ok && a.Valid() && a.v == old(a.v) && a.Contents() == old(a.Contents()) + xs[..i]
    {
      ok := a.Add(xs[i], false);
    }
  }
}
