/** Arrays of bits kept in bytes (bitmap.c). */
module Bitmap {

  type Place = j: int | 0 <= j < 8

  /** The byte with bit j alone. */
  function Mask(j: Place): bv8 {
    if j == 0 then 0x01 else if j == 1 then 0x02 else if j == 2 then 0x04 else if j == 3 then 0x08
    else if j == 4 then 0x10 else if j == 5 then 0x20 else if j == 6 then 0x40 else 0x80
  }

  /** What the code computes. */
  method Shifted(j: Place) returns (mask: bv8)
    ensures mask == Mask(j)
  {
    mask := (1 as bv8) << j;
    if j == 0 { } else if j == 1 { } else if j == 2 { } else if j == 3 { }
    else if j == 4 { } else if j == 5 { } else if j == 6 { } else { }
  }

  predicate Bit(b: bv8, j: Place) { b & Mask(j) != 0 }

  method Tests(b: bv8, j: Place) returns (r: bool)
    ensures r <==> Bit(b, j)
  {
    var mask := Shifted(j);
    r := b & mask != 0;
  }

  lemma BitSet(b: bv8, j: Place, k: Place)
    ensures Bit(b | Mask(j), k) <==> k == j || Bit(b, k)
  {
  }

  lemma BitCleared(b: bv8, j: Place, k: Place)
    ensures Bit(b & !Mask(j), k) <==> k != j && Bit(b, k)
  {
  }

  lemma AllBits(b: bv8)
    ensures b == 0xff <==> forall k: Place {:trigger Bit(b, k)} :: Bit(b, k)
  {
    if forall k: Place {:trigger Bit(b, k)} :: Bit(b, k) {
      assert Bit(b, 0) && Bit(b, 1) && Bit(b, 2) && Bit(b, 3) && Bit(b, 4) && Bit(b, 5) && Bit(b, 6) && Bit(b, 7);
    }
  }

  /** Bit i of the bytes v; a place past the end is not set. */
  predicate IsSet(v: seq<bv8>, i: nat) { i / 8 < |v| && Bit(v[i / 8], i % 8) }

  function WithSet(v: seq<bv8>, i: nat): seq<bv8>
    requires i / 8 < |v|
  {
    v[i / 8 := v[i / 8] | Mask(i % 8)]
  }

  function WithClear(v: seq<bv8>, i: nat): seq<bv8>
    requires i / 8 < |v|
  {
    v[i / 8 := v[i / 8] & !Mask(i % 8)]
  }

  lemma SetOne(v: seq<bv8>, i: nat, k: nat)
    requires i / 8 < |v|
    ensures IsSet(WithSet(v, i), k) <==> k == i || IsSet(v, k)
  {
    BitSet(v[i / 8], i % 8, k % 8);
  }

  lemma ClearOne(v: seq<bv8>, i: nat, k: nat)
    requires i / 8 < |v|
    ensures IsSet(WithClear(v, i), k) <==> k != i && IsSet(v, k)
  {
    BitCleared(v[i / 8], i % 8, k % 8);
  }

  /** A byte of ones is eight bits set. */
  lemma FullByte(v: seq<bv8>, ix: nat)
    requires ix < |v|
    ensures v[ix] == 0xff <==> forall k: nat :: 8 * ix <= k < 8 * ix + 8 ==> IsSet(v, k)
  {
    AllBits(v[ix]);
    if forall k: nat :: 8 * ix <= k < 8 * ix + 8 ==> IsSet(v, k) {
      forall j: Place
        ensures Bit(v[ix], j)
      {
        assert IsSet(v, 8 * ix + j);
      }
    }
  }

  class Map {
    var nbits: nat
    var v: array<bv8>

    /** Bits left over in the last byte are set. */
    ghost predicate Valid()
      reads this, v
    {
      v.Length == (nbits + 7) / 8 && forall k: nat :: nbits <= k < 8 * v.Length ==> IsSet(v[..], k)
    }

    /** bitmap_create(): all bits clear. */
    constructor (n: nat)
      ensures Valid() && nbits == n && fresh(v)
      ensures forall k: nat :: k < n ==> !IsSet(v[..], k)
    {
      var words := (n + 7) / 8;
      var data := new bv8[words](_ => 0);
      nbits, v := n, data;
      new;
      assert forall k: nat :: !IsSet(v[..], k);
      if n / 8 < words {
        var ix := words - 1;
        var overbits: Place := n - ix * 8;
        MarkFrom(ix, overbits);
      }
    }

    /** The loop of bitmap_create() over the leftover bits. */
    method MarkFrom(ix: nat, from: Place)
      requires ix < v.Length
      modifies v
      ensures forall k: nat :: IsSet(v[..], k) <==> 8 * ix + from <= k < 8 * ix + 8 || IsSet(old(v[..]), k)
    {
      var j: int := from;
      while j < 8
        invariant from <= j <= 8
        invariant forall k: nat :: IsSet(v[..], k) <==> 8 * ix + from <= k < 8 * ix + j || IsSet(old(v[..]), k)
      {
        ghost var was, i := v[..], 8 * ix + j;
        var mask := Shifted(j);
        v[ix] := v[ix] | mask;
        assert v[..] == WithSet(was, i);
        forall k: nat
          ensures IsSet(v[..], k) <==> k == i || IsSet(was, k)
        {
          SetOne(was, i, k);
        }
        j := j + 1;
      }
    }

    /** bitmap_mark(); the source asserts that the bit is clear. */
    method Mark(index: nat)
      requires Valid() && index < nbits && !IsSet(v[..], index)
      modifies v
      ensures Valid() && forall k: nat :: IsSet(v[..], k) <==> k == index || IsSet(old(v[..]), k)
    {
      ghost var was := v[..];
      var mask := Shifted(index % 8);
      v[index / 8] := v[index / 8] | mask;
      assert v[..] == WithSet(was, index);
      forall k: nat
        ensures IsSet(v[..], k) <==> k == index || IsSet(was, k)
      {
        SetOne(was, index, k);
      }
    }

    /** bitmap_unmark(); the source asserts that the bit is set. */
    method Unmark(index: nat)
      requires Valid() && index < nbits && IsSet(v[..], index)
      modifies v
      ensures Valid() && forall k: nat :: IsSet(v[..], k) <==> k != index && IsSet(old(v[..]), k)
    {
      ghost var was := v[..];
      var mask := Shifted(index % 8);
      v[index / 8] := v[index / 8] & !mask;
      assert v[..] == WithClear(was, index);
      forall k: nat
        ensures IsSet(v[..], k) <==> k != index && IsSet(was, k)
      {
        ClearOne(was, index, k);
      }
    }

    /** bitmap_isset(). */
    method Test(index: nat) returns (r: bool)
      requires Valid() && index < nbits
      ensures r <==> IsSet(v[..], index)
    {
      r := Tests(v[index / 8], index % 8);
    }

    /** The first clear bit of a byte that is not all ones: there is one. */
    method FindClear(ix: nat) returns (offset: Place)
      requires ix < v.Length && v[ix] != 0xff
      ensures !Bit(v[ix], offset) && forall j: Place :: j < offset ==> Bit(v[ix], j)
    {
      var i: int := 0;
      while i < 8
        invariant 0 <= i <= 8 && forall j: Place :: j < i ==> Bit(v[ix], j)
      {
        var mask := Shifted(i);
        if v[ix] & mask == 0 {
          return i;
        }
        i := i + 1;
      }
      AllBits(v[ix]);
      assert false;
    }

    /** The lowest clear bit when every byte before ix is full and byte ix is not. */
    method LowestIn(ix: nat) returns (index: nat)
      requires Valid() && ix < v.Length && v[ix] != 0xff
      requires forall k: nat :: k < 8 * ix ==> IsSet(v[..], k)
      ensures index < nbits && !IsSet(v[..], index) && forall k: nat :: k < index ==> IsSet(v[..], k)
    {
      var offset := FindClear(ix);
      index := ix * 8 + offset;
      forall k: nat | k < index
        ensures IsSet(v[..], k)
      {
        if k >= 8 * ix {
          assert Bit(v[ix], k - 8 * ix);
        }
      }
      assert !IsSet(v[..], index);
    }

    /** bitmap_alloc(): sets the lowest clear bit, or fails when there is none. The assertion that the
        bit found is inside the map holds, and so does the one that a byte not full has a clear bit. */
    method Alloc() returns (error: bool, index: nat)
      requires Valid()
      modifies v
      ensures Valid()
      ensures error <==> forall k: nat :: k < nbits ==> IsSet(old(v[..]), k)
      ensures error ==> v[..] == old(v[..])
      ensures !error ==> index < nbits && !IsSet(old(v[..]), index) && forall k: nat :: k < index ==> IsSet(old(v[..]), k)
      ensures !error ==> forall k: nat :: IsSet(v[..], k) <==> k == index || IsSet(old(v[..]), k)
    {
      index := 0;
      for ix := 0 to v.Length
        invariant v[..] == old(v[..])
        invariant forall k: nat :: k < 8 * ix ==> IsSet(v[..], k)
      {
        FullByte(v[..], ix);
        if v[ix] != 0xff {
          index := LowestIn(ix);
          Mark(index);
          return false, index;
        }
      }
      return true, 0;
    }
  }
}
