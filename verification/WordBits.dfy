/** Flags kept as the bits of 32-bit words. */
module WordBits {

  type Place = j: int | 0 <= j < 32

  function Shift(j: Place): bv32 { (1 as bv32) << (j as bv6) }

  ghost predicate MaskAt(masks: seq<bv32>, j: Place) { j < |masks| ==> masks[j] == Shift(j) }

  ghost predicate AreMasks(masks: seq<bv32>) {
    |masks| == 32 && forall j {:trigger MaskAt(masks, j)} :: MaskAt(masks, j)
  }

  lemma MasksExist() returns (masks: seq<bv32>)
    ensures AreMasks(masks)
  {
    masks := seq(32, j requires 0 <= j < 32 => Shift(j));
    assert forall j {:trigger MaskAt(masks, j)} :: MaskAt(masks, j);
  }

  ghost function Masks(): (masks: seq<bv32>)
    ensures AreMasks(masks)
  {
    assert exists masks :: AreMasks(masks) by { var masks := MasksExist(); }
    var masks :| AreMasks(masks); masks
  }

  /** The word with bit j alone. Its value, and the bits of a word below, are kept from proofs that do
      not ask for them, since arithmetic on places and on words do not mix well. */
  ghost function Mask(j: Place): bv32 { Masks()[j] }

  lemma MaskIs(j: Place)
    ensures Mask(j) == Shift(j)
  {
    assert MaskAt(Masks(), j);
  }

  predicate Test(w: bv32, mask: bv32) { w & mask != 0 }

  ghost predicate BitAt(w: bv32, bits: seq<bool>, j: Place) { j < |bits| ==> (bits[j] <==> Test(w, Mask(j))) }

  ghost predicate AreBits(w: bv32, bits: seq<bool>) {
    |bits| == 32 && forall j {:trigger BitAt(w, bits, j)} :: BitAt(w, bits, j)
  }

  lemma BitsExist(w: bv32) returns (bits: seq<bool>)
    ensures AreBits(w, bits)
  {
    var masks := Masks();
    bits := seq(32, j requires 0 <= j < 32 => Test(w, masks[j]));
    assert forall j {:trigger BitAt(w, bits, j)} :: BitAt(w, bits, j);
  }

  /** The bits of a word, the lowest first. */
  ghost function Bits(w: bv32): (bits: seq<bool>)
    ensures |bits| == 32 && AreBits(w, bits)
  {
    assert exists bits :: AreBits(w, bits) by { var bits := BitsExist(w); }
    var bits :| AreBits(w, bits); bits
  }

  lemma BitMeans(w: bv32, j: Place)
    ensures Bits(w)[j] <==> Test(w, Mask(j))
  {
    assert BitAt(w, Bits(w), j);
  }

  // ---------------------------------------------------------------- words

  lemma Amount(j: Place)
    ensures (j as bv6) as int == j && (j as bv6) < 32
  {
  }

  lemma NextAmount(j: Place)
    ensures if j == 31 then (j as bv6) == 31 else ((j + 1) as bv6) == (j as bv6) + 1
  {
  }

  lemma AmountsApart(x: bv6, y: bv6)
    requires x < 32 && y < 32
    ensures (1 as bv32) << x != 0 && (x != y ==> ((1 as bv32) << x) & ((1 as bv32) << y) == 0)
  {
  }

  lemma AmountNext(x: bv6)
    requires x < 32
    ensures ((1 as bv32) << x) << 1 == if x == 31 then 0 else (1 as bv32) << (x + 1)
  {
  }

  lemma ShiftsApart(j: Place, k: Place)
    ensures Shift(j) != 0 && (j != k ==> Shift(j) & Shift(k) == 0)
  {
    Amount(j);
    Amount(k);
    AmountsApart(j as bv6, k as bv6);
  }

  lemma ShiftNext(j: Place)
    ensures Shift(j) << 1 == if j == 31 then 0 else Shift(j + 1)
  {
    Amount(j);
    NextAmount(j);
    AmountNext(j as bv6);
  }

  lemma MasksApart(j: Place, k: Place)
    ensures Mask(j) != 0 && (j != k ==> Mask(j) & Mask(k) == 0)
  {
    MaskIs(j);
    MaskIs(k);
    ShiftsApart(j, k);
  }

  lemma SetSame(w: bv32, x: bv32)
    ensures (w | x) & x == x && (w & !x) & x == 0
  {
  }

  lemma SetApart(w: bv32, x: bv32, y: bv32)
    requires x & y == 0
    ensures (w | x) & y == w & y && (w & !x) & y == w & y
  {
  }

  lemma TestSet(w: bv32, x: bv32, y: bv32, same: bool)
    requires x != 0 && if same then x == y else x & y == 0
    ensures Test(w | x, y) <==> same || Test(w, y)
  {
    if same { SetSame(w, x); } else { SetApart(w, x, y); }
  }

  lemma TestCleared(w: bv32, x: bv32, y: bv32, same: bool)
    requires x != 0 && if same then x == y else x & y == 0
    ensures Test(w & !x, y) <==> !same && Test(w, y)
  {
    if same { SetSame(w, x); } else { SetApart(w, x, y); }
  }

  lemma BitSet(w: bv32, j: Place, k: Place)
    ensures Bits(w | Mask(j))[k] == Bits(w)[j := true][k]
  {
    MasksApart(j, k);
    BitMeans(w, k);
    BitMeans(w | Mask(j), k);
    TestSet(w, Mask(j), Mask(k), j == k);
  }

  lemma BitCleared(w: bv32, j: Place, k: Place)
    ensures Bits(w & !Mask(j))[k] == Bits(w)[j := false][k]
  {
    MasksApart(j, k);
    BitMeans(w, k);
    BitMeans(w & !Mask(j), k);
    TestCleared(w, Mask(j), Mask(k), j == k);
  }

  method SetBit(w: bv32, j: Place, k: bv32) returns (w': bv32)
    requires k == Mask(j)
    ensures Bits(w') == Bits(w)[j := true]
  {
    w' := w | k;
    forall i: Place
      ensures Bits(w')[i] == Bits(w)[j := true][i]
    {
      BitSet(w, j, i);
    }
  }

  method ClearBit(w: bv32, j: Place, k: bv32) returns (w': bv32)
    requires k == Mask(j)
    ensures Bits(w') == Bits(w)[j := false]
  {
    w' := w & !k;
    forall i: Place
      ensures Bits(w')[i] == Bits(w)[j := false][i]
    {
      BitCleared(w, j, i);
    }
  }

  lemma Ends(x: bv32)
    ensures 0xffffffff & x == x && 0 & x == 0
  {
  }

  lemma AllOrNone(j: Place)
    ensures Bits(0xffffffff)[j] && !Bits(0)[j]
  {
    BitMeans(0xffffffff, j);
    BitMeans(0, j);
    MasksApart(j, j);
    Ends(Mask(j));
  }

  // ---------------------------------------------------------------- the lowest clear bit

  /** k is a single bit, or 0 after the highest, and all bits of w below it are set. */
  predicate SetBelow(w: bv32, k: bv32) { k & (k - 1) == 0 && w & (k - 1) == k - 1 }

  lemma SetBelowNext(w: bv32, k: bv32)
    requires k != 0 && SetBelow(w, k) && Test(w, k)
    ensures SetBelow(w, k << 1)
  {
  }

  lemma SetBelowEnds(w: bv32)
    ensures SetBelow(w, 1) && (SetBelow(w, 0) ==> w == 0xffffffff)
  {
  }

  /** What 1 shifted j times is. */
  ghost function Shifted(j: nat): bv32
    requires j <= 32
  {
    if j == 32 then 0 else Mask(j)
  }

  lemma ShiftedNext(j: Place)
    ensures Shifted(j) != 0 && Shifted(j) << 1 == Shifted(j + 1)
  {
    MasksApart(j, j);
    MaskIs(j);
    ShiftNext(j);
    if j < 31 {
      MaskIs(j + 1);
    }
  }

  lemma ShiftedStart()
    ensures Shifted(0) == 1
  {
    MaskIs(0);
  }

  lemma {:induction false} BelowShifted(w: bv32, j: nat)
    requires j <= 32 && forall i :: 0 <= i < j ==> Bits(w)[i]
    ensures SetBelow(w, Shifted(j))
  {
    if j == 0 {
      ShiftedStart();
      SetBelowEnds(w);
    } else {
      BelowShifted(w, j - 1);
      BitMeans(w, j - 1);
      ShiftedNext(j - 1);
      SetBelowNext(w, Shifted(j - 1));
    }
  }

  lemma AllSet(w: bv32)
    requires forall i :: 0 <= i < 32 ==> Bits(w)[i]
    ensures w == 0xffffffff
  {
    BelowShifted(w, 32);
    SetBelowEnds(w);
  }

  method IsClear(w: bv32, j: Place, k: bv32) returns (clear: bool)
    requires k == Mask(j)
    ensures clear <==> !Bits(w)[j]
  {
    BitMeans(w, j);
    clear := !Test(w, k);
  }

  method Next(j: Place, k: bv32) returns (k': bv32)
    requires k == Shifted(j)
    ensures k' == Shifted(j + 1)
  {
    ShiftedNext(j);
    k' := k << 1;
  }

  /** The inner loop of allocpageref(): the lowest clear bit of a word that is not full. The assertion
      after the loop is not reached. */
  method LowestClear(w: bv32) returns (j: Place, k: bv32)
    requires w != 0xffffffff
    ensures k == Mask(j) && !Bits(w)[j] && forall i :: 0 <= i < j ==> Bits(w)[i]
  {
    var at := 0;
    k := 1;
    ShiftedStart();
    while k != 0
      invariant 0 <= at <= 32 && k == Shifted(at)
      invariant forall i :: 0 <= i < at ==> Bits(w)[i]
      decreases 32 - at
    {
      var clear := IsClear(w, at, k);
      if clear {
        return at, k;
      }
      k := Next(at, k);
      at := at + 1;
    }
    if at < 32 {
      ShiftedNext(at);
    }
    AllSet(w);
    assert false;
  }

  // ---------------------------------------------------------------- flags

  /** Flag i is bit i % 32 of word i / 32. */
  ghost predicate FlagAt(ws: seq<bv32>, flags: seq<bool>, i: nat) {
    i / 32 < |ws| && i < |flags| ==> flags[i] == Bits(ws[i / 32])[i % 32]
  }

  ghost predicate Holds(ws: seq<bv32>, flags: seq<bool>) {
    |flags| == 32 * |ws| && forall i {:trigger FlagAt(ws, flags, i)} :: FlagAt(ws, flags, i)
  }

  lemma FlagChanges(ws: seq<bv32>, flags: seq<bool>, i: nat, w: bv32, b: bool)
    requires Holds(ws, flags) && i < |flags| && Bits(w) == Bits(ws[i / 32])[i % 32 := b]
    ensures Holds(ws[i / 32 := w], flags[i := b])
  {
    var vs, now := ws[i / 32 := w], flags[i := b];
    forall k: nat
      ensures FlagAt(vs, now, k)
    {
      assert FlagAt(ws, flags, k);
      assert k == i <==> k / 32 == i / 32 && k % 32 == i % 32;
    }
  }

  lemma NoFlags(ws: seq<bv32>, flags: seq<bool>)
    requires |flags| == 32 * |ws| && (forall i :: 0 <= i < |ws| ==> ws[i] == 0) && forall i :: 0 <= i < |flags| ==> !flags[i]
    ensures Holds(ws, flags)
  {
    forall i: nat
      ensures FlagAt(ws, flags, i)
    {
      AllOrNone(i % 32);
    }
  }

  lemma FullWord(ws: seq<bv32>, flags: seq<bool>, i: nat)
    requires Holds(ws, flags) && i < |ws| && ws[i] == 0xffffffff
    ensures forall k :: 32 * i <= k < 32 * i + 32 ==> flags[k]
  {
    forall k | 32 * i <= k < 32 * i + 32
      ensures flags[k]
    {
      assert FlagAt(ws, flags, k);
      AllOrNone(k % 32);
    }
  }

  /** The lowest clear bit of word i, as flags. */
  lemma LowestFlag(ws: seq<bv32>, flags: seq<bool>, i: nat, j: Place)
    requires Holds(ws, flags) && i < |ws| && !Bits(ws[i])[j] && forall k :: 0 <= k < j ==> Bits(ws[i])[k]
    ensures !flags[32 * i + j] && forall k :: 32 * i <= k < 32 * i + j ==> flags[k]
  {
    assert FlagAt(ws, flags, 32 * i + j);
    forall k | 32 * i <= k < 32 * i + j
      ensures flags[k]
    {
      assert FlagAt(ws, flags, k);
    }
  }

  /** The loops of allocpageref(): the lowest flag not set, with its mask, or -1. */
  method FirstClear(words: array<bv32>, ghost flags: seq<bool>) returns (r: int, k: bv32)
    requires Holds(words[..], flags)
    ensures -1 <= r < |flags| && (r >= 0 ==> !flags[r] && k == Mask(r % 32))
    ensures forall i :: 0 <= i < (if r >= 0 then r else |flags|) ==> flags[i]
  {
    k := 0;
    for i := 0 to words.Length
      invariant forall l :: 0 <= l < 32 * i ==> flags[l]
    {
      if words[i] == 0xffffffff {
        FullWord(words[..], flags, i);
      } else {
        var j;
        j, k := LowestClear(words[i]);
        LowestFlag(words[..], flags, i, j);
        return i * 32 + j, k;
      }
    }
    return -1, k;
  }

  method SetFlag(words: array<bv32>, ghost flags: seq<bool>, r: nat, k: bv32)
    requires Holds(words[..], flags) && r < |flags| && k == Mask(r % 32)
    modifies words
    ensures Holds(words[..], flags[r := true])
  {
    var w := SetBit(words[r / 32], r % 32, k);
    FlagChanges(words[..], flags, r, w, true);
    words[r / 32] := w;
  }

  /** The rest of freepageref(); its assertion that the bit is set holds. */
  method ClearFlag(words: array<bv32>, ghost flags: seq<bool>, r: nat)
    requires Holds(words[..], flags) && r < |flags| && flags[r]
    modifies words
    ensures Holds(words[..], flags[r := false])
  {
    var i := r / 32;
    var k := Shift(r % 32);
    MaskIs(r % 32);
    assert FlagAt(words[..], flags, r);
    var clear := IsClear(words[i], r % 32, k);
    assert !clear;
    var w := ClearBit(words[i], r % 32, k);
    FlagChanges(words[..], flags, r, w, false);
    words[i] := w;
  }
}
