/** The minimal standard generator of pseudorand.c: Schrage's way of multiplying modulo 2^31 - 1 within
    32 bits. */
module Pseudorand {

  const MULTIPLIER := 16807
  const MODULUS := 0x7fff_ffff
  const K1 := 127773
  const K2 := 2836

  /** The inverse of the multiplier: 16807 * 1407677000 == 1 + 11017 * (2^31 - 1). */
  const INVERSE := 1407677000

  predicate InInt32(x: int) { -0x8000_0000 <= x < 0x8000_0000 }

  predicate IsSeed(s: int) { 1 <= s < MODULUS }

  /** The seed after one call, as the article defines it. */
  function Next(s: int): int { MULTIPLIER * s % MODULUS }

  /** The step can be undone: so it never leads to 0 and never to the same seed from two. */
  lemma NextUndone(s: int)
    requires IsSeed(s)
    ensures INVERSE * Next(s) % MODULUS == s && IsSeed(Next(s))
  {
    var k := MULTIPLIER * s / MODULUS;
    var t := Next(s);
    assert MULTIPLIER * s == MODULUS * k + t;
    var z := INVERSE * k - 11017 * s;
    assert INVERSE * t + MODULUS * z == s;
    Unique(INVERSE * t, -z, s);
  }

  lemma Unique(x: int, q: int, r: int)
    requires x == MODULUS * q + r && 0 <= r < MODULUS
    ensures x % MODULUS == r
  {
    var p := x / MODULUS;
    assert x == MODULUS * p + x % MODULUS;
  }

  lemma NextInjective(s: int, t: int)
    requires IsSeed(s) && IsSeed(t) && Next(s) == Next(t)
    ensures s == t
  {
    NextUndone(s);
    NextUndone(t);
  }

  /** Schrage: with s == K1 * hi + lo, the residue can be had without leaving 32 bits. */
  lemma Schrage(s: int)
    requires IsSeed(s)
    ensures var hi, lo := s / K1, s % K1;
            var tmp := MULTIPLIER * lo - K2 * hi;
            && InInt32(MULTIPLIER * lo) && InInt32(K2 * hi) && InInt32(tmp)
            && (if tmp <= 0 then tmp + MODULUS else tmp) == Next(s)
  {
    var hi, lo := s / K1, s % K1;
    var tmp := MULTIPLIER * lo - K2 * hi;
    assert s == K1 * hi + lo;
    assert 0 <= hi <= 16807;
    assert MULTIPLIER * s == MODULUS * hi + tmp;
    NextUndone(s);
    if tmp > 0 {
      Unique(MULTIPLIER * s, hi, tmp);
    } else if tmp + MODULUS < MODULUS {
      Unique(MULTIPLIER * s, hi - 1, tmp + MODULUS);
    } else {
      Unique(MULTIPLIER * s, hi, 0);
    }
  }

  function Pow(n: nat): nat { if n == 0 then 1 else MULTIPLIER * Pow(n - 1) }

  class Softc {
    var seed: int

    constructor ()
      ensures seed == 305824 && IsSeed(seed)
    {
      seed := 305824;
    }

    method Random() returns (r: nat)
      requires IsSeed(seed)
      modifies this
      ensures IsSeed(seed) && seed == Next(old(seed)) && r == seed - 1 <= MODULUS - 2
    {
      Schrage(seed);
      NextUndone(seed);
      var hi := seed / K1;
      var lo := seed % K1;
      var tmp := MULTIPLIER * lo - K2 * hi;
      if tmp <= 0 {
        tmp := tmp + MODULUS;
      }
      seed := tmp;
      return seed - 1;
    }

    /** A run of any length: the seed is the first one times a power of the multiplier. */
    method Randoms(n: nat) returns (rs: seq<nat>)
      requires IsSeed(seed)
      modifies this
      ensures |rs| == n && IsSeed(seed) && seed == Pow(n) * old(seed) % MODULUS
      ensures forall i :: 0 <= i < n ==> rs[i] == Pow(i + 1) * old(seed) % MODULUS - 1
    {
      rs := [];
      ghost var s := seed;
      assert Pow(0) * s == s;
      for i := 0 to n
        invariant |rs| == i && IsSeed(seed) && seed == Pow(i) * s % MODULUS
        invariant forall j :: 0 <= j < i ==> rs[j] == Pow(j + 1) * s % MODULUS - 1
      {
        PowStep(i, s);
        var r := Random();
        rs := rs + [r];
      }
    }
  }

  lemma PowStep(n: nat, s: int)
    ensures Next(Pow(n) * s % MODULUS) == Pow(n + 1) * s % MODULUS
  {
    var x := Pow(n) * s;
    assert Pow(n + 1) * s == MULTIPLIER * x by {
      assert Pow(n + 1) == MULTIPLIER * Pow(n);
    }
    NextOfResidue(x);
  }

  lemma NextOfResidue(x: int)
    ensures Next(x % MODULUS) == Next(x)
  {
    var q, m := x / MODULUS, x % MODULUS;
    assert x == MODULUS * q + m;
    var k := MULTIPLIER * m / MODULUS;
    assert MULTIPLIER * m == MODULUS * k + Next(m);
    Unique(MULTIPLIER * x, MULTIPLIER * q + k, Next(m));
  }
}
