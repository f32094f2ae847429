/** Facts about products and remainders. */
module Arith {

  lemma Scale(a: int, b: int, d: nat)
    ensures a <= b ==> a * d <= b * d
  {
  }

  lemma Remainder(q: int, m: nat, d: nat)
    requires m < d
    ensures (q * d + m) % d == m && (q * d + m) / d == q
  {
    var n := q * d + m;
    var p := n / d;
    assert n == p * d + n % d;
    Scale(q + 1, p, d);
    Scale(p + 1, q, d);
    assert (q + 1) * d == q * d + d && (p + 1) * d == p * d + d;
  }

  lemma ModNext(n: nat, d: nat)
    requires d > 0
    ensures (n + 1) % d == if n % d + 1 < d then n % d + 1 else 0
  {
    var q, m := n / d, n % d;
    assert n == q * d + m;
    if m + 1 < d {
      Remainder(q, m + 1, d);
    } else {
      Remainder(q + 1, 0, d);
      assert (q + 1) * d == q * d + d;
    }
  }

  lemma AddMod(r: nat, n: nat, d: nat)
    requires r < d
    ensures (r + n) % d == r <==> n % d == 0
  {
    var q, m := n / d, n % d;
    assert n == q * d + m;
    if r + m < d {
      Remainder(q, r + m, d);
    } else {
      Remainder(q + 1, r + m - d, d);
      assert (q + 1) * d == q * d + d;
    }
  }
}
