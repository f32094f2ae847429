/** atoi(), and what it makes of printed numbers. */
module Atoi {
  import opened Format
  import Arith

  const WORD := 0x1_0000_0000

  predicate IsBlank(c: char) { c == ' ' || c == '\t' }

  function SkipBlanks(s: string): string {
    if s != "" && IsBlank(s[0]) then SkipBlanks(s[1..]) else s
  }

  /** acc followed by the digits s begins with. */
  function ParseDigits(s: string, acc: nat): nat {
    if s == "" || !IsDigit(s[0]) then acc else ParseDigits(s[1..], acc * 10 + DigitValue(s[0]))
  }

  /** An unsigned number, negated or not, brought to 32 bits and taken for an int. */
  function Wrapped(neg: bool, v: int): int {
    var w := (if neg then -v else v) % WORD; if w < 0x8000_0000 then w else w - WORD
  }

  function Parse(s: string): int {
    var t := SkipBlanks(s);
    if t != "" && t[0] == '-' then Wrapped(true, ParseDigits(t[1..], 0))
    else if t != "" && t[0] == '+' then Wrapped(false, ParseDigits(t[1..], 0))
    else Wrapped(false, ParseDigits(t, 0))
  }

  // ---------------------------------------------------------------- the code

  lemma WrapStep(acc: nat, d: nat)
    ensures (acc % WORD * 10 + d) % WORD == (acc * 10 + d) % WORD
  {
    var q, m := acc / WORD, acc % WORD;
    assert acc == q * WORD + m;
    var x := m * 10 + d;
    assert acc * 10 + d == (10 * q + x / WORD) * WORD + x % WORD;
    Arith.Remainder(10 * q + x / WORD, x % WORD, WORD);
  }

  lemma WrapNegates(v: int)
    ensures (-(v % WORD)) % WORD == (-v) % WORD
  {
    var q, m := v / WORD, v % WORD;
    assert v == q * WORD + m;
    if m == 0 {
      Arith.Remainder(-q, 0, WORD);
    } else {
      assert -v == (-q - 1) * WORD + (WORD - m);
      Arith.Remainder(-q - 1, WORD - m, WORD);
      Arith.Remainder(-1, WORD - m, WORD);
    }
  }

  /** atoi() of a string of len characters and a NUL. */
  method Atoi(s: array<char>, ghost len: nat) returns (r: int)
    requires len < s.Length && s[len] == '\0' && forall i :: 0 <= i < len ==> s[i] != '\0'
    ensures r == Parse(s[..len])
  {
    ghost var text := s[..len];
    var i: nat := 0;
    assert text[0..] == text;
    while IsBlank(s[i])
      invariant i <= len && SkipBlanks(text) == SkipBlanks(text[i..])
      decreases len - i
    {
      assert text[i..][1..] == text[i + 1..];
      i := i + 1;
    }
    ghost var t := text[i..];
    assert SkipBlanks(text) == t;
    var neg := false;
    if s[i] == '-' {
      neg := true;
      i := i + 1;
    } else if s[i] == '+' {
      i := i + 1;
    }
    ghost var body := text[i..];
    var val := ParseLoop(s, i, len);
    WrapNegates(ParseDigits(body, 0));
    if neg {
      var w := (-val) % WORD;
      return if w < 0x8000_0000 then w else w - WORD;
    }
    return if val < 0x8000_0000 then val else val - WORD;
  }

  /** The digit loop, from place i. */
  method ParseLoop(s: array<char>, start: nat, ghost len: nat) returns (val: int)
    requires start <= len < s.Length && s[len] == '\0' && forall i :: 0 <= i < len ==> s[i] != '\0'
    ensures val == ParseDigits(s[start..len], 0) % WORD
  {
    val := 0;
    var i := start;
    ghost var acc: nat := 0;
    while s[i] != '\0'
      invariant start <= i <= len && val == acc % WORD
      invariant ParseDigits(s[start..len], 0) == ParseDigits(s[i..len], acc)
      decreases len - i
    {
      if !IsDigit(s[i]) {
        break;
      }
      var digit := DigitValue(s[i]);
      assert s[i..len][1..] == s[i + 1..len];
      WrapStep(acc, digit);
      val := (val * 10 + digit) % WORD;
      acc := acc * 10 + digit;
      i := i + 1;
    }
  }

  // ---------------------------------------------------------------- what any text reads as

  predicate AllBlank(s: string) { forall i :: 0 <= i < |s| ==> IsBlank(s[i]) }

  predicate AllDigits(s: string) { forall i :: 0 <= i < |s| ==> IsDigit(s[i]) }

  /** Blanks, a sign or none, digits or none, and a tail that goes on with none of these. */
  predicate InParts(blanks: string, sign: string, digits: string, tail: string) {
    && AllBlank(blanks) && (sign == "" || sign == "-" || sign == "+") && AllDigits(digits)
    && (tail != "" ==> !IsDigit(tail[0]) && (sign == "" && digits == "" ==> !IsBlank(tail[0]) && tail[0] != '-' && tail[0] != '+'))
  }

  lemma {:induction false} BlanksOf(s: string) returns (blanks: string, rest: string)
    ensures s == blanks + rest && AllBlank(blanks) && (rest != "" ==> !IsBlank(rest[0]))
  {
    if s == "" || !IsBlank(s[0]) {
      blanks, rest := "", s;
    } else {
      blanks, rest := BlanksOf(s[1..]);
      blanks := [s[0]] + blanks;
    }
  }

  lemma {:induction false} DigitsOf(s: string) returns (digits: string, tail: string)
    ensures s == digits + tail && AllDigits(digits) && (tail != "" ==> !IsDigit(tail[0]))
  {
    if s == "" || !IsDigit(s[0]) {
      digits, tail := "", s;
    } else {
      digits, tail := DigitsOf(s[1..]);
      digits := [s[0]] + digits;
    }
  }

  /** Every text is of that form. */
  lemma Parts(s: string) returns (blanks: string, sign: string, digits: string, tail: string)
    ensures InParts(blanks, sign, digits, tail) && s == blanks + (sign + (digits + tail))
  {
    var rest;
    blanks, rest := BlanksOf(s);
    if rest != "" && (rest[0] == '-' || rest[0] == '+') {
      sign := [rest[0]];
      digits, tail := DigitsOf(rest[1..]);
      assert rest == sign + rest[1..];
    } else {
      sign := "";
      digits, tail := DigitsOf(rest);
      assert rest == sign + rest;
    }
  }

  lemma {:induction false} SkipsBlanks(blanks: string, rest: string)
    requires AllBlank(blanks) && (rest != "" ==> !IsBlank(rest[0]))
    ensures SkipBlanks(blanks + rest) == rest
  {
    if blanks == "" {
      assert blanks + rest == rest;
    } else {
      assert (blanks + rest)[1..] == blanks[1..] + rest;
      SkipsBlanks(blanks[1..], rest);
    }
  }

  lemma {:induction false} ReadsDigits(digits: string, tail: string)
    requires AllDigits(digits) && (tail != "" ==> !IsDigit(tail[0]))
    ensures Value(digits, 10) >= 0 && ParseDigits(digits + tail, 0) == Value(digits, 10)
  {
    ReadsOn("", digits, tail);
    assert "" + digits == digits && Value("", 10) == 0;
  }

  lemma {:induction false} ReadsOn(before: string, digits: string, tail: string)
    requires AllDigits(digits) && Value(before, 10) >= 0 && (tail != "" ==> !IsDigit(tail[0]))
    ensures Value(before + digits, 10) >= 0 && ParseDigits(digits + tail, Value(before, 10)) == Value(before + digits, 10)
    decreases |digits|
  {
    if digits == "" {
      assert digits + tail == tail && before + digits == before;
    } else {
      var c := digits[0];
      ValueAppend(before, c);
      assert (digits + tail)[1..] == digits[1..] + tail;
      assert before + [c] + digits[1..] == before + digits;
      ReadsOn(before + [c], digits[1..], tail);
    }
  }

  lemma ParsesSigned(sign: string, digits: string, tail: string)
    requires InParts("", sign, digits, tail)
    ensures var t := sign + (digits + tail);
            && (t != "" ==> !IsBlank(t[0])) && Value(digits, 10) >= 0
            && (if t != "" && t[0] == '-' then sign == "-" && ParseDigits(t[1..], 0) == Value(digits, 10)
                else if t != "" && t[0] == '+' then sign == "+" && ParseDigits(t[1..], 0) == Value(digits, 10)
                else sign == "" && ParseDigits(t, 0) == Value(digits, 10))
  {
    var body := digits + tail;
    ReadsDigits(digits, tail);
    if sign == "" {
      assert sign + body == body;
    } else {
      assert (sign + body)[1..] == body;
    }
  }

  /** What any text reads as: blanks and tabs before it, a plus sign and whatever follows the digits
      change nothing, and the digits are the number they spell, brought to 32 bits. */
  lemma ParseMeans(blanks: string, sign: string, digits: string, tail: string)
    requires InParts(blanks, sign, digits, tail)
    ensures Value(digits, 10) >= 0
    ensures Parse(blanks + (sign + (digits + tail))) == Wrapped(sign == "-", Value(digits, 10))
  {
    ParsesSigned(sign, digits, tail);
    SkipsBlanks(blanks, sign + (digits + tail));
  }

  /** The int that is the same modulo 2^32. */
  lemma WrappedMeans(neg: bool, v: int)
    ensures var r := Wrapped(neg, v); -0x8000_0000 <= r < 0x8000_0000 && (r - (if neg then -v else v)) % WORD == 0
  {
    var x := if neg then -v else v;
    var q, m := x / WORD, x % WORD;
    assert x == q * WORD + m;
    Arith.Remainder(if m < 0x8000_0000 then -q else -q - 1, 0, WORD);
  }

  // ---------------------------------------------------------------- printed numbers

  lemma {:induction false} ParsesDigits(n: nat, rest: string)
    ensures ParseDigits(Digits(n, 10) + rest, 0) == ParseDigits(rest, n)
    ensures IsDigit(Digits(n, 10)[0])
  {
    var c := [DigitChar(n % 10)];
    var text := Digits(n, 10) + rest;
    if n < 10 {
      assert text[1..] == rest;
    } else {
      ParsesDigits(n / 10, c + rest);
      assert text == Digits(n / 10, 10) + (c + rest);
      assert (c + rest)[1..] == rest;
    }
  }

  function Pow10(k: nat): (r: nat)
    ensures r > 0
  {
    if k == 0 then 1 else 10 * Pow10(k - 1)
  }

  lemma TenTimes(a: nat, b: nat)
    ensures a * b * 10 == a * (10 * b)
  {
  }

  lemma {:induction false} ParsesZeros(k: nat, rest: string, acc: nat)
    ensures ParseDigits(Repeat('0', k) + rest, acc) == ParseDigits(rest, acc * Pow10(k))
  {
    if k == 0 {
      assert Repeat('0', 0) + rest == rest;
    } else {
      ParsesZeros(k - 1, ['0'] + rest, acc);
      assert Repeat('0', k) + rest == Repeat('0', k - 1) + (['0'] + rest);
      assert (['0'] + rest)[1..] == rest;
      TenTimes(acc, Pow10(k - 1));
    }
  }

  lemma {:induction false} SkipsSpaces(k: nat, rest: string)
    ensures SkipBlanks(Repeat(' ', k) + rest) == SkipBlanks(rest)
  {
    if k == 0 {
      assert Repeat(' ', 0) + rest == rest;
    } else {
      SkipsSpaces(k - 1, [' '] + rest);
      assert Repeat(' ', k) + rest == Repeat(' ', k - 1) + ([' '] + rest);
      assert ([' '] + rest)[1..] == rest;
    }
  }

  function Sign(neg: bool): string { if neg then "-" else "" }

  lemma ParsesBody(neg: bool, body: string)
    requires body != "" && IsDigit(body[0])
    ensures Parse(Sign(neg) + body) == Wrapped(neg, ParseDigits(body, 0))
  {
    var t := Sign(neg) + body;
    if neg {
      assert t[1..] == body;
    } else {
      assert t == body;
      assert t[0] != '-' && t[0] != '+' && !IsBlank(t[0]);
      assert SkipBlanks(t) == t;
    }
  }

  // ---------------------------------------------------------------- the exception

  function Pow2(k: nat): nat { if k == 0 then 1 else 2 * Pow2(k - 1) }

  /** An odd factor does not help a product to powers of 2. */
  lemma {:induction false} OddCancels(h: nat, x: nat, k: nat, m: nat) returns (y: nat)
    requires (2 * h + 1) * x == Pow2(k) * m
    ensures x == Pow2(k) * y
  {
    if k == 0 {
      y := x;
    } else {
      var p := Pow2(k - 1) * m;
      assert Pow2(k) * m == 2 * p;
      var hx := h * x;
      assert (2 * h + 1) * x == 2 * hx + x;
      var z: nat := p - hx;
      assert x == 2 * z;
      assert 2 * ((2 * h + 1) * z) == (2 * h + 1) * x;
      y := OddCancels(h, z, k - 1, m);
      assert x == Pow2(k) * y;
    }
  }

  lemma WordIsPow2()
    ensures Pow2(32) == WORD
  {
    assert Pow2(8) == 256 by { assert Pow2(4) == 16; assert Pow2(6) == 64; }
    assert Pow2(16) == 65536 by { assert Pow2(10) == 1024; assert Pow2(12) == 4096; assert Pow2(14) == 16384; }
    assert Pow2(24) == 16777216 by { assert Pow2(18) == 262144; assert Pow2(20) == 1048576; assert Pow2(22) == 4194304; }
    assert Pow2(26) == 67108864;
    assert Pow2(28) == 268435456;
    assert Pow2(30) == 1073741824;
  }

  /** A 32-bit number and its product with a power of 10 leave different remainders, but for 0. */
  lemma TimesTen(m: nat, k: nat)
    requires 0 < m < WORD && k > 0
    ensures m * Pow10(k) % WORD != m
  {
    var half := 5 * Pow10(k - 1);
    var p := Pow10(k);
    assert p == 2 * half;
    if m * p % WORD == m {
      var q := m * p / WORD;
      assert m * p == q * WORD + m;
      var h: nat := half - 1;
      assert 2 * h + 1 == p - 1;
      assert (p - 1) * m == m * p - m;
      WordIsPow2();
      var y := OddCancels(h, m, 32, q);
      assert false;
    }
  }

  lemma NegatesBack(x: int, m: int)
    requires 0 <= m < WORD
    ensures (-x) % WORD == (-m) % WORD <==> x % WORD == m
  {
    var r := x % WORD;
    WrapNegates(x);
    assert (-r) % WORD == (-x) % WORD;
    if r != 0 { Arith.Remainder(-1, WORD - r, WORD); }
    if m != 0 { Arith.Remainder(-1, WORD - m, WORD); }
  }

  /** What is read back when k zeros follow the digits. */
  lemma ZerosSpoil(bits: U32, k: nat)
    ensures Wrapped(Signed(bits) < 0, Magnitude(bits) * Pow10(k)) == Signed(bits) <==> k == 0 || bits == 0
  {
    var neg, m := Signed(bits) < 0, Magnitude(bits);
    var x := m * Pow10(k);
    NegatesBack(x, m);
    if k == 0 {
      assert x == m;
    } else if bits != 0 {
      TimesTen(m, k);
    } else {
      assert x == 0;
    }
    assert (-m) % WORD == if m == 0 then 0 else WORD - m by { if m != 0 { Arith.Remainder(-1, WORD - m, WORD); } }
  }

  // ---------------------------------------------------------------- the round trip

  predicate FillOk(f: Flags) { f.fill == ' ' || f.fill == '0' }

  lemma {:induction false} FillStaysOk(f: Flags, ms: string)
    requires FillOk(f)
    ensures FillOk(ModifyAll(f, ms))
  {
    if ms != "" {
      FillStaysOk(f, ms[..|ms| - 1]);
    }
  }

  lemma LeftBlank(neg: bool, m: nat, k: nat)
    ensures Parse(Sign(neg) + Digits(m, 10) + Repeat(' ', k)) == Wrapped(neg, m)
  {
    var tail := Repeat(' ', k);
    var body := Digits(m, 10) + tail;
    ParsesDigits(m, tail);
    assert ParseDigits(tail, m) == m;
    ParsesBody(neg, body);
    assert Sign(neg) + Digits(m, 10) + tail == Sign(neg) + body;
  }

  lemma LeftZero(neg: bool, m: nat, k: nat)
    ensures Parse(Sign(neg) + Digits(m, 10) + Repeat('0', k)) == Wrapped(neg, m * Pow10(k))
  {
    var tail := Repeat('0', k);
    var body := Digits(m, 10) + tail;
    ParsesDigits(m, tail);
    ParsesZeros(k, "", m);
    assert tail + "" == tail;
    ParsesBody(neg, body);
    assert Sign(neg) + Digits(m, 10) + tail == Sign(neg) + body;
  }

  lemma RightZero(neg: bool, m: nat, k: nat)
    ensures Parse(Sign(neg) + Repeat('0', k) + Digits(m, 10)) == Wrapped(neg, m)
  {
    var zeros, ds := Repeat('0', k), Digits(m, 10);
    var body := zeros + ds;
    ParsesZeros(k, ds, 0);
    ParsesDigits(m, "");
    assert ds + "" == ds;
    assert body[0] == if k > 0 then '0' else ds[0];
    ParsesBody(neg, body);
    assert Sign(neg) + zeros + ds == Sign(neg) + body;
  }

  lemma RightBlank(neg: bool, m: nat, k: nat)
    ensures Parse(Repeat(' ', k) + Sign(neg) + Digits(m, 10)) == Wrapped(neg, m)
  {
    var ds := Digits(m, 10);
    var t := Sign(neg) + ds;
    ParsesDigits(m, "");
    assert ds + "" == ds;
    ParsesBody(neg, ds);
    SkipsSpaces(k, t);
    assert Repeat(' ', k) + Sign(neg) + ds == Repeat(' ', k) + t;
  }

  /** What atoi() reads is what %d printed if and only if the field is not one that is aligned to the
      left and filled up with zeros, or the number is 0. */
  lemma RoundTripIff(f: Flags, bits: U32)
    requires FillOk(f)
    ensures var neg := Signed(bits) < 0;
            var padded := Padding(f, Sign(neg), Digits(Magnitude(bits), 10)) > 0;
            Parse(NumberText(f, 'd', bits)) == Signed(bits) <==> !(f.left && f.fill == '0' && padded) || bits == 0
  {
    var neg, m := Signed(bits) < 0, Magnitude(bits);
    var k := Padding(f, Sign(neg), Digits(m, 10));
    assert (if neg then "-" else "") + Prefix('d', f.alt) == Sign(neg);
    ZerosSpoil(bits, 0);
    assert m * Pow10(0) == m;
    if f.left && f.fill == '0' {
      LeftZero(neg, m, k);
      ZerosSpoil(bits, k);
    } else if f.left {
      LeftBlank(neg, m, k);
    } else if f.fill == '0' {
      RightZero(neg, m, k);
    } else {
      RightBlank(neg, m, k);
    }
  }

  /** %-03d prints 7 as 700. */
  lemma LeftZeroExample()
    ensures ModifyAll(NO_FLAGS, "-03") == Flags(3, true, '0', false)
    ensures Parse(NumberText(Flags(3, true, '0', false), 'd', 7)) != 7
  {
    var ms := "-03";
    assert ms[..0] == "" && ms[..1] == "-" && ms[..2] == "-0";
    assert ms[..1][..0] == "" && ms[..2][..1] == "-";
    assert ModifyAll(NO_FLAGS, "") == NO_FLAGS;
    assert ModifyAll(NO_FLAGS, "-") == NO_FLAGS.(left := true);
    assert ModifyAll(NO_FLAGS, "-0") == NO_FLAGS.(left := true, fill := '0');
    RoundTripIff(Flags(3, true, '0', false), 7);
    assert Digits(7, 10) == "7";
  }
}
