/** The formatter (__printf.c): what text a format and its arguments stand for. int, long and pointers
    are 32 bits wide, so the size modifiers change nothing. */
module Format {

  type U32 = x: int | 0 <= x < 0x1_0000_0000

  datatype Arg = Num(bits: U32) | Str(text: string) | NullStr

  /** What has been seen of a %-field. */
  datatype Flags = Flags(width: nat, left: bool, fill: char, alt: bool)

  const NO_FLAGS := Flags(0, false, ' ', false)

  /** Outside a field, or inside one. */
  datatype State = Plain | Field(flags: Flags)

  predicate IsModifier(c: char) { c == '#' || c == '-' || c == 'l' || c == 'q' || IsDigit(c) }

  predicate IsNumber(c: char) { c == 'd' || c == 'o' || c == 'u' || c == 'p' || c == 'x' }

  predicate IsDigit(c: char) { '0' <= c <= '9' }

  function DigitValue(c: char): nat
    requires IsDigit(c)
  {
    c as int - '0' as int
  }

  function Modify(f: Flags, c: char): Flags {
    if c == '#' then f.(alt := true)
    else if c == '-' then f.(left := true)
    else if c == '0' && f.width == 0 then f.(fill := '0')
    else if IsDigit(c) then f.(width := f.width * 10 + DigitValue(c))
    else f
  }

  function Repeat(c: char, n: nat): (r: string)
    ensures |r| == n && forall i :: 0 <= i < n ==> r[i] == c
  {
    if n == 0 then [] else Repeat(c, n - 1) + [c]
  }

  function Padding(f: Flags, prefix: string, body: string): nat {
    if f.width > |prefix| + |body| then f.width - (|prefix| + |body|) else 0
  }

  /** A field: zeros go between prefix and body, unless it is aligned to the left. */
  function Filled(f: Flags, prefix: string, body: string): string {
    var pad := Repeat(f.fill, Padding(f, prefix, body));
    if f.left then prefix + body + pad else if f.fill == '0' then prefix + pad + body else pad + prefix + body
  }

  function DigitChar(d: int): char
    requires 0 <= d < 16
  {
    if d < 10 then ('0' as int + d) as char else ('a' as int + d - 10) as char
  }

  /** Positional notation, most significant digit first. */
  function Digits(n: nat, base: nat): (r: string)
    requires 2 <= base <= 16
    ensures |r| > 0
  {
    if n < base then [DigitChar(n)] else Digits(n / base, base) + [DigitChar(n % base)]
  }

  function Signed(bits: U32): int { if bits < 0x8000_0000 then bits else bits - 0x1_0000_0000 }

  function Magnitude(bits: U32): U32 { if bits < 0x8000_0000 then bits else 0x1_0000_0000 - bits }

  function Base(c: char): nat { if c == 'x' || c == 'p' then 16 else if c == 'o' then 8 else 10 }

  function Prefix(c: char, alt: bool): string {
    if (alt || c == 'p') && Base(c) == 16 then "0x" else if (alt || c == 'p') && Base(c) == 8 then "0" else ""
  }

  function NumberText(f: Flags, c: char, bits: U32): string {
    if c == 'd' then Filled(f, (if Signed(bits) < 0 then "-" else "") + Prefix(c, f.alt), Digits(Magnitude(bits), 10))
    else Filled(f, Prefix(c, f.alt), Digits(bits, Base(c)))
  }

  /** va_arg(); past the end, or of the wrong type, C leaves it open and this gives 0. */
  function NumArg(args: seq<Arg>): U32 { if args != [] && args[0].Num? then args[0].bits else 0 }

  function StrArg(args: seq<Arg>): string { if args != [] && args[0].Str? then args[0].text else "(null)" }

  function Rest(args: seq<Arg>): seq<Arg> { if args == [] then [] else args[1..] }

  /** A char whose string is empty if it is NUL. */
  function CharText(bits: U32): string { if bits % 256 == 0 then "" else [(bits % 256) as char] }

  datatype Turn = Turn(state: State, args: seq<Arg>, text: string)

  /** One character of a format. */
  function Take(s: State, args: seq<Arg>, c: char): Turn {
    match s
    case Plain => if c != '%' then Turn(Plain, args, [c]) else Turn(Field(NO_FLAGS), args, "")
    case Field(f) =>
      if IsModifier(c) then Turn(Field(Modify(f, c)), args, "")
      else if IsNumber(c) then Turn(Plain, Rest(args), NumberText(f, c, NumArg(args)))
      else if c == 's' then Turn(Plain, Rest(args), Filled(f, "", StrArg(args)))
      else if c == 'c' then Turn(Plain, Rest(args), Filled(f, "", CharText(NumArg(args))))
      else Turn(Plain, args, Filled(f, "", [c]))
  }

  function TakeAll(s: State, args: seq<Arg>, format: string): Turn {
    if format == "" then Turn(s, args, "")
    else
      var p := TakeAll(s, args, format[..|format| - 1]);
      var q := Take(p.state, p.args, format[|format| - 1]);
      Turn(q.state, q.args, p.text + q.text)
  }

  /** The whole text. */
  function Render(format: string, args: seq<Arg>): string { TakeAll(Plain, args, format).text }

  // ---------------------------------------------------------------- whole formats

  /** A format in two parts: the second goes on where the first left off. */
  lemma {:induction false} TakesInParts(s: State, args: seq<Arg>, a: string, b: string)
    ensures var p := TakeAll(s, args, a);
            var q := TakeAll(p.state, p.args, b);
            TakeAll(s, args, a + b) == Turn(q.state, q.args, p.text + q.text)
  {
    var p := TakeAll(s, args, a);
    if b == "" {
      assert a + b == a && p.text + "" == p.text;
    } else {
      var n := |b| - 1;
      TakesInParts(s, args, a, b[..n]);
      assert (a + b)[..|a + b| - 1] == a + b[..n];
      var m := TakeAll(p.state, p.args, b[..n]);
      var t := Take(m.state, m.args, b[n]);
      assert TakeAll(p.state, p.args, b) == Turn(t.state, t.args, m.text + t.text);
      assert (a + b)[|a + b| - 1] == b[n];
      assert TakeAll(s, args, a + b) == Turn(t.state, t.args, (p.text + m.text) + t.text);
      assert (p.text + m.text) + t.text == p.text + (m.text + t.text);
    }
  }

  /** A format without % is its own text and uses no argument. */
  lemma {:induction false} PlainText(args: seq<Arg>, format: string)
    requires forall i :: 0 <= i < |format| ==> format[i] != '%'
    ensures TakeAll(Plain, args, format) == Turn(Plain, args, format)
  {
    if format != "" {
      var n := |format| - 1;
      PlainText(args, format[..n]);
      assert format[..n] + [format[n]] == format;
    }
  }

  /** A field is as wide as asked, or as its text if that is longer. */
  lemma FieldWidth(f: Flags, prefix: string, body: string)
    ensures |Filled(f, prefix, body)| == if f.width > |prefix + body| then f.width else |prefix + body|
  {
  }

  /** Where prefix and body are in a field, and what is around them. */
  lemma FieldLooks(f: Flags, prefix: string, body: string)
    ensures var r, p, n := Filled(f, prefix, body), |prefix|, |prefix + body|;
            && |r| == (if f.width > n then f.width else n)
            && (f.left ==> r[..n] == prefix + body && forall i :: n <= i < |r| ==> r[i] == f.fill)
            && (!f.left && f.fill != '0' ==> r[|r| - n..] == prefix + body && forall i :: 0 <= i < |r| - n ==> r[i] == f.fill)
            && (!f.left && f.fill == '0' ==>
                  r[..p] == prefix && r[|r| - |body|..] == body && forall i :: p <= i < |r| - |body| ==> r[i] == '0')
  {
  }

  // ---------------------------------------------------------------- what digits mean

  function HexValue(c: char): int {
    if IsDigit(c) then DigitValue(c) else if 'a' <= c <= 'f' then c as int - 'a' as int + 10 else -1
  }

  /** A number read in positional notation. */
  function Value(text: string, base: nat): int {
    if text == "" then 0 else Value(text[..|text| - 1], base) * base + HexValue(text[|text| - 1])
  }

  lemma DigitReads(r: int)
    requires 0 <= r < 16
    ensures HexValue(DigitChar(r)) == r && (r > 0 ==> DigitChar(r) != '0')
  {
  }

  lemma ValueStep(p: string, base: nat, r: int)
    requires 0 <= r < 16
    ensures Value(p + [DigitChar(r)], base) == Value(p, base) * base + r
  {
    DigitReads(r);
    assert (p + [DigitChar(r)])[..|p|] == p;
  }

  lemma Quotient(n: nat, base: nat)
    requires base > 0
    ensures n == n / base * base + n % base
  {
  }

  /** Digits() reads as n. */
  lemma {:induction false} DigitsMean(n: nat, base: nat)
    requires 2 <= base <= 16
    ensures Value(Digits(n, base), base) == n
    decreases |Digits(n, base)|
  {
    if n < base {
      ValueStep("", base, n);
      assert Value("", base) == 0;
      assert "" + [DigitChar(n)] == [DigitChar(n)];
    } else {
      var q, r := n / base, n % base;
      DigitsMean(q, base);
      ValueStep(Digits(q, base), base, r);
      Quotient(n, base);
    }
  }

  predicate Proper(text: string, base: nat) {
    forall i :: 0 <= i < |text| ==> 0 <= HexValue(text[i]) < base
  }

  lemma ProperStep(p: string, base: nat, r: int)
    requires Proper(p, base) && 0 <= r < base <= 16
    ensures Proper(p + [DigitChar(r)], base)
  {
    DigitReads(r);
  }

  /** It has only digits of the base. */
  lemma {:induction false} DigitsProper(n: nat, base: nat)
    requires 2 <= base <= 16
    ensures Proper(Digits(n, base), base)
    decreases |Digits(n, base)|
  {
    if n < base {
      ProperStep("", base, n);
      assert "" + [DigitChar(n)] == [DigitChar(n)];
    } else {
      DigitsProper(n / base, base);
      ProperStep(Digits(n / base, base), base, n % base);
    }
  }

  /** It has no leading zero, unless it is "0". */
  lemma {:induction false} NoLeadingZero(n: nat, base: nat)
    requires 2 <= base <= 16
    ensures if n == 0 then Digits(n, base) == "0" else Digits(n, base)[0] != '0'
    decreases |Digits(n, base)|
  {
    if n < base {
      DigitReads(n);
    } else {
      PositiveQuotient(n, base);
      NoLeadingZero(n / base, base);
    }
  }

  lemma PositiveQuotient(n: nat, base: nat)
    requires n >= base > 0
    ensures n / base > 0
  {
  }

  /** The numeric conversions: an optional prefix and the magnitude in base 8, 10 or 16. */
  lemma NumberMeans(f: Flags, c: char, bits: U32) returns (prefix: string, digits: string)
    requires IsNumber(c)
    ensures NumberText(f, c, bits) == Filled(f, prefix, digits)
    ensures Proper(digits, Base(c))
    ensures c == 'd' ==> prefix == if Signed(bits) < 0 then "-" else ""
    ensures c == 'd' ==> Signed(bits) == if prefix == "-" then -Value(digits, 10) else Value(digits, 10)
    ensures c == 'u' ==> prefix == "" && Value(digits, 10) == bits
    ensures c == 'o' ==> prefix == (if f.alt then "0" else "") && Value(digits, 8) == bits
    ensures c == 'x' ==> prefix == (if f.alt then "0x" else "") && Value(digits, 16) == bits
    ensures c == 'p' ==> prefix == "0x" && Value(digits, 16) == bits
  {
    if c == 'd' {
      prefix, digits := if Signed(bits) < 0 then "-" else "", Digits(Magnitude(bits), 10);
      assert prefix + Prefix(c, f.alt) == prefix;
      DigitsMean(Magnitude(bits), 10);
      DigitsProper(Magnitude(bits), 10);
    } else {
      prefix, digits := Prefix(c, f.alt), Digits(bits, Base(c));
      DigitsMean(bits, Base(c));
      DigitsProper(bits, Base(c));
    }
  }

  // ---------------------------------------------------------------- a %d field

  function ModifyAll(f: Flags, ms: string): Flags {
    if ms == "" then f else Modify(ModifyAll(f, ms[..|ms| - 1]), ms[|ms| - 1])
  }

  lemma {:induction false} TakesModifiers(args: seq<Arg>, ms: string)
    requires forall i :: 0 <= i < |ms| ==> IsModifier(ms[i])
    ensures TakeAll(Plain, args, "%" + ms) == Turn(Field(ModifyAll(NO_FLAGS, ms)), args, "")
  {
    var fmt := "%" + ms;
    if ms == "" {
      assert fmt == "%" && fmt[..0] == "";
      assert TakeAll(Plain, args, fmt[..0]) == Turn(Plain, args, "");
    } else {
      assert fmt[..|fmt| - 1] == "%" + ms[..|ms| - 1];
      TakesModifiers(args, ms[..|ms| - 1]);
    }
  }

  /** The text of a lone %d field with any modifiers. */
  lemma RendersNumber(ms: string, bits: U32)
    requires forall i :: 0 <= i < |ms| ==> IsModifier(ms[i])
    ensures Render("%" + ms + "d", [Num(bits)]) == NumberText(ModifyAll(NO_FLAGS, ms), 'd', bits)
  {
    var fmt := "%" + ms + "d";
    assert fmt[..|fmt| - 1] == "%" + ms;
    var args := [Num(bits)];
    TakesModifiers(args, ms);
    var f := ModifyAll(NO_FLAGS, ms);
    var text := NumberText(f, 'd', bits);
    assert Take(Field(f), args, 'd') == Turn(Plain, [], text);
    assert "" + text == text;
  }

  /** The digits among modifiers. */
  function OnlyDigits(ms: string): (r: string)
    ensures forall i :: 0 <= i < |r| ==> IsDigit(r[i])
  {
    if ms == "" then ""
    else
      var n := |ms| - 1;
      OnlyDigits(ms[..n]) + if IsDigit(ms[n]) then [ms[n]] else ""
  }

  /** A zero with no other digit but zeros before it asks for zeros to fill. */
  predicate AsksZeros(ms: string, i: nat) { i < |ms| && ms[i] == '0' && Value(OnlyDigits(ms[..i]), 10) == 0 }

  lemma {:induction false} ValueNat(text: string)
    requires forall i :: 0 <= i < |text| ==> IsDigit(text[i])
    ensures Value(text, 10) >= 0
  {
    if text != "" {
      ValueNat(text[..|text| - 1]);
    }
  }

  lemma ValueAppend(p: string, c: char)
    requires IsDigit(c)
    ensures Value(p + [c], 10) == Value(p, 10) * 10 + DigitValue(c)
  {
    assert (p + [c])[..|p|] == p;
  }

  lemma ModifyOne(f: Flags, c: char)
    ensures var g := Modify(f, c);
            && (g.alt <==> f.alt || c == '#') && (g.left <==> f.left || c == '-')
            && g.width == if IsDigit(c) then f.width * 10 + DigitValue(c) else f.width
  {
  }

  lemma DigitsNext(p: string, c: char)
    ensures Value(OnlyDigits(p + [c]), 10) ==
              if IsDigit(c) then Value(OnlyDigits(p), 10) * 10 + DigitValue(c) else Value(OnlyDigits(p), 10)
  {
    assert (p + [c])[..|p|] == p;
    if IsDigit(c) {
      ValueAppend(OnlyDigits(p), c);
    } else {
      assert OnlyDigits(p) + "" == OnlyDigits(p);
    }
  }

  lemma {:induction false} WidthMeans(ms: string)
    ensures var f := ModifyAll(NO_FLAGS, ms);
            (f.alt <==> '#' in ms) && (f.left <==> '-' in ms) && f.width == Value(OnlyDigits(ms), 10)
  {
    if ms != "" {
      var p, c := ms[..|ms| - 1], ms[|ms| - 1];
      assert ms == p + [c];
      WidthMeans(p);
      ModifyOne(ModifyAll(NO_FLAGS, p), c);
      DigitsNext(p, c);
    } else {
      assert OnlyDigits(ms) == "" && Value("", 10) == 0;
    }
  }

  ghost predicate ZerosAsked(ms: string) { exists i: nat {:trigger AsksZeros(ms, i)} :: AsksZeros(ms, i) }

  lemma ZerosAskedNext(p: string, c: char)
    ensures ZerosAsked(p + [c]) <==> ZerosAsked(p) || (c == '0' && Value(OnlyDigits(p), 10) == 0)
  {
    var ms := p + [c];
    assert ms[..|p|] == p;
    if ZerosAsked(ms) {
      var i: nat :| AsksZeros(ms, i);
      if i < |p| {
        assert ms[..i] == p[..i];
        assert AsksZeros(p, i);
      }
    }
    if ZerosAsked(p) {
      var i: nat :| AsksZeros(p, i);
      assert ms[..i] == p[..i];
      assert AsksZeros(ms, i);
    } else if c == '0' && Value(OnlyDigits(p), 10) == 0 {
      assert AsksZeros(ms, |p|);
    }
  }

  lemma {:induction false} FillMeans(ms: string)
    ensures ModifyAll(NO_FLAGS, ms).fill == if ZerosAsked(ms) then '0' else ' '
  {
    if ms != "" {
      var n := |ms| - 1;
      FillMeans(ms[..n]);
      WidthMeans(ms[..n]);
      ZerosAskedNext(ms[..n], ms[n]);
      assert ms == ms[..n] + [ms[n]];
    }
  }

  /** What modifiers mean, in any order and number: # and - are seen anywhere, the width is the number
      the digits spell, and a zero before it asks for zeros to fill. */
  lemma ModifiersMean(ms: string)
    ensures var f := ModifyAll(NO_FLAGS, ms);
            && (f.alt <==> '#' in ms) && (f.left <==> '-' in ms)
            && f.width == Value(OnlyDigits(ms), 10) && f.fill == if ZerosAsked(ms) then '0' else ' '
  {
    WidthMeans(ms);
    FillMeans(ms);
  }

  /** Modifiers that spell out a width, after a - or a 0 or both: they mean just that. */
  lemma {:induction false} WidthRead(f: Flags, w: nat)
    requires f.width == 0 && w > 0
    ensures ModifyAll(f, Digits(w, 10)) == f.(width := w)
  {
    var d := Digits(w, 10);
    if w >= 10 {
      var p := Digits(w / 10, 10);
      WidthRead(f, w / 10);
      assert d == p + [DigitChar(w % 10)];
      assert d[..|d| - 1] == p;
      assert DigitValue(DigitChar(w % 10)) == w % 10;
      assert Modify(f.(width := w / 10), DigitChar(w % 10)) == f.(width := w);
    } else {
      assert d == [DigitChar(w)];
      assert d[..0] == "";
      assert ModifyAll(f, d[..0]) == f;
      assert Modify(f, DigitChar(w)) == f.(width := w);
    }
  }

  // ---------------------------------------------------------------- any field, any format

  /** A piece of a format: text without %, %% or a field with its modifiers, its letter and the argument
      for it. */
  datatype Piece = Text(text: string) | Percent | Conversion(ms: string, letter: char, arg: Arg)

  predicate PieceOk(p: Piece) {
    match p
    case Text(text) => forall i :: 0 <= i < |text| ==> text[i] != '%'
    case Percent => true
    case Conversion(ms, c, a) =>
      && (forall i :: 0 <= i < |ms| ==> IsModifier(ms[i]))
      && (IsNumber(c) || c == 's' || c == 'c') && (if c == 's' then !a.Num? else a.Num?)
  }

  function Spelled(p: Piece): string {
    match p
    case Text(text) => text
    case Percent => "%%"
    case Conversion(ms, c, _) => "%" + ms + [c]
  }

  /** The text a piece stands for: a number as NumberMeans says, the characters of a string, "(null)" for
      none, or one character; padded to the width. */
  function Meaning(p: Piece): string
    requires PieceOk(p)
  {
    match p
    case Text(text) => text
    case Percent => "%"
    case Conversion(ms, c, a) =>
      var f := ModifyAll(NO_FLAGS, ms);
      if c == 's' then Filled(f, "", if a.Str? then a.text else "(null)")
      else if c == 'c' then Filled(f, "", if a.bits % 256 == 0 then "" else [(a.bits % 256) as char])
      else NumberText(f, c, a.bits)
  }

  function ArgsOf(p: Piece): seq<Arg> { if p.Conversion? then [p.arg] else [] }

  /** The letter that ends a field. */
  lemma TakesLast(args: seq<Arg>, ms: string, c: char)
    requires (forall i :: 0 <= i < |ms| ==> IsModifier(ms[i])) && !IsModifier(c)
    ensures TakeAll(Plain, args, "%" + ms + [c]) == Take(Field(ModifyAll(NO_FLAGS, ms)), args, c)
  {
    var fmt := "%" + ms + [c];
    assert fmt[..|fmt| - 1] == "%" + ms;
    TakesModifiers(args, ms);
    var q := Take(Field(ModifyAll(NO_FLAGS, ms)), args, c);
    assert "" + q.text == q.text;
  }

  /** %% */
  lemma TakesPercent(args: seq<Arg>)
    ensures TakeAll(Plain, args, "%%") == Turn(Plain, args, "%")
  {
    assert "%" + "" + ['%'] == "%%";
    TakesLast(args, "", '%');
    assert ModifyAll(NO_FLAGS, "") == NO_FLAGS;
    assert Repeat(' ', 0) + "" + "%" == "%";
  }

  lemma TakesConversion(p: Piece, args: seq<Arg>)
    requires PieceOk(p) && p.Conversion?
    ensures TakeAll(Plain, [p.arg] + args, Spelled(p)) == Turn(Plain, args, Meaning(p))
  {
    var all := [p.arg] + args;
    assert all[0] == p.arg && all[1..] == args;
    TakesLast(all, p.ms, p.letter);
    assert Rest(all) == args;
  }

  /** A field takes its argument and no other, and leaves the formatter outside a field. */
  lemma TakesPiece(p: Piece, args: seq<Arg>)
    requires PieceOk(p)
    ensures TakeAll(Plain, ArgsOf(p) + args, Spelled(p)) == Turn(Plain, args, Meaning(p))
  {
    match p
    case Text(text) =>
      assert [] + args == args;
      PlainText(args, text);
    case Percent =>
      assert [] + args == args;
      TakesPercent(args);
    case Conversion(ms, c, a) => TakesConversion(p, args);
  }

  /** A letter that is no conversion is printed itself, in the field, and takes no argument. */
  lemma OtherLetter(ms: string, c: char, args: seq<Arg>)
    requires forall i :: 0 <= i < |ms| ==> IsModifier(ms[i])
    requires !IsModifier(c) && !IsNumber(c) && c != 's' && c != 'c'
    ensures TakeAll(Plain, args, "%" + ms + [c]) == Turn(Plain, args, Filled(ModifyAll(NO_FLAGS, ms), "", [c]))
  {
    TakesLast(args, ms, c);
  }

  function SpelledAll(ps: seq<Piece>): string {
    if ps == [] then "" else SpelledAll(ps[..|ps| - 1]) + Spelled(ps[|ps| - 1])
  }

  function ArgsOfAll(ps: seq<Piece>): seq<Arg> {
    if ps == [] then [] else ArgsOfAll(ps[..|ps| - 1]) + ArgsOf(ps[|ps| - 1])
  }

  function MeaningAll(ps: seq<Piece>): string
    requires forall i :: 0 <= i < |ps| ==> PieceOk(ps[i])
  {
    if ps == [] then "" else MeaningAll(ps[..|ps| - 1]) + Meaning(ps[|ps| - 1])
  }

  lemma TakesOneMore(all: seq<Arg>, format: string, text: string, p: Piece, args: seq<Arg>)
    requires PieceOk(p) && TakeAll(Plain, all, format) == Turn(Plain, ArgsOf(p) + args, text)
    ensures TakeAll(Plain, all, format + Spelled(p)) == Turn(Plain, args, text + Meaning(p))
  {
    TakesPiece(p, args);
    TakesInParts(Plain, all, format, Spelled(p));
  }

  lemma ArgsFollow(ps: seq<Piece>, args: seq<Arg>)
    requires ps != []
    ensures ArgsOfAll(ps) + args == ArgsOfAll(ps[..|ps| - 1]) + (ArgsOf(ps[|ps| - 1]) + args)
  {
  }

  /** Any format: the meanings of its pieces one after the other, each field with the next argument. */
  lemma {:induction false} RendersPieces(ps: seq<Piece>, args: seq<Arg>)
    requires forall i :: 0 <= i < |ps| ==> PieceOk(ps[i])
    ensures TakeAll(Plain, ArgsOfAll(ps) + args, SpelledAll(ps)) == Turn(Plain, args, MeaningAll(ps))
  {
    if ps == [] {
      assert [] + args == args;
    } else {
      var some, last := ps[..|ps| - 1], ps[|ps| - 1];
      ArgsFollow(ps, args);
      RendersPieces(some, ArgsOf(last) + args);
      TakesOneMore(ArgsOfAll(ps) + args, SpelledAll(some), MeaningAll(some), last, args);
    }
  }

  // ---------------------------------------------------------------- room for the digits

  function Pow8(k: nat): nat { if k == 0 then 1 else 8 * Pow8(k - 1) }

  lemma {:induction false} DigitsFit(n: nat, base: nat, k: nat)
    requires 8 <= base <= 16 && 0 < k && n < Pow8(k)
    ensures |Digits(n, base)| <= k
  {
    if n >= base {
      assert k > 1 by { assert Pow8(0) == 1; assert Pow8(1) == 8; }
      Shrinks(n, base, Pow8(k - 1));
      DigitsFit(n / base, base, k - 1);
    }
  }

  lemma Shrinks(n: nat, base: nat, m: nat)
    requires base >= 8 && n < 8 * m
    ensures n / base < m
  {
    var q := n / base;
    assert n == q * base + n % base;
    assert q * base >= q * 8;
  }

  /** Every 32-bit number fits the digit buffer with its NUL, in octal too. */
  lemma NumberFits(bits: U32, c: char)
    ensures |Digits(bits, Base(c))| <= 11
  {
    assert Pow8(11) == 8589934592 by {
      assert Pow8(3) == 512;
      assert Pow8(6) == 512 * 512 by { assert Pow8(4) == 4096; assert Pow8(5) == 32768; }
      assert Pow8(9) == 512 * 512 * 512 by { assert Pow8(7) == 8 * Pow8(6); assert Pow8(8) == 8 * Pow8(7); }
      assert Pow8(10) == 8 * Pow8(9);
    }
    DigitsFit(bits, Base(c), 11);
  }
}
