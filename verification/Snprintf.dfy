/** vsnprintf() and the formatter's own code. */
module Snprintf {
  import opened Format
  import Atoi

  function Min(a: nat, b: nat): nat { if a < b then a else b }

  /** The context of __snprintf_send(). sent is all that was ever sent, orig the buffer as it was. */
  class Snp {
    const buf: array<char>
    const buflen: nat
    var bufpos: nat
    ghost var sent: string
    ghost const orig: string

    /** The buffer holds the beginning of what was sent, and behind that what it held before. */
    ghost predicate Valid()
      reads this, buf
    {
      && buflen <= buf.Length == |orig| && bufpos == Min(|sent|, buflen)
      && buf[..] == sent[..bufpos] + orig[bufpos..]
    }

    constructor (b: array<char>, len: nat)
      requires len <= b.Length
      ensures Valid() && buf == b && buflen == (if len == 0 then 0 else len - 1) && sent == "" && orig == b[..]
    {
      buf, buflen, bufpos, sent, orig := b, if len == 0 then 0 else len - 1, 0, "", b[..];
    }

    /** __snprintf_send(). */
    method Send(data: string)
      requires Valid()
      modifies this, buf
      ensures Valid() && sent == old(sent) + data
    {
      for i := 0 to |data|
        invariant Valid() && sent == old(sent) + data[..i]
      {
        if bufpos < buflen {
          buf[bufpos] := data[i];
          bufpos := bufpos + 1;
        }
        sent := sent + [data[i]];
      }
    }
  }

  /** The printf state of __printf.c. */
  class Pf {
    const sink: Snp
    var args: seq<Arg>
    var charcount: nat
    var inPct: bool
    var num: U32
    var sign: bool
    var spacing: nat
    var rightspc: bool
    var fillchar: char
    var base: nat
    var baseprefix: bool
    var altformat: bool

    ghost predicate Valid()
      reads this, sink, sink.buf
    {
      && sink.Valid() && charcount == |sink.sent| && !sign && !baseprefix
      && (!inPct ==> FlagsNow() == NO_FLAGS)
    }

    ghost function FlagsNow(): Flags
      reads this
    {
      Flags(spacing, rightspc, fillchar, altformat)
    }

    ghost function StateNow(): State
      reads this
    {
      if inPct then Field(FlagsNow()) else Plain
    }

    constructor (s: Snp, a: seq<Arg>)
      requires s.Valid() && s.sent == ""
      ensures Valid() && sink == s && args == a && StateNow() == Plain
    {
      sink, args, charcount, inPct, num, sign, spacing, rightspc, fillchar, base, baseprefix, altformat :=
        s, a, 0, false, 0, false, 0, false, ' ', 0, false, false;
    }

    /** __pf_print() */
    method Print(txt: string)
      requires sink.Valid() && charcount == |sink.sent|
      modifies this`charcount, sink, sink.buf
      ensures sink.Valid() && charcount == |sink.sent| && sink.sent == old(sink.sent) + txt
    {
      sink.Send(txt);
      charcount := charcount + |txt|;
    }

    /** __pf_fill() */
    method Fill(spc: nat)
      requires sink.Valid() && charcount == |sink.sent|
      modifies this`charcount, sink, sink.buf
      ensures sink.Valid() && charcount == |sink.sent| && sink.sent == old(sink.sent) + Repeat(fillchar, spc)
    {
      for i := 0 to spc
        invariant sink.Valid() && charcount == |sink.sent| && sink.sent == old(sink.sent) + Repeat(fillchar, i)
      {
        Print([fillchar]);
      }
    }

    /** Padding under a condition. */
    method FillIf(cond: bool, spc: nat)
      requires sink.Valid() && charcount == |sink.sent|
      modifies this`charcount, sink, sink.buf
      ensures sink.Valid() && charcount == |sink.sent|
      ensures sink.sent == old(sink.sent) + PadIf(cond, fillchar, spc)
    {
      if cond {
        Fill(spc);
      }
    }

    /** __pf_printstuff() */
    method PrintStuff(prefix: string, prefix2: string, stuff: string)
      requires sink.Valid() && charcount == |sink.sent|
      modifies this`charcount, sink, sink.buf
      ensures sink.Valid() && charcount == |sink.sent|
      ensures sink.sent == old(sink.sent) + Filled(FlagsNow(), prefix + prefix2, stuff)
    {
      var len := |prefix| + |prefix2| + |stuff|;
      var spc := spacing;
      if spc > len {
        spc := spc - len;
      } else {
        spc := 0;
      }
      FieldIs(FlagsNow(), prefix, prefix2, stuff, spc, sink.sent);
      FillIf(spc > 0 && !rightspc && fillchar != '0', spc);
      Print(prefix);
      Print(prefix2);
      FillIf(spc > 0 && !rightspc && fillchar == '0', spc);
      Print(stuff);
      FillIf(spc > 0 && rightspc, spc);
    }

    /** The digits, put from right to left into the buffer of 12; x never gets below its start before a
        digit is stored. */
    method Convert() returns (text: string)
      requires base == 8 || base == 10 || base == 16
      ensures text == Digits(num, base)
    {
      var buf := new char[12];
      var x: int := 11;
      buf[x] := '\0';
      x := x - 1;
      var xnum: nat := num;
      BufferHolds(num, base);
      ghost var todo := Digits(num, base);
      var more := true;
      while more
        invariant -1 <= x <= 10 && |todo| == (if more then |Digits(xnum, base)| else 0) && |todo| <= x + 1
        invariant todo == (if more then Digits(xnum, base) else "")
        invariant todo + buf[x + 1..11] == Digits(num, base)
        decreases more, xnum
      {
        ghost var rest := buf[x + 1..11];
        buf[x] := DigitChar(xnum % base);
        OneDigit(xnum, base, buf[x], rest);
        assert buf[x..11] == [buf[x]] + rest;
        todo := if xnum < base then "" else Digits(xnum / base, base);
        x := x - 1;
        xnum := xnum / base;
        more := xnum > 0;
      }
      x := x + 1;
      text := buf[x..11];
    }

    /** __pf_printnum() */
    method PrintNum()
      requires sink.Valid() && charcount == |sink.sent| && (base == 8 || base == 10 || base == 16)
      modifies this`charcount, sink, sink.buf
      ensures sink.Valid() && charcount == |sink.sent|
      ensures sink.sent == old(sink.sent) + Filled(FlagsNow(),
                (if sign then "-" else "") + (if baseprefix && base == 16 then "0x" else if baseprefix && base == 8 then "0" else ""),
                Digits(num, base))
    {
      var x := Convert();
      var bprefix := if baseprefix && base == 16 then "0x" else if baseprefix && base == 8 then "0" else "";
      var sprefix := if sign then "-" else "";
      PrintStuff(sprefix, bprefix, x);
    }

    /** __pf_endfield() */
    method EndField()
      modifies this`inPct, this`num, this`sign, this`spacing, this`rightspc, this`fillchar, this`base, this`baseprefix, this`altformat
      ensures !inPct && !sign && !baseprefix && FlagsNow() == NO_FLAGS
    {
      inPct, num, sign, spacing, rightspc, fillchar, base, baseprefix, altformat := false, 0, false, 0, false, ' ', 0, false, false;
    }

    /** __pf_modifier(); its assertion on the character holds. */
    method Modifier(ch: char)
      requires IsModifier(ch)
      modifies this`spacing, this`rightspc, this`fillchar, this`altformat
      ensures FlagsNow() == Modify(old(FlagsNow()), ch)
    {
      if ch == '#' {
        altformat := true;
      } else if ch == '-' {
        rightspc := true;
      } else if ch == 'l' || ch == 'q' {
      } else if ch == '0' {
        if spacing > 0 {
          spacing := spacing * 10;
        } else {
          fillchar := '0';
        }
      } else {
        assert '0' < ch <= '9';
        spacing := spacing * 10 + DigitValue(ch);
      }
    }

    /** __pf_getnum() and __pf_setbase() */
    method GetNum(ch: char)
      requires IsNumber(ch) && !sign && !baseprefix
      modifies this`args, this`num, this`sign, this`base, this`baseprefix
      ensures args == Rest(old(args)) && base == Base(ch) && baseprefix == (altformat || ch == 'p')
      ensures sign == (ch == 'd' && Signed(NumArg(old(args))) < 0)
      ensures num == if ch == 'd' then Magnitude(NumArg(old(args))) else NumArg(old(args))
    {
      var bits := NumArg(args);
      args := Rest(args);
      if ch == 'd' {
        var signednum := Signed(bits);
        if signednum < 0 {
          sign := true;
          num := -signednum;
        } else {
          num := signednum;
        }
      } else {
        num := bits;
      }
      base := Base(ch);
      if altformat || ch == 'p' {
        baseprefix := true;
      }
    }

    /** __pf_send() */
    method Send(ch: char)
      requires Valid() && ch != '\0'
      modifies this, sink, sink.buf
      ensures Valid()
      ensures var t := Take(old(StateNow()), old(args), ch);
              StateNow() == t.state && args == t.args && sink.sent == old(sink.sent) + t.text
    {
      if !inPct && ch != '%' {
        Print([ch]);
      } else if !inPct {
        inPct := true;
      } else if IsModifier(ch) {
        Modifier(ch);
      } else if IsNumber(ch) {
        GetNum(ch);
        PrintNum();
        assert "" + Prefix(ch, altformat) == Prefix(ch, altformat);
        EndField();
      } else if ch == 's' {
        var str := StrArg(args);
        args := Rest(args);
        PrintStuff("", "", str);
        EndField();
      } else {
        var x := [ch];
        if ch == 'c' {
          x := CharText(NumArg(args));
          args := Rest(args);
        }
        PrintStuff("", "", x);
        EndField();
      }
    }

    /** The loop of __vprintf(). */
    method SendAll(format: string)
      requires Valid() && StateNow() == Plain && sink.sent == "" && forall i :: 0 <= i < |format| ==> format[i] != '\0'
      modifies this, sink, sink.buf
      ensures Valid() && sink.sent == Render(format, old(args)) && charcount == |sink.sent|
    {
      for i := 0 to |format|
        invariant Valid()
        invariant TakeAll(Plain, old(args), format[..i]) == Turn(StateNow(), args, sink.sent)
      {
        Send(format[i]);
        assert format[..i + 1][..i] == format[..i];
      }
      assert format[..|format|] == format;
    }
  }

  function PadIf(cond: bool, c: char, n: nat): string { if cond then Repeat(c, n) else "" }

  /** The pieces __pf_printstuff() prints make up the field. */
  lemma FieldIs(f: Flags, prefix: string, prefix2: string, body: string, spc: nat, sent: string)
    requires spc == Padding(f, prefix + prefix2, body)
    ensures sent + PadIf(spc > 0 && !f.left && f.fill != '0', f.fill, spc) + prefix + prefix2
            + PadIf(spc > 0 && !f.left && f.fill == '0', f.fill, spc) + body + PadIf(spc > 0 && f.left, f.fill, spc)
            == sent + Filled(f, prefix + prefix2, body)
  {
    var pad := Repeat(f.fill, spc);
    if f.left {
      assert sent + "" + prefix + prefix2 + "" + body + pad == sent + (prefix + prefix2 + body + pad);
    } else if f.fill == '0' {
      assert sent + "" + prefix + prefix2 + pad + body + "" == sent + (prefix + prefix2 + pad + body);
    } else {
      assert sent + pad + prefix + prefix2 + "" + body + "" == sent + (pad + (prefix + prefix2) + body);
    }
  }

  /** One digit less to the left, one more to the right. */
  lemma OneDigit(n: nat, base: nat, c: char, rest: string)
    requires 2 <= base <= 16 && c == DigitChar(n % base)
    ensures Digits(n, base) + rest == (if n < base then "" else Digits(n / base, base)) + ([c] + rest)
  {
  }

  lemma BufferHolds(n: U32, base: nat)
    requires base == 8 || base == 10 || base == 16
    ensures |Digits(n, base)| <= 11
  {
    NumberFits(n, if base == 8 then 'o' else if base == 16 then 'x' else 'd');
  }

  lemma Terminated(now: string, text: string, was: string, m: nat)
    requires m <= |text| && m < |was| && now == text[..m] + was[m..]
    ensures now[m := '\0'] == text[..m] + ['\0'] + was[m + 1..]
  {
  }

  /** vsnprintf() as far as the call of __vprintf(). */
  method SendFormat(buf: array<char>, len: nat, format: string, args: seq<Arg>) returns (chars: nat, bufpos: nat)
    requires len <= buf.Length && forall i :: 0 <= i < |format| ==> format[i] != '\0'
    modifies buf
    ensures var text := Render(format, args);
            && chars == |text| && bufpos == Min(chars, if len == 0 then 0 else len - 1)
            && buf[..] == text[..bufpos] + old(buf[..])[bufpos..]
  {
    var snp := new Snp(buf, len);
    var pf := new Pf(snp, args);
    pf.SendAll(format);
    chars, bufpos := pf.charcount, snp.bufpos;
  }

  /** vsnprintf(): returns the length of the whole text; stores as much of it as there is room for and
      a NUL, and nothing when the length given is 0. */
  method Vsnprintf(buf: array<char>, len: nat, format: string, args: seq<Arg>) returns (chars: nat)
    requires len <= buf.Length && forall i :: 0 <= i < |format| ==> format[i] != '\0'
    modifies buf
    ensures chars == |Render(format, args)|
    ensures len == 0 ==> buf[..] == old(buf[..])
    ensures len > 0 ==> var m := Min(chars, len - 1);
              buf[..] == Render(format, args)[..m] + ['\0'] + old(buf[..])[m + 1..]
  {
    ghost var text, was := Render(format, args), buf[..];
    var bufpos: nat;
    chars, bufpos := SendFormat(buf, len, format, args);
    if len > 0 {
      ghost var now := buf[..];
      Terminated(now, text, was, bufpos);
      buf[bufpos] := '\0';
      assert buf[..] == now[bufpos := '\0'];
    } else {
      assert text[..0] + was[0..] == was;
    }
  }

  /** snprintf() of an int with any modifiers, read back by atoi(): the same number comes out exactly
      unless zeros were added on the right of one that is not 0. */
  method PrintThenParse(ms: string, bits: U32, buf: array<char>) returns (r: int)
    requires forall i :: 0 <= i < |ms| ==> IsModifier(ms[i])
    requires buf.Length > |NumberText(ModifyAll(NO_FLAGS, ms), 'd', bits)|
    modifies buf
    ensures var f := ModifyAll(NO_FLAGS, ms);
            var padded := Padding(f, Atoi.Sign(Signed(bits) < 0), Digits(Magnitude(bits), 10)) > 0;
            r == Signed(bits) <==> !(f.left && f.fill == '0' && padded) || bits == 0
  {
    ghost var f := ModifyAll(NO_FLAGS, ms);
    ghost var text := NumberText(f, 'd', bits);
    RendersNumber(ms, bits);
    var n := Vsnprintf(buf, buf.Length, "%" + ms + "d", [Num(bits)]);
    assert buf[..|text|] == text && buf[|text|] == '\0';
    Atoi.FillStaysOk(NO_FLAGS, ms);
    NoNul(f, bits);
    r := Atoi.Atoi(buf, |text|);
    Atoi.RoundTripIff(f, bits);
  }

  lemma {:induction false} DigitsNoNul(n: nat, i: nat)
    requires i < |Digits(n, 10)|
    ensures IsDigit(Digits(n, 10)[i])
  {
    if n >= 10 && i < |Digits(n / 10, 10)| {
      DigitsNoNul(n / 10, i);
    }
  }

  lemma NoNul(f: Flags, bits: U32)
    requires Atoi.FillOk(f)
    ensures forall i :: 0 <= i < |NumberText(f, 'd', bits)| ==> NumberText(f, 'd', bits)[i] != '\0'
  {
    forall i | 0 <= i < |Digits(Magnitude(bits), 10)|
      ensures IsDigit(Digits(Magnitude(bits), 10)[i])
    {
      DigitsNoNul(Magnitude(bits), i);
    }
  }
}
