/** The additive-feedback generator of random.c with its switchable state arrays. The words of a state
    array are 32 bits wide and written as unsigned numbers. */
module Random {
  import Arith

  const WORD := 0x1_0000_0000

  type Word = w: int | 0 <= w < WORD

  type Kind = k: int | 0 <= k < 5

  function Deg(k: Kind): nat { if k == 0 then 0 else if k == 1 then 7 else if k == 2 then 15 else if k == 3 then 31 else 63 }

  function Sep(k: Kind): nat { if k == 0 then 0 else if k == 1 || k == 3 then 3 else 1 }

  function Cells(k: Kind): nat { if k == 0 then 1 else Deg(k) }

  /** 32-bit arithmetic. */
  function Plus(a: Word, b: Word): Word { var sum: int := a + b; if sum < WORD then sum else sum - WORD }

  function Congruential(w: Word): Word { var v: int := w; (v * 1103515245 + 12345) % WORD }

  /** One generator: its type, the place of the rear pointer and the state words. */
  datatype Gen = Gen(kind: Kind, rear: nat, words: seq<Word>)

  ghost predicate Ok(g: Gen) {
    |g.words| == Cells(g.kind) && g.rear < Cells(g.kind)
  }

  /** The place n after another, cyclically. */
  function Round(k: Kind, place: nat, n: nat): nat {
    if place + n < Cells(k) then place + n else place + n - Cells(k)
  }

  function Front(g: Gen): nat { Round(g.kind, g.rear, Sep(g.kind)) }

  /** One call of random(): the generator after it. */
  function Advance(g: Gen): (r: Gen)
    requires Ok(g)
    ensures Ok(r) && r.kind == g.kind
  {
    if g.kind == 0 then g.(words := [Congruential(g.words[0]) % 0x8000_0000])
    else g.(rear := Round(g.kind, g.rear, 1), words := g.words[Front(g) := Plus(g.words[Front(g)], g.words[g.rear])])
  }

  /** The number that call returns. */
  function Draw(g: Gen): nat
    requires Ok(g)
  {
    if g.kind == 0 then Advance(g).words[0] else Advance(g).words[Front(g)] / 2
  }

  function After(g: Gen, n: nat): (r: Gen)
    requires Ok(g)
    ensures Ok(r) && r.kind == g.kind
  {
    if n == 0 then g else Advance(After(g, n - 1))
  }

  // ---------------------------------------------------------------- the shift register

  /** The state words from the oldest to the newest: the front pointer is at the oldest. */
  ghost function Window(g: Gen): seq<Word>
    requires Ok(g)
  {
    g.words[Front(g)..] + g.words[..Front(g)]
  }

  /** The sequence x[n] = x[n - deg] + x[n - sep], modulo 2^32, n terms past the ones given. */
  ghost function Series(k: Kind, x: seq<Word>, n: nat): (r: seq<Word>)
    requires k != 0 && |x| == Deg(k)
    ensures |r| == |x| + n
  {
    if n == 0 then x
    else
      var h := Series(k, x, n - 1);
      h + [Plus(h[|h| - Deg(k)], h[|h| - Sep(k)])]
  }

  /** Two cycling pointers make a shift register: the oldest word goes, and in comes the sum of it and
      the word sep places from the end, whose upper 31 bits are the number drawn. */
  lemma ShiftRegister(g: Gen)
    requires Ok(g) && g.kind != 0
    ensures var x := Window(g);
            var sum := Plus(x[0], x[Deg(g.kind) - Sep(g.kind)]);
            Window(Advance(g)) == x[1..] + [sum] && Draw(g) == sum / 2
  {
    var f, r, d, s := Front(g), g.rear, Deg(g.kind), Sep(g.kind);
    var x, ws := Window(g), g.words;
    assert x[0] == ws[f];
    assert x[d - s] == ws[r];
    var sum := Plus(ws[f], ws[r]);
    var f' := Front(Advance(g));
    assert f' == if f + 1 < d then f + 1 else 0;
    Rotates(ws, f, sum);
  }

  /** Overwriting the first of a rotated sequence and rotating on by one. */
  lemma Rotates(ws: seq<Word>, f: nat, w: Word)
    requires f < |ws|
    ensures var f' := if f + 1 < |ws| then f + 1 else 0;
            var vs := ws[f := w];
            vs[f'..] + vs[..f'] == (ws[f..] + ws[..f])[1..] + [w]
  {
  }

  lemma SeriesNext(k: Kind, x: seq<Word>, n: nat)
    requires k != 0 && |x| == Deg(k)
    ensures var h := Series(k, x, n);
            Series(k, x, n + 1) == h + [Plus(h[n], h[n + (Deg(k) - Sep(k))])]
  {
  }

  /** The end of a series that grows by a term, and a register that shifts that term in. */
  lemma SlidesOn(h: seq<Word>, h': seq<Word>, w: seq<Word>, w': seq<Word>, n: nat, k: nat)
    requires n + k < |h| && w == h[n..] && h' == h + [Plus(h[n], h[n + k])] && w' == w[1..] + [Plus(w[0], w[k])]
    ensures w' == h'[n + 1..] && h'[|h|] == Plus(w[0], w[k])
  {
    assert w[0] == h[n] && w[k] == h[n + k];
  }

  /** After n draws the state words are the last terms of the series. */
  ghost predicate Slid(g: Gen, n: nat)
    requires Ok(g) && g.kind != 0
  {
    Window(After(g, n)) == Series(g.kind, Window(g), n)[n..]
  }

  lemma SeriesStarts(g: Gen)
    requires Ok(g) && g.kind != 0
    ensures Slid(g, 0)
  {
    assert Window(g)[0..] == Window(g);
  }

  lemma SeriesSlides(g: Gen, n: nat)
    requires Ok(g) && g.kind != 0 && Slid(g, n)
    ensures Slid(g, n + 1)
    ensures Draw(After(g, n)) == Series(g.kind, Window(g), n + 1)[Deg(g.kind) + n] / 2
  {
    var p, x := After(g, n), Window(g);
    ShiftRegister(p);
    SeriesNext(g.kind, x, n);
    SlidesOn(Series(g.kind, x, n), Series(g.kind, x, n + 1), Window(p), Window(Advance(p)), n, Deg(g.kind) - Sep(g.kind));
  }

  lemma {:induction false} WindowSeries(g: Gen, n: nat)
    requires Ok(g) && g.kind != 0
    ensures Slid(g, n)
  {
    if n == 0 {
      SeriesStarts(g);
    } else {
      var m := n - 1;
      WindowSeries(g, m);
      SeriesSlides(g, m);
    }
  }

  /** The numbers a generator draws are the upper 31 bits of the terms of the series that starts with
      its state words: the n-th draw gives the n-th new term. */
  lemma DrawsSeries(g: Gen, n: nat)
    requires Ok(g) && g.kind != 0
    ensures Window(After(g, n)) == Series(g.kind, Window(g), n)[n..]
    ensures Draw(After(g, n)) == Series(g.kind, Window(g), n + 1)[Deg(g.kind) + n] / 2
  {
    WindowSeries(g, n);
    SeriesSlides(g, n);
  }

  /** Addition is modulo 2^32. */
  lemma PlusIs(a: Word, b: Word)
    ensures Plus(a, b) == (a + b) % 0x1_0000_0000
  {
  }

  lemma PlusCancels(a: Word, b: Word, c: Word)
    requires Plus(a, c) == Plus(b, c)
    ensures a == b
  {
  }

  /** No two states step to the same state, so no run of a generator leads into a cycle it did not
      begin in. */
  lemma AdvanceInjective(g: Gen, h: Gen)
    requires Ok(g) && Ok(h) && g.kind == h.kind && g.kind != 0 && Advance(g) == Advance(h)
    ensures g == h
  {
    assert g.rear == h.rear;
    var f := Front(g);
    var v := Advance(g).words;
    assert v == Advance(h).words;
    assert g.words[g.rear] == v[g.rear] == h.words[g.rear];
    assert v[f] == Plus(g.words[f], g.words[g.rear]) == Plus(h.words[f], h.words[g.rear]);
    PlusCancels(g.words[f], h.words[f], g.words[g.rear]);
    forall i | 0 <= i < |g.words|
      ensures g.words[i] == h.words[i]
    {
      if i != f {
        assert g.words[i] == v[i] == h.words[i];
      }
    }
  }

  // ---------------------------------------------------------------- switching between arrays

  /** Several state arrays, one of them active. */
  datatype Bank = Bank(gens: seq<Gen>, active: nat)

  datatype Use = Ask | Switch(to: nat)

  ghost predicate BankOk(b: Bank) {
    b.active < |b.gens| && forall i :: 0 <= i < |b.gens| ==> Ok(b.gens[i])
  }

  ghost predicate UsesOk(b: Bank, uses: seq<Use>) {
    forall i :: 0 <= i < |uses| ==> uses[i].Switch? ==> uses[i].to < |b.gens|
  }

  ghost function UsedOnce(b: Bank, use: Use): (r: Bank)
    requires BankOk(b) && (use.Switch? ==> use.to < |b.gens|)
    ensures BankOk(r) && |r.gens| == |b.gens|
  {
    match use
    case Ask => b.(gens := b.gens[b.active := Advance(b.gens[b.active])])
    case Switch(to) => b.(active := to)
  }

  ghost function GivenOnce(b: Bank, use: Use, k: nat): seq<nat>
    requires BankOk(b)
  {
    if use.Ask? && b.active == k then [Draw(b.gens[k])] else []
  }

  ghost function Used(b: Bank, uses: seq<Use>): (r: Bank)
    requires BankOk(b) && UsesOk(b, uses)
    ensures BankOk(r) && |r.gens| == |b.gens|
  {
    if uses == [] then b
    else
      UsedOnce(Used(b, uses[..|uses| - 1]), uses[|uses| - 1])
  }

  /** The numbers drawn while array k was active. */
  ghost function Given(b: Bank, uses: seq<Use>, k: nat): seq<nat>
    requires BankOk(b) && UsesOk(b, uses)
  {
    if uses == [] then []
    else
      var n := |uses| - 1;
      var p := Used(b, uses[..n]);
      Given(b, uses[..n], k) + GivenOnce(p, uses[n], k)
  }

  /** The first n numbers a generator gives when it is the only one. */
  ghost function Alone(g: Gen, n: nat): (r: seq<nat>)
    requires Ok(g)
    ensures |r| == n
  {
    if n == 0 then [] else Alone(g, n - 1) + [Draw(After(g, n - 1))]
  }

  /** However draws and switches interleave, each array gives exactly what it would have given alone. */
  lemma {:induction false} Interleaving(b: Bank, uses: seq<Use>, k: nat)
    requires BankOk(b) && UsesOk(b, uses) && k < |b.gens|
    ensures var n := |Given(b, uses, k)|;
            Given(b, uses, k) == Alone(b.gens[k], n) && Used(b, uses).gens[k] == After(b.gens[k], n)
  {
    if uses != [] {
      var n := |uses| - 1;
      Interleaving(b, uses[..n], k);
      InterleavesOn(b.gens[k], Used(b, uses[..n]), Given(b, uses[..n], k), uses[n], k);
    }
  }

  /** given was drawn from generator g, which is now the k-th. */
  ghost predicate Drew(g: Gen, b: Bank, given: seq<nat>, k: nat)
    requires Ok(g) && k < |b.gens|
  {
    given == Alone(g, |given|) && b.gens[k] == After(g, |given|)
  }

  lemma InterleavesAsk(g: Gen, b: Bank, given: seq<nat>)
    requires Ok(g) && BankOk(b) && Drew(g, b, given, b.active)
    ensures Drew(g, UsedOnce(b, Ask), given + [Draw(b.gens[b.active])], b.active)
  {
    DrawsOn(g, b.gens[b.active], given);
    UsedActive(b);
  }

  lemma InterleavesElse(g: Gen, b: Bank, given: seq<nat>, use: Use, k: nat)
    requires Ok(g) && BankOk(b) && k < |b.gens| && (use.Switch? ==> use.to < |b.gens|) && !(use.Ask? && b.active == k)
    requires Drew(g, b, given, k)
    ensures Drew(g, UsedOnce(b, use), given, k)
  {
    UsedElsewhere(b, use, k);
  }

  /** One more use, after given was drawn from the k-th array. */
  lemma InterleavesOn(g: Gen, b: Bank, given: seq<nat>, use: Use, k: nat)
    requires Ok(g) && BankOk(b) && k < |b.gens| && (use.Switch? ==> use.to < |b.gens|) && Drew(g, b, given, k)
    ensures Drew(g, UsedOnce(b, use), given + GivenOnce(b, use, k), k)
  {
    if use.Ask? && b.active == k {
      InterleavesAsk(g, b, given);
    } else {
      InterleavesElse(g, b, given, use, k);
      assert given + [] == given;
    }
  }

  /** One more draw from a generator that has given all it was asked for. */
  lemma DrawsOn(g: Gen, p: Gen, given: seq<nat>)
    requires Ok(g) && given == Alone(g, |given|) && p == After(g, |given|)
    ensures given + [Draw(p)] == Alone(g, |given| + 1) && Advance(p) == After(g, |given| + 1)
  {
  }

  lemma UsedActive(b: Bank)
    requires BankOk(b)
    ensures UsedOnce(b, Ask).gens[b.active] == Advance(b.gens[b.active])
  {
  }

  lemma UsedElsewhere(b: Bank, use: Use, k: nat)
    requires BankOk(b) && k < |b.gens| && (use.Switch? ==> use.to < |b.gens|) && !(use.Ask? && b.active == k)
    ensures UsedOnce(b, use).gens[k] == b.gens[k] && GivenOnce(b, use, k) == []
  {
  }

  // ---------------------------------------------------------------- srandom()

  /** The words srandom() starts from. */
  function Seeds(x: Word, n: nat): (r: seq<Word>)
    requires n > 0
    ensures |r| == n
  {
    if n == 1 then [x] else var p := Seeds(x, n - 1); p + [Congruential(p[n - 2])]
  }

  ghost function Seeded(k: Kind, x: Word): (r: Gen)
    ensures Ok(r) && r.kind == k
  {
    var g := Gen(k, 0, Seeds(x, Cells(k)));
    if k == 0 then g else After(g, 10 * Deg(k))
  }

  lemma NextRear(g: Gen)
    requires Ok(g) && g.kind != 0
    ensures Advance(g).rear == if g.rear + 1 < Deg(g.kind) then g.rear + 1 else 0
  {
  }

  /** The rear pointer goes round once in deg draws. */
  lemma {:induction false} RearCycles(g: Gen, n: nat)
    requires Ok(g) && g.kind != 0
    ensures After(g, n).rear == (g.rear + n) % Deg(g.kind)
  {
    if n == 0 {
      Arith.Remainder(0, g.rear, Deg(g.kind));
    } else {
      RearCycles(g, n - 1);
      NextRear(After(g, n - 1));
      Arith.ModNext(g.rear + n - 1, Deg(g.kind));
    }
  }

  /** srandom() leaves the rear pointer where it began, as the static initial table relies on. */
  lemma SeededAtStart(k: Kind, x: Word)
    ensures Seeded(k, x).rear == 0
  {
    if k != 0 {
      RearCycles(Gen(k, 0, Seeds(x, Cells(k))), 10 * Deg(k));
    }
  }

  lemma CongruentialIs(w: Word)
    ensures Congruential(w) == (1103515245 * w + 12345) % 0x1_0000_0000
  {
  }

  /** The seed words are a congruential sequence that starts with the seed. */
  lemma {:induction false} SeedsFollow(x: Word, n: nat, i: nat)
    requires i < n
    ensures Seeds(x, n)[i] == if i == 0 then x else Congruential(Seeds(x, n)[i - 1])
  {
    if n > 1 && i < n - 1 {
      SeedsFollow(x, n - 1, i);
    }
  }

  ghost predicate LaterBy(g: Gen, p: Gen, m: nat, n: nat)
    requires Ok(g) && Ok(p)
  {
    After(p, n) == After(g, m + n)
  }

  lemma LaterNext(g: Gen, p: Gen, m: nat, n: nat)
    requires Ok(g) && Ok(p) && LaterBy(g, p, m, n)
    ensures LaterBy(g, p, m, n + 1)
  {
  }

  lemma AfterBoth(g: Gen, p: Gen, m: nat, n: nat)
    requires Ok(g) && Ok(p) && LaterBy(g, p, m, 0)
    ensures LaterBy(g, p, m, n)
  {
    for i := 0 to n
      invariant LaterBy(g, p, m, i)
    {
      LaterNext(g, p, m, i);
    }
  }

  /** The seed words as the shift register holds them at first: the front pointer is sep words on. */
  ghost function SeedWindow(k: Kind, x: Word): (r: seq<Word>)
    requires k != 0
    ensures |r| == Deg(k)
  {
    Seeds(x, Deg(k))[Sep(k)..] + Seeds(x, Deg(k))[..Sep(k)]
  }

  lemma WindowAtStart(k: Kind, words: seq<Word>)
    requires k != 0 && |words| == Deg(k)
    ensures Window(Gen(k, 0, words)) == words[Sep(k)..] + words[..Sep(k)]
  {
    assert Front(Gen(k, 0, words)) == Sep(k);
  }

  /** What is drawn after srandom(): the series that starts with the seed words, but for its first
      10 * deg new terms; or, for the smallest generator, what the seed gives. */
  lemma SeededDraws(k: Kind, x: Word, n: nat)
    ensures k == 0 ==> Seeded(k, x) == Gen(0, 0, [x])
    ensures k != 0 ==> Draw(After(Seeded(k, x), n)) == Series(k, SeedWindow(k, x), 10 * Deg(k) + n + 1)[Deg(k) + (10 * Deg(k) + n)] / 2
  {
    if k != 0 {
      var g := Gen(k, 0, Seeds(x, Cells(k)));
      var p, m := Seeded(k, x), 10 * Deg(k);
      assert After(p, 0) == p == After(g, m + 0);
      AfterBoth(g, p, m, n);
      WindowAtStart(k, g.words);
      DrawsSeries(g, m + n);
    }
  }

  /** The smallest generator is congruential, and draws what its word becomes. */
  lemma SmallestDraws(w: Word)
    ensures var g := Gen(0, 0, [w]);
            Draw(g) == (1103515245 * w + 12345) % 0x8000_0000 && Advance(g) == Gen(0, 0, [Draw(g)])
  {
    var v := 1103515245 * w + 12345;
    var q, m := v / WORD, v % WORD;
    assert v == q * WORD + m;
    assert v == (2 * q + m / 0x8000_0000) * 0x8000_0000 + m % 0x8000_0000;
    Arith.Remainder(2 * q + m / 0x8000_0000, m % 0x8000_0000, 0x8000_0000);
  }

  // ---------------------------------------------------------------- state arrays in memory

  /** Word 0 of an array that is not active holds the type and the place of the rear pointer. */
  function Tag(g: Gen): int { 5 * g.rear + g.kind }

  ghost predicate Saved(t: seq<Word>) {
    && |t| > 0
    && |t| > Cells(t[0] % 5)
    && t[0] / 5 < Cells(t[0] % 5)
  }

  lemma SamePart(s: seq<Word>, t: seq<Word>, n: nat)
    requires |s| == |t| > n && s[1..] == t[1..]
    ensures s[1..1 + n] == t[1..1 + n]
  {
    assert s[1..1 + n] == s[1..][..n];
    assert t[1..1 + n] == t[1..][..n];
  }

  ghost function Stored(t: seq<Word>): (r: Gen)
    requires Saved(t)
    ensures Ok(r)
  {
    Gen(t[0] % 5, t[0] / 5, t[1..1 + Cells(t[0] % 5)])
  }

  lemma RoundIsMod(k: Kind, rear: nat)
    requires k != 0 && rear < Deg(k)
    ensures (rear + Sep(k)) % Deg(k) == Round(k, rear, Sep(k))
  {
  }

  lemma TagReads(g: Gen)
    requires Ok(g)
    ensures Tag(g) % 5 == g.kind && Tag(g) / 5 == g.rear && 0 <= Tag(g) < WORD
  {
  }

  /** The static variables of random.c. state is the active array with its word 0; rptr and fptr count
      from the word after that. */
  class Generator {
    var state: array<Word>
    var rptr: nat
    var fptr: nat
    var kind: Kind
    var deg: nat
    var sep: nat

    ghost predicate Valid()
      reads this
    {
      && deg == Deg(kind) && sep == Sep(kind) && state.Length > Cells(kind)
      && (kind != 0 ==> rptr < deg && fptr == Round(kind, rptr, sep))
    }

    ghost function View(): (g: Gen)
      reads this, state
      requires Valid()
      ensures Ok(g)
    {
      Gen(kind, if kind == 0 then 0 else rptr, state[1..1 + Cells(kind)])
    }

    /** The initial values of the static variables. */
    constructor (randtbl: array<Word>)
      requires randtbl.Length == 32 && randtbl[0] == 3
      ensures Valid() && state == randtbl && View() == Stored(randtbl[..])
    {
      state, rptr, fptr, kind, deg, sep := randtbl, 0, 3, 3, 31, 3;
      assert 3 % 5 == 3 && 3 / 5 == 0;
    }

    /** random_unlocked(). If the front pointer wraps the rear one is not looked at, and cannot wrap. */
    method Next() returns (i: nat)
      requires Valid()
      modifies this, state
      ensures Valid() && state == old(state) && state[0] == old(state[0])
      ensures i == Draw(old(View())) && View() == Advance(old(View()))
    {
      if kind == 0 {
        ghost var g := View();
        i := Congruential(state[1]) % 0x8000_0000;
        state[1] := i;
        assert state[1..2] == [state[1]] && g.words == [old(state[1])];
      } else {
        i := NextAdditive();
      }
    }

    /** random_unlocked(), lines 427-439. */
    method NextAdditive() returns (i: nat)
      requires Valid() && kind != 0
      modifies this`fptr, this`rptr, state
      ensures Valid() && state[0] == old(state[0])
      ensures i == Draw(old(View())) && View() == Advance(old(View()))
    {
      ghost var g := View();
      var f, r := fptr, rptr;
      assert g.words[f] == state[1 + f] && g.words[r] == state[1 + r];
      state[1 + f] := Plus(state[1 + f], state[1 + r]);
      i := state[1 + f] / 2;
      assert state[1..1 + Cells(kind)] == g.words[f := state[1 + f]];
      f := f + 1;
      if f >= deg {
        f := 0;
        r := r + 1;
        assert r < deg;
      } else {
        r := r + 1;
        if r >= deg {
          r := 0;
        }
      }
      fptr, rptr := f, r;
    }

    /** The first loop of srandom_unlocked(). */
    method FillSeeds(x: Word)
      requires Valid()
      modifies state
      ensures state[0] == old(state[0]) && state[1..1 + Cells(kind)] == Seeds(x, Cells(kind))
    {
      state[1] := x;
      var i: nat := 1;
      assert state[1..2] == [x];
      while i < deg
        invariant 1 <= i <= Cells(kind) && state[0] == old(state[0]) && state[1..1 + i] == Seeds(x, i)
      {
        assert state[i] == state[1..1 + i][i - 1];
        state[1 + i] := Congruential(state[i]);
        assert state[1..2 + i] == state[1..1 + i] + [state[1 + i]];
        i := i + 1;
      }
    }

    /** srandom_unlocked(). */
    method Srandom(x: Word)
      requires Valid()
      modifies this, state
      ensures Valid() && state == old(state) && state[0] == old(state[0]) && kind == old(kind)
      ensures View() == Seeded(kind, x)
    {
      FillSeeds(x);
      if kind == 0 {
        return;
      }
      fptr, rptr := sep, 0;
      Discard(10 * deg);
    }

    /** The second loop of srandom_unlocked(). */
    method Discard(n: nat)
      requires Valid()
      modifies this, state
      ensures Valid() && state == old(state) && state[0] == old(state[0]) && kind == old(kind)
      ensures View() == After(old(View()), n)
    {
      for i := 0 to n
        invariant Valid() && state == old(state) && state[0] == old(state[0]) && kind == old(kind)
        invariant View() == After(old(View()), i)
      {
        var dropped := Next();
        assert After(old(View()), i + 1) == Advance(After(old(View()), i));
      }
    }

    /** Word 0 of the active array gets its type and the place of the rear pointer. */
    method Save()
      requires Valid()
      modifies state
      ensures View() == old(View()) && Saved(state[..]) && Stored(state[..]) == View()
      ensures state[1..] == old(state[1..])
    {
      ghost var g := View();
      TagReads(g);
      state[0] := if kind == 0 then 0 else 5 * rptr + kind;
      assert state[1..1 + Cells(kind)] == g.words;
    }

    /** setstate() of an array that initstate() made. The old array is left so that setstate() of it
        would bring back the generator as it was. */
    method Setstate(arg: array<Word>) returns (ostate: array<Word>)
      requires Valid() && Saved(arg[..])
      modifies this, state
      ensures Valid() && state == arg && ostate == old(state)
      ensures View() == Stored(old(arg[..]))
      ensures Saved(ostate[..]) && Stored(ostate[..]) == old(View())
    {
      ostate := state;
      ghost var t := arg[..];
      var kind' := arg[0] % 5;
      var rear := arg[0] / 5;
      Save();
      kind, deg, sep := kind', Deg(kind'), Sep(kind');
      state := arg;
      if kind != 0 {
        rptr := rear;
        RoundIsMod(kind, rear);
        fptr := (rear + sep) % deg;
      }
      assert arg[1..] == t[1..];
      SamePart(arg[..], t, Cells(kind));
    }

    /** initstate(): null when there is no room even for the smallest generator. */
    method Initstate(seed: Word, arg: array<Word>, n: nat) returns (ostate: array?<Word>)
      requires Valid() && n <= 4 * arg.Length
      modifies this, state, arg
      ensures Valid() && (ostate == null <==> n < 8)
      ensures n < 8 ==> state == old(state) && View() == old(View())
      ensures n >= 8 ==> state == arg && ostate == old(state) && View() == Seeded(KindFor(n), seed)
      ensures n >= 8 ==> Saved(arg[..]) && Stored(arg[..]) == View()
      ensures arg != old(state) ==> Saved(old(state)[..]) && Stored(old(state)[..]) == old(View())
    {
      ostate := state;
      Save();
      if n < 8 {
        return null;
      }
      ghost var mine := ostate[..];
      kind := KindFor(n);
      deg, sep := Deg(kind), Sep(kind);
      state := arg;
      rptr, fptr := 0, sep;
      Srandom(seed);
      assert arg != ostate ==> ostate[..] == mine;
      Save();
    }
  }

  /** The largest generator n bytes have room for. */
  function KindFor(n: nat): Kind
    requires n >= 8
  {
    if n < 32 then 0 else if n < 64 then 1 else if n < 128 then 2 else if n < 256 then 3 else 4
  }

  /** Word 0 and the state words of that generator fit in n bytes, and those of no larger one do. */
  lemma KindFits(n: nat, k: Kind)
    requires n >= 8
    ensures 4 * (1 + Cells(KindFor(n))) <= n
    ensures k > KindFor(n) ==> 4 * (1 + Cells(k)) > n
    ensures k != 0 ==> (Deg(k), Sep(k)) == match k case 1 => (7, 3) case 2 => (15, 1) case 3 => (31, 3) case _ => (63, 1)
  {
  }

  // ---------------------------------------------------------------- the arrays, together

  /** The arrays hold a bank of generators, the active one with its place in the static variables. */
  ghost predicate Holds(rng: Generator, tabs: seq<array<Word>>, b: Bank)
    reads rng, set t | t in tabs
  {
    && |tabs| == |b.gens| && b.active < |tabs|
    && rng.Valid() && rng.state == tabs[b.active] && rng.View() == b.gens[b.active]
    && forall j :: 0 <= j < |tabs| && j != b.active ==> Saved(tabs[j][..]) && Stored(tabs[j][..]) == b.gens[j]
  }

  predicate Distinct(tabs: seq<array<Word>>) {
    forall i, j :: 0 <= i < j < |tabs| ==> tabs[i] != tabs[j]
  }

  /** Every switch is to an array other than the active one. */
  ghost predicate SwitchesAway(b: Bank, uses: seq<Use>)
    requires BankOk(b) && UsesOk(b, uses)
  {
    forall i {:trigger uses[i]} :: 0 <= i < |uses| && uses[i].Switch? ==> uses[i].to != Used(b, uses[..i]).active
  }

  method AskOnce(rng: Generator, tabs: seq<array<Word>>, ghost b: Bank) returns (x: nat)
    requires Distinct(tabs) && BankOk(b) && Holds(rng, tabs, b)
    modifies rng, rng.state
    ensures x == Draw(b.gens[b.active])
    ensures Holds(rng, tabs, b.(gens := b.gens[b.active := Advance(b.gens[b.active])]))
  {
    x := rng.Next();
    forall j | 0 <= j < |tabs| && j != b.active
      ensures tabs[j][..] == old(tabs[j][..])
    {
      assert tabs[j] != rng.state;
    }
  }

  method SwitchOnce(rng: Generator, tabs: seq<array<Word>>, to: nat, ghost b: Bank)
    requires Distinct(tabs) && BankOk(b) && Holds(rng, tabs, b) && to < |tabs| && to != b.active
    modifies rng, rng.state
    ensures Holds(rng, tabs, b.(active := to))
  {
    var was := rng.Setstate(tabs[to]);
    forall j | 0 <= j < |tabs| && j != b.active
      ensures tabs[j][..] == old(tabs[j][..])
    {
      assert tabs[j] != was;
    }
  }

  lemma UsedNext(b: Bank, uses: seq<Use>, i: nat)
    requires BankOk(b) && UsesOk(b, uses) && i < |uses|
    ensures Used(b, uses[..i + 1]) == UsedOnce(Used(b, uses[..i]), uses[i])
    ensures forall k: nat :: Given(b, uses[..i + 1], k) == Given(b, uses[..i], k) + GivenOnce(Used(b, uses[..i]), uses[i], k)
  {
    assert uses[..i + 1][..i] == uses[..i];
  }

  /** What has come out so far, array by array. */
  ghost predicate GivenSoFar(given: seq<seq<nat>>, b: Bank, uses: seq<Use>)
    requires BankOk(b) && UsesOk(b, uses)
  {
    |given| == |b.gens| && forall k: nat :: k < |given| ==> given[k] == Given(b, uses, k)
  }

  lemma GivenAlone(given: seq<seq<nat>>, b: Bank, uses: seq<Use>)
    requires BankOk(b) && UsesOk(b, uses) && GivenSoFar(given, b, uses)
    ensures forall k: nat :: k < |given| ==> given[k] == Alone(b.gens[k], |given[k]|)
  {
    forall k: nat | k < |given|
      ensures given[k] == Alone(b.gens[k], |given[k]|)
    {
      Interleaving(b, uses, k);
    }
  }

  method UseOnce(rng: Generator, tabs: seq<array<Word>>, use: Use, active: nat, given: seq<seq<nat>>, ghost b: Bank)
    returns (active': nat, given': seq<seq<nat>>)
    requires Distinct(tabs) && BankOk(b) && Holds(rng, tabs, b) && active == b.active && |given| == |tabs|
    requires use.Switch? ==> use.to < |tabs| && use.to != active
    modifies rng, rng.state
    ensures Holds(rng, tabs, UsedOnce(b, use)) && active' == UsedOnce(b, use).active
    ensures |given'| == |given| && forall k: nat :: k < |given| ==> given'[k] == given[k] + GivenOnce(b, use, k)
  {
    active', given' := active, given;
    match use {
      case Ask =>
        var x := AskOnce(rng, tabs, b);
        given' := given[active := given[active] + [x]];
      case Switch(to) =>
        SwitchOnce(rng, tabs, to, b);
        active' := to;
    }
  }

  /** Any sequence of random() and setstate() calls on any arrays: the numbers that come out while an
      array is active are, in order, those its generator gives alone. */
  method Drive(rng: Generator, tabs: seq<array<Word>>, uses: seq<Use>, first: nat, ghost b: Bank)
    returns (given: seq<seq<nat>>)
    requires Distinct(tabs) && BankOk(b) && Holds(rng, tabs, b) && first == b.active
    requires UsesOk(b, uses) && SwitchesAway(b, uses)
    modifies rng, set t | t in tabs
    ensures |given| == |tabs| && forall k: nat :: k < |given| ==> given[k] == Alone(b.gens[k], |given[k]|)
    ensures Holds(rng, tabs, Used(b, uses))
  {
    given := seq(|tabs|, k => []);
    var active := first;
    DrivenStart(given, b, uses);
    for i := 0 to |uses|
      invariant Driven(given, b, uses, i, active) && Holds(rng, tabs, Used(b, uses[..i]))
    {
      active, given := DriveOne(rng, tabs, uses, i, active, given, b);
    }
    assert uses[..|uses|] == uses;
    GivenAlone(given, b, uses);
  }

  /** After i uses array active is in use, and given has come out. */
  ghost predicate Driven(given: seq<seq<nat>>, b: Bank, uses: seq<Use>, i: nat, active: nat)
    requires BankOk(b) && UsesOk(b, uses) && i <= |uses|
  {
    active == Used(b, uses[..i]).active && GivenSoFar(given, b, uses[..i])
  }

  lemma DrivenStart(given: seq<seq<nat>>, b: Bank, uses: seq<Use>)
    requires BankOk(b) && UsesOk(b, uses) && |given| == |b.gens| && forall k :: 0 <= k < |given| ==> given[k] == []
    ensures Driven(given, b, uses, 0, b.active) && Used(b, uses[..0]) == b
  {
    assert uses[..0] == [];
  }

  method DriveOne(rng: Generator, tabs: seq<array<Word>>, uses: seq<Use>, i: nat, active: nat, given: seq<seq<nat>>, ghost b: Bank)
    returns (active': nat, given': seq<seq<nat>>)
    requires Distinct(tabs) && BankOk(b) && UsesOk(b, uses) && SwitchesAway(b, uses) && i < |uses|
    requires Driven(given, b, uses, i, active) && Holds(rng, tabs, Used(b, uses[..i]))
    modifies rng, rng.state
    ensures Driven(given', b, uses, i + 1, active') && Holds(rng, tabs, Used(b, uses[..i + 1]))
  {
    UsedNext(b, uses, i);
    active', given' := UseOnce(rng, tabs, uses[i], active, given, Used(b, uses[..i]));
  }

  // ---------------------------------------------------------------- setstate() of the active array

  /** The generator setstate() makes of an array whose word 0 was written when the generator was g and
      that has been active for n draws since. */
  ghost function Reset(g: Gen, n: nat): Gen
    requires Ok(g)
  {
    After(g, n).(rear := g.rear)
  }

  /** setstate() of the array already in use is harmless if and only if the draws since word 0 was
      written have brought the rear pointer back to where it was then. The comment in the source says
      it is always harmless; word 0 is read before it is brought up to date. */
  lemma SetActiveHarmlessIff(g: Gen, n: nat)
    requires Ok(g)
    ensures Reset(g, n) == After(g, n) <==> g.kind == 0 || n % Deg(g.kind) == 0
  {
    if g.kind == 0 {
      RearStays(g, n);
    } else {
      var d := Deg(g.kind);
      RearCycles(g, n);
      Arith.AddMod(g.rear, n, d);
    }
  }

  lemma {:induction false} RearStays(g: Gen, n: nat)
    requires Ok(g) && g.kind == 0
    ensures After(g, n).rear == g.rear
  {
    if n > 0 {
      RearStays(g, n - 1);
    }
  }

  /** One draw and then setstate() of the same array: the next number is not the one due. */
  lemma SetActiveRewinds()
    ensures var g := Gen(1, 0, [2, 0, 0, 0, 0, 0, 0]);
            Ok(g) && Draw(Reset(g, 1)) == 2 && Draw(After(g, 1)) == 0
  {
    var g := Gen(1, 0, [2, 0, 0, 0, 0, 0, 0]);
    assert Ok(g);
    assert After(g, 0) == g;
    assert Advance(g) == Gen(1, 1, [2, 0, 0, 2, 0, 0, 0]);
    assert After(g, 1) == Advance(g);
  }

  /** setstate() of the active array does just that. */
  method SetActive(rng: Generator, ghost g: Gen, ghost n: nat)
    requires rng.Valid() && Ok(g) && rng.View() == After(g, n) && rng.state[0] == Tag(g)
    modifies rng, rng.state
    ensures rng.Valid() && rng.View() == Reset(g, n)
  {
    TagReads(g);
    ghost var now := rng.View();
    assert now.kind == g.kind && rng.state[1..1 + Cells(g.kind)] == now.words;
    var was := rng.Setstate(rng.state);
  }
}
