/** Text and numbers: strtol of ulib/bsd/strtol.c, and printint and strtonum of
    ulib/printf.c. A long is 32 bits. Text is a C string, its NUL at index |s|. */
module Numbers {

  const LONG_MIN := -0x8000_0000
  const LONG_MAX := 0x7fff_ffff

  type Text = s: seq<char> | forall i :: 0 <= i < |s| ==> '\0' < s[i] < '\U{0100}'

  function At(s: Text, i: nat): char { if i < |s| then s[i] else '\0' }

  // ----- digits -----

  /** The value of a digit in any base, or 99 for what is none. */
  function DigitOf(c: char): nat {
    if '0' <= c <= '9' then c as int - '0' as int
    else if 'A' <= c <= 'Z' then c as int - 'A' as int + 10
    else if 'a' <= c <= 'z' then c as int - 'a' as int + 10
    else 99
  }

  /** Where the run of digits from p on ends. */
  function RunEnd(s: Text, p: nat, base: nat): (e: nat)
    requires base <= 36
    ensures p <= e && (p <= |s| ==> e <= |s|) && DigitOf(At(s, e)) >= base
    ensures forall i :: p <= i < e ==> DigitOf(At(s, i)) < base
    decreases |s| - p
  {
    if p < |s| && DigitOf(s[p]) < base then RunEnd(s, p + 1, base) else p
  }

  /** The number that the digits from p up to e stand for. */
  function Value(s: Text, p: nat, e: nat, base: nat): nat
    requires p <= e
  {
    if p == e then 0 else Value(s, p, e - 1, base) * base + DigitOf(At(s, e - 1))
  }

  // ----- what strtol reads -----

  predicate Printable(c: char) { ' ' < c < '\U{007F}' }

  /** The first printable character. */
  function Start(s: Text, i: nat): (r: nat)
    requires i <= |s|
    ensures i <= r <= |s| && (r < |s| ==> Printable(s[r])) && forall j :: i <= j < r ==> !Printable(s[j])
    decreases |s| - i
  {
    if i < |s| && !Printable(s[i]) then Start(s, i + 1) else i
  }

  predicate Negative(s: Text) { At(s, Start(s, 0)) == '-' }

  function AfterSign(s: Text): nat {
    var i := Start(s, 0);
    if At(s, i) == '-' || At(s, i) == '+' then i + 1 else i
  }

  /** 0x or 0X, where it is taken as a prefix. */
  predicate HexPrefix(s: Text, base: nat) {
    (base == 0 || base == 16) && At(s, AfterSign(s)) == '0' && (At(s, AfterSign(s) + 1) == 'x' || At(s, AfterSign(s) + 1) == 'X')
  }

  function RealBase(s: Text, base: nat): nat {
    if HexPrefix(s, base) then 16 else if base == 0 then (if At(s, AfterSign(s)) == '0' then 8 else 10) else base
  }

  function First(s: Text, base: nat): nat {
    if HexPrefix(s, base) then AfterSign(s) + 2 else AfterSign(s)
  }

  function Clamp(v: int): int {
    if v < LONG_MIN then LONG_MIN else if v > LONG_MAX then LONG_MAX else v
  }

  /** The exact integer, clamped to the range of long. */
  function Reading(s: Text, base: nat): int
    requires base == 0 || 2 <= base <= 36
  {
    var p, b := First(s, base), RealBase(s, base);
    var v: int := Value(s, p, RunEnd(s, p, b), b);
    Clamp(Signed(Negative(s), v))
  }

  /** Where reading stops: after the digits, or at the start if there are none. */
  function Stop(s: Text, base: nat): nat
    requires base == 0 || 2 <= base <= 36
  {
    var p, b := First(s, base), RealBase(s, base);
    if RunEnd(s, p, b) == p then 0 else RunEnd(s, p, b)
  }

  // ----- the cutoff test -----

  /** C's division and remainder truncate toward zero. */
  function Quotient(a: int, b: int): int
    requires b > 0
  {
    if a >= 0 then a / b else -((-a) / b)
  }

  function Remainder(a: int, b: int): int
    requires b > 0
  {
    a - b * Quotient(a, b)
  }

  /** The test passes exactly when one more digit still fits, and then nothing
      overflows on the way. */
  lemma CutoffExact(acc: nat, c: nat, base: nat, limit: nat)
    requires 2 <= base && c < base
    ensures !(acc > limit / base || (acc == limit / base && c > limit % base)) <==> acc * base + c <= limit
  {
    var q, r := limit / base, limit % base;
    assert limit == q * base + r && 0 <= r < base;
    if acc > q {
      MulAtLeast(acc, q + 1, base);
    } else if acc < q {
      MulAtLeast(q, acc + 1, base);
    }
  }

  lemma MulAtLeast(a: nat, b: nat, k: nat)
    requires a >= b
    ensures a * k >= b * k
  {
  }

  lemma {:induction false} ValueGrows(s: Text, p: nat, e: nat, f: nat, base: nat)
    requires p <= e <= f && 2 <= base
    ensures Value(s, p, e, base) <= Value(s, p, f, base)
    decreases f - e
  {
    if e < f {
      ValueGrows(s, p, e, f - 1, base);
      MulAtLeast(base, 1, Value(s, p, f - 1, base));
    }
  }

  function Signed(neg: bool, v: int): int { if neg then -v else v }

  /** What strtol has accumulated after the digits up to e. */
  ghost predicate Accumulated(s: Text, p: nat, e: nat, base: nat, neg: bool, acc: int, any: int) {
    && p <= e && 2 <= base
    && (any == 0 <==> e == p)
    && (any >= 0 ==> acc == Signed(neg, Value(s, p, e, base)) && LONG_MIN <= acc <= LONG_MAX)
    && (any < 0 ==> Value(s, p, e, base) > (if neg then -LONG_MIN else LONG_MAX) && acc == if neg then LONG_MIN else LONG_MAX)
  }

  lemma OneMoreDigit(s: Text, p: nat, e: nat, base: nat, neg: bool, acc: int, any: int)
    requires Accumulated(s, p, e, base, neg, acc, any) && DigitOf(At(s, e)) < base <= 36
    ensures var c := DigitOf(At(s, e));
            var limit := if neg then -LONG_MIN else LONG_MAX;
            var over := (if neg then -acc else acc) > limit / base || ((if neg then -acc else acc) == limit / base && c > limit % base);
            && (any < 0 ==> Accumulated(s, p, e + 1, base, neg, acc, any))
            && (any >= 0 && over ==> Accumulated(s, p, e + 1, base, neg, if neg then LONG_MIN else LONG_MAX, -1))
            && (any >= 0 && !over ==> Accumulated(s, p, e + 1, base, neg, if neg then acc * base - c else acc * base + c, 1))
  {
    ValueGrows(s, p, e, e + 1, base);
    ValueStep(s, p, e + 1, base);
    var v, c := Value(s, p, e, base), DigitOf(At(s, e));
    hide Value, DigitOf;
    CutoffExact(v, c, base, if neg then -LONG_MIN else LONG_MAX);
    if any >= 0 && neg {
      Negated(v, base, acc);
    }
  }

  lemma Negated(v: int, base: int, acc: int)
    requires acc == -v
    ensures acc * base == -(v * base)
  {
  }

  // ----- strtol -----

  /** strtol, for text with a printable character: the exact integer, clamped, and
      where reading stopped. */
  method Strtol(s: Text, base0: nat) returns (acc: int, end: nat)
    requires base0 == 0 || 2 <= base0 <= 36
    requires Start(s, 0) < |s|
    ensures acc == Reading(s, base0) && end == Stop(s, base0)
  {
    hide RunEnd, Value;
    var i := 0;
    while !Printable(s[i])
      invariant 0 <= i < |s| && Start(s, i) == Start(s, 0)
      decreases |s| - i
    {
      i := i + 1;
    }
    var neg := s[i] == '-';
    if s[i] == '-' || s[i] == '+' {
      i := i + 1;
    }
    var base := base0;
    if (base == 0 || base == 16) && At(s, i) == '0' && (At(s, i + 1) == 'x' || At(s, i + 1) == 'X') {
      i, base := i + 2, 16;
    }
    if base == 0 {
      base := if At(s, i) == '0' then 8 else 10;
    }
    acc, end := Digits(s, i, base, neg);
  }

  /** strtol's second half: the digits from p on. */
  method Digits(s: Text, p: nat, base: nat, neg: bool) returns (acc: int, end: nat)
    requires 2 <= base <= 36
    ensures acc == Clamp(Signed(neg, Value(s, p, RunEnd(s, p, base), base)))
    ensures end == if RunEnd(s, p, base) == p then 0 else RunEnd(s, p, base)
  {
    var cutoff := if neg then LONG_MIN else LONG_MAX;
    var cutlim := Remainder(cutoff, base);
    cutoff := Quotient(cutoff, base);
    if neg {
      if cutlim > 0 {
        cutlim := cutlim - base;
        cutoff := cutoff + 1;
      }
      cutlim := -cutlim;
    }
    Cutoffs(base, neg);
    acc := 0;
    var any, e := 0, p;
    while true
      invariant Accumulated(s, p, e, base, neg, acc, any) && RunEnd(s, e, base) == RunEnd(s, p, base)
      invariant cutoff == (if neg then -((-LONG_MIN) / base) else LONG_MAX / base)
      invariant cutlim == (if neg then (-LONG_MIN) % base else LONG_MAX % base)
      decreases |s| - e
    {
      var c := DigitOf(At(s, e));
      if c >= base {
        break;
      }
      OneMoreDigit(s, p, e, base, neg, acc, any);
      if any >= 0 {
        if (if neg then acc < cutoff else acc > cutoff) || (acc == cutoff && c > cutlim) {
          any, acc := -1, if neg then LONG_MIN else LONG_MAX;
        } else {
          any, acc := 1, if neg then acc * base - c else acc * base + c;
        }
      }
      e := e + 1;
    }
    end := if any != 0 then e else 0;
  }

  lemma Cutoffs(base: nat, neg: bool)
    requires 2 <= base <= 36
    ensures Quotient(LONG_MIN, base) == -((-LONG_MIN) / base) && Remainder(LONG_MIN, base) == -((-LONG_MIN) % base)
    ensures Quotient(LONG_MAX, base) == LONG_MAX / base && Remainder(LONG_MAX, base) == LONG_MAX % base
  {
    DivMod(-LONG_MIN, base);
    DivMod(LONG_MAX, base);
  }

  lemma DivMod(a: nat, b: nat)
    requires 0 < b
    ensures a - b * (a / b) == a % b
  {
  }

  // ----- printint -----

  function Glyph(d: nat): char
    requires d < 16
  {
    if d < 10 then '0' + d as char else 'A' + (d - 10) as char
  }

  function Numeral(x: nat, base: nat): (r: seq<char>)
    requires 2 <= base <= 16
    ensures |r| > 0
    decreases x
  {
    if x < base then [Glyph(x)] else Numeral(x / base, base) + [Glyph(x % base)]
  }

  /** What printint writes: a sign if asked for and needed, then the numeral of the
      magnitude, or of the bits read as unsigned. */
  function Printed(xx: int, base: nat, sgn: bool): seq<char>
    requires LONG_MIN <= xx <= LONG_MAX && 2 <= base <= 16
  {
    if sgn && xx < 0 then "-" + Numeral(-xx, base) else Numeral(if xx < 0 then xx + 0x1_0000_0000 else xx, base)
  }

  function Reversed(s: seq<char>): seq<char> {
    if s == [] then [] else Reversed(s[1..]) + [s[0]]
  }

  lemma {:induction false} ReversedPush(s: seq<char>, c: char)
    ensures Reversed(s + [c]) == [c] + Reversed(s)
  {
    if s == [] {
      assert s + [c] == [c] && [c][1..] == [];
    } else {
      ReversedPush(s[1..], c);
      assert (s + [c])[1..] == s[1..] + [c];
    }
  }

  /** The largest that can be left of an unsigned int after i decimal digits. */
  function Left(i: nat): nat {
    if i == 0 then 0xffff_ffff else Left(i - 1) / 10
  }

  lemma ReversedNone()
    ensures Reversed([]) == []
  {
  }

  lemma TenDigits()
    ensures Left(10) == 0 && Left(0) == 0xffff_ffff
  {
    assert Left(1) == 429496729 && Left(2) == 42949672 && Left(3) == 4294967;
    assert Left(4) == 429496 && Left(5) == 42949 && Left(6) == 4294;
    assert Left(7) == 429 && Left(8) == 42 && Left(9) == 4;
  }

  /** printint's digit loop: the buffer never fills, and holds the numeral backwards. */
  method FillDigits(buf: array<char>, x0: nat, base: nat) returns (i: nat)
    requires buf.Length == 16 && x0 <= 0xffff_ffff && 10 <= base <= 16
    modifies buf
    ensures 0 < i <= 10 && Reversed(buf[..i]) == Numeral(x0, base)
  {
    hide Numeral, Left, Reversed;
    TenDigits();
    ReversedNone();
    var x: nat := x0;
    i := 0;
    assert Numeral(x0, base) == Numeral(x, base) + Reversed(buf[..0]);
    while true
      invariant i < 10 && x <= Left(i) && Numeral(x0, base) == Numeral(x, base) + Reversed(buf[..i])
      decreases 10 - i
    {
      ghost var done := buf[..i];
      buf[i] := Glyph(x % base);
      assert buf[..i + 1] == done + [Glyph(x % base)];
      ReversedPush(done, Glyph(x % base));
      LessLeft(x, base, i);
      i := i + 1;
      if x / base == 0 {
        SmallNumeral(x, base);
        break;
      }
      BigNumeral(x, base, Reversed(done));
      x := x / base;
    }
  }

  lemma LessLeft(x: nat, base: nat, i: nat)
    requires x <= Left(i) && 10 <= base
    ensures x / base <= Left(i + 1)
  {
    DivSmaller(x, base);
    assert x / 10 <= Left(i) / 10;
  }

  lemma DivSmaller(x: nat, base: nat)
    requires 10 <= base
    ensures x / base <= x / 10
  {
    var q := x / base;
    MulAtLeast(base, 10, q);
    assert q * base <= x;
    assert 10 * q <= x;
  }

  lemma SmallNumeral(x: nat, base: nat)
    requires 2 <= base <= 16 && x / base == 0
    ensures Numeral(x, base) == [Glyph(x % base)]
  {
    assert x < base;
    assert x % base == x;
  }

  lemma BigNumeral(x: nat, base: nat, rest: seq<char>)
    requires 2 <= base <= 16 && x / base != 0
    ensures Numeral(x, base) + rest == Numeral(x / base, base) + ([Glyph(x % base)] + rest)
  {
    assert x >= base;
  }

  /** printint, in the bases printf uses. */
  method Printint(xx: int, base: nat, sgn: bool) returns (out: seq<char>)
    requires LONG_MIN <= xx <= LONG_MAX && (base == 10 || base == 16)
    ensures out == Printed(xx, base, sgn)
  {
    hide Numeral;
    var buf := new char[16];
    var neg := sgn && xx < 0;
    var x := if neg then -xx else if xx < 0 then xx + 0x1_0000_0000 else xx;
    var i := FillDigits(buf, x, base);
    ghost var done := buf[..i];
    if neg {
      buf[i] := '-';
      i := i + 1;
      assert buf[..i] == done + ['-'];
      ReversedPush(done, '-');
    }
    out := Emit(buf, i);
  }

  /** printint's second loop, from the end of the buffer back. */
  method Emit(buf: array<char>, n: nat) returns (out: seq<char>)
    requires n <= buf.Length
    ensures out == Reversed(buf[..n])
  {
    out := [];
    var i := n;
    while i > 0
      invariant 0 <= i <= n && out + Reversed(buf[..i]) == Reversed(buf[..n])
    {
      i := i - 1;
      assert buf[..i + 1] == buf[..i] + [buf[i]];
      ReversedPush(buf[..i], buf[i]);
      out := out + [buf[i]];
    }
    assert buf[..0] == [];
  }

  // ----- the round trip -----

  predicate IsDigit(c: char, base: nat) { ('0' <= c <= '9' || 'A' <= c <= 'F') && DigitOf(c) < base }

  predicate AllDigits(s: seq<char>, base: nat) { forall i :: 0 <= i < |s| ==> IsDigit(s[i], base) }

  lemma {:induction false} NumeralGlyphs(x: nat, base: nat)
    requires 2 <= base <= 16
    ensures AllDigits(Numeral(x, base), base)
    decreases x
  {
    NumeralStep(x, base);
    hide Numeral;
    GlyphDigit(x % base, base);
    if x >= base {
      NumeralGlyphs(x / base, base);
    }
  }

  lemma GlyphDigit(d: nat, base: nat)
    requires d < base <= 16
    ensures IsDigit(Glyph(d), base)
  {
  }

  const DIGITS := "0123456789ABCDEF"

  lemma GlyphValue(d: nat)
    requires d < 16
    ensures Glyph(d) == DIGITS[d] && DigitOf(Glyph(d)) == d
  {
  }

  /** A numeral's value is its number, in every base printint takes. */
  lemma {:induction false} NumeralValue(s: Text, p: nat, x: nat, base: nat)
    requires 2 <= base <= 16 && p + |Numeral(x, base)| <= |s| && s[p..p + |Numeral(x, base)|] == Numeral(x, base)
    ensures Value(s, p, p + |Numeral(x, base)|, base) == x
    decreases x
  {
    var n := Numeral(x, base);
    var e := p + |n|;
    NumeralStep(x, base);
    hide Numeral, Glyph, DigitOf;
    assert s[p..e][|n| - 1] == s[e - 1];
    GlyphValue(x % base);
    if x < base {
      assert Value(s, p, p, base) == 0;
    } else {
      assert s[p..e - 1] == n[..|n| - 1] == Numeral(x / base, base);
      NumeralValue(s, p, x / base, base);
      ValueStep(s, p, e, base);
      hide Value;
    }
  }

  lemma ValueStep(s: Text, p: nat, e: nat, base: nat)
    requires p < e
    ensures Value(s, p, e, base) == Value(s, p, e - 1, base) * base + DigitOf(At(s, e - 1))
  {
  }

  lemma NumeralStep(x: nat, base: nat)
    requires 2 <= base <= 16
    ensures x < base ==> Numeral(x, base) == [Glyph(x)] && x % base == x
    ensures x >= base ==> Numeral(x, base) == Numeral(x / base, base) + [Glyph(x % base)]
    ensures x / base * base + x % base == x && (x >= base ==> x / base < x)
  {
    var q := x / base;
    assert x == q * base + x % base;
    if x >= base {
      AtLeastTwice(q, base);
    } else {
      Below(x, base);
    }
  }

  lemma AtLeastTwice(q: nat, base: nat)
    requires base >= 2
    ensures q * base >= 2 * q
  {
  }

  lemma Below(x: nat, base: nat)
    requires x < base
    ensures x % base == x
  {
  }

  lemma {:induction false} RunIs(s: Text, p: nat, e: nat, base: nat)
    requires p <= e <= |s| && base <= 36 && DigitOf(At(s, e)) >= base && forall i :: p <= i < e ==> DigitOf(s[i]) < base
    ensures RunEnd(s, p, base) == e
    decreases e - p
  {
    if p < e {
      RunIs(s, p + 1, e, base);
    }
  }

  /** strtol reads back, to the end, what printint prints in base 10. */
  lemma PrintThenRead(x: int)
    requires LONG_MIN <= x <= LONG_MAX
    ensures var s := Printed(x, 10, true);
            && (forall i :: 0 <= i < |s| ==> '\0' < s[i] < '\U{0100}') && Start(s, 0) < |s|
            && Reading(s, 10) == x && Stop(s, 10) == |s|
  {
    var m: nat := if x < 0 then -x else x;
    hide Numeral;
    ReadsBack(Printed(x, 10, true), if x < 0 then 1 else 0, m, 10);
  }

  /** And what it prints in base 16, which is the number's bits; past the largest long,
      that. */
  lemma PrintThenReadHex(x: int)
    requires LONG_MIN <= x <= LONG_MAX
    ensures var s := Printed(x, 16, false);
            && (forall i :: 0 <= i < |s| ==> '\0' < s[i] < '\U{0100}') && Start(s, 0) < |s|
            && Reading(s, 16) == (if x < 0 then LONG_MAX else x) && Stop(s, 16) == |s|
  {
    var m: nat := if x < 0 then x + 0x1_0000_0000 else x;
    hide Numeral;
    ReadsBack(Printed(x, 16, false), 0, m, 16);
  }

  lemma ReadsBack(s: seq<char>, p: nat, m: nat, base: nat)
    requires p <= 1 && (base == 10 || base == 16) && (if p == 1 then s == "-" + Numeral(m, base) else s == Numeral(m, base))
    ensures (forall i :: 0 <= i < |s| ==> '\0' < s[i] < '\U{0100}') && Start(s, 0) < |s|
    ensures Reading(s, base) == Clamp(Signed(p == 1, m)) && Stop(s, base) == |s|
  {
    NumeralGlyphs(m, base);
    NumeralSome(m, base);
    hide *;
    AllPrintable(s, p, Numeral(m, base), base);
    ReadsFrom(s, p, Numeral(m, base), m, base);
  }

  lemma AllPrintable(s: seq<char>, p: nat, n: seq<char>, base: nat)
    requires p <= 1 && n != [] && AllDigits(n, base) && (if p == 1 then s == "-" + n else s == n)
    ensures |s| == p + |n| && (p == 1 ==> s[0] == '-') && forall i :: p <= i < |s| ==> s[i] == n[i - p]
    ensures (forall i :: 0 <= i < |s| ==> '\0' < s[i] < '\U{0100}') && Start(s, 0) == 0
  {
    hide Start, IsDigit;
    forall i | 0 <= i < |n| ensures Printable(n[i]) {
      InDigits(n[i], base);
    }
    assert Printable(s[0]);
    StartsAt(s);
  }

  lemma InDigits(c: char, base: nat)
    requires IsDigit(c, base)
    ensures Printable(c) && c != '-' && c != '+' && c != 'x' && c != 'X' && DigitOf(c) < base
  {
  }

  lemma ReadsFrom(t: Text, p: nat, n: seq<char>, m: nat, base: nat)
    requires p <= 1 && |t| == p + |n| && n != [] && (base == 10 || base == 16) && n == Numeral(m, base)
    requires AllDigits(n, base) && forall i :: p <= i < |t| ==> t[i] == n[i - p]
    requires Start(t, 0) == 0 && (p == 1 ==> t[0] == '-')
    ensures Reading(t, base) == Clamp(Signed(p == 1, m)) && Stop(t, base) == |t|
  {
    hide Numeral, Value, RunEnd, Start, IsDigit, DigitOf;
    assert t[p..p + |n|] == n;
    forall i | p <= i < |t| ensures DigitOf(t[i]) < base && t[i] != '-' && t[i] != '+' && t[i] != 'x' && t[i] != 'X' {
      InDigits(t[i], base);
    }
    assert AfterSign(t) == p;
    assert First(t, base) == p && RealBase(t, base) == base;
    NulIsNoDigit(base);
    RunIs(t, p, |t|, base);
    NumeralValue(t, p, m, base);
  }

  /** A number written with a sign or without, and in base 16 with its prefix, which base
      0 asks for too. */
  lemma ReadsSpelled(s: seq<char>, sign: string, hex: bool, m: nat, base0: nat)
    requires sign == "" || sign == "+" || sign == "-"
    requires if hex then (base0 == 0 || base0 == 16) && s == sign + ("0x" + Numeral(m, 16)) else base0 == 10 && s == sign + Numeral(m, 10)
    ensures (forall i :: 0 <= i < |s| ==> '\0' < s[i] < '\U{0100}') && Start(s, 0) < |s|
    ensures Reading(s, base0) == Clamp(Signed(sign == "-", m)) && Stop(s, base0) == |s|
  {
    var base := if hex then 16 else 10;
    var n := Numeral(m, base);
    NumeralGlyphs(m, base);
    NumeralSome(m, base);
    var p, f := |sign|, |s| - |n|;
    hide Numeral, Value, RunEnd, Start, Reading, Stop, IsDigit, DigitOf;
    forall i | 0 <= i < |n| ensures Printable(n[i]) && n[i] != '-' && n[i] != '+' && n[i] != 'x' && n[i] != 'X' && DigitOf(n[i]) < base {
      InDigits(n[i], base);
    }
    forall i | f <= i < |s| ensures s[i] == n[i - f] {
    }
    assert hex ==> s[p] == '0' && s[p + 1] == 'x';
    forall i | 0 <= i < |s| ensures Printable(s[i]) {
      assert i < p || (hex && p <= i < p + 2) || f <= i;
    }
    StartsAt(s);
    SpelledOut(s, p, f, n, m, base0, base);
  }

  lemma SpelledOut(t: Text, p: nat, f: nat, n: seq<char>, m: nat, base0: nat, base: nat)
    requires p <= 1 && t != [] && p <= f && |t| == f + |n| && n != [] && (base == 10 || base == 16) && n == Numeral(m, base)
    requires forall i :: f <= i < |t| ==> t[i] == n[i - f] && DigitOf(t[i]) < base && t[i] != '-' && t[i] != '+' && t[i] != 'x' && t[i] != 'X'
    requires Start(t, 0) == 0 && (p == 1 ==> t[0] == '-' || t[0] == '+') && (p == 0 ==> t[0] != '-' && t[0] != '+')
    requires if base == 16 then f == p + 2 && t[p] == '0' && t[p + 1] == 'x' && (base0 == 0 || base0 == 16) else f == p && base0 == 10
    ensures Reading(t, base0) == Clamp(Signed(t[0] == '-', m)) && Stop(t, base0) == |t|
  {
    hide Numeral, Value, RunEnd, Start, DigitOf;
    assert t[f..f + |n|] == n;
    assert AfterSign(t) == p && First(t, base0) == f && RealBase(t, base0) == base;
    NulIsNoDigit(base);
    RunIs(t, f, |t|, base);
    NumeralValue(t, f, m, base);
  }

  lemma NulIsNoDigit(base: nat)
    requires base <= 36
    ensures DigitOf('\0') >= base
  {
  }

  lemma StartsAt(s: Text)
    requires s != [] && Printable(s[0])
    ensures Start(s, 0) == 0
  {
  }

  lemma NumeralSome(x: nat, base: nat)
    requires 2 <= base <= 16
    ensures |Numeral(x, base)| > 0
  {
  }

  // ----- strtonum -----

  datatype Verdict = Fine | Invalid | TooSmall | TooLarge

  /** strtonum: the number if the whole text is one and it is in range. */
  method Strtonum(s: Text, minval: int, maxval: int) returns (val: int, err: Verdict)
    requires LONG_MIN <= minval <= maxval <= LONG_MAX && Start(s, 0) < |s|
    ensures err == Invalid <==> Stop(s, 10) != |s|
    ensures err == Invalid ==> val == 0
    ensures err != Invalid ==> minval <= val <= maxval
    ensures err == Fine ==> val == Reading(s, 10)
    ensures err == TooSmall ==> val == minval && Reading(s, 10) < minval
    ensures err == TooLarge ==> val == maxval && Reading(s, 10) > maxval
  {
    var end;
    val, end := Strtol(s, 10);
    if end == 0 || At(s, end) != '\0' {
      return 0, Invalid;
    }
    if val < minval {
      return minval, TooSmall;
    }
    if val > maxval {
      return maxval, TooLarge;
    }
    err := Fine;
  }
}
