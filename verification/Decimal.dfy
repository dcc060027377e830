/** Decimal numbers as texts: the canonical form, what it means, and how two are compared. */
module Decimal {
  import opened Optional
  import opened Sequences

  // ---------- Digits ----------

  predicate IsDigit(c: char) {
    '0' <= c <= '9'
  }

  predicate Digits(s: string) {
    forall i :: 0 <= i < |s| ==> IsDigit(s[i])
  }

  function DigitOf(c: char): (d: nat)
    requires IsDigit(c)
    ensures d <= 9
  {
    c as int - '0' as int
  }

  /** The number a string of digits writes. */
  function ValueOf(s: string): nat
    requires Digits(s)
  {
    if s == [] then 0 else 10 * ValueOf(s[..|s| - 1]) + DigitOf(s[|s| - 1])
  }

  function Pow10(k: nat): (p: nat)
    ensures p >= 1
  {
    if k == 0 then 1 else 10 * Pow10(k - 1)
  }

  function Zeros(k: nat): (s: string)
    ensures |s| == k && Digits(s) && forall i :: 0 <= i < k ==> s[i] == '0'
  {
    seq(k, _ => '0')
  }

  lemma {:induction false} ValueConcat(a: string, b: string)
    requires Digits(a) && Digits(b)
    ensures Digits(a + b) && ValueOf(a + b) == ValueOf(a) * Pow10(|b|) + ValueOf(b)
  {
    if b == [] {
      assert a + b == a;
    } else {
      var front, last := b[..|b| - 1], b[|b| - 1];
      ValueConcat(a, front);
      assert (a + b)[..|a + b| - 1] == a + front && (a + b)[|a + b| - 1] == last;
      TenTimes(ValueOf(a), Pow10(|front|), ValueOf(front));
    }
  }

  lemma {:induction false} TenTimes(x: nat, p: nat, y: nat)
    ensures 10 * (x * p + y) == x * (10 * p) + 10 * y
  {
  }

  lemma {:induction false} ValueZeros(s: string)
    requires Digits(s) && forall i :: 0 <= i < |s| ==> s[i] == '0'
    ensures ValueOf(s) == 0
  {
    if s != [] { ValueZeros(s[..|s| - 1]); }
  }

  lemma {:induction false} ValueBounded(s: string)
    requires Digits(s)
    ensures ValueOf(s) < Pow10(|s|)
  {
    if s != [] { ValueBounded(s[..|s| - 1]); }
  }

  lemma {:induction false} PowPositive(s: string)
    requires Digits(s) && s != [] && s[0] != '0'
    ensures ValueOf(s) >= Pow10(|s| - 1)
  {
    assert s == s[..1] + s[1..];
    ValueConcat(s[..1], s[1..]);
    assert s[..1][..0] == [];
    assert ValueOf(s[..1]) >= 1;
    AtLeastOnce(ValueOf(s[..1]), Pow10(|s| - 1));
  }

  lemma {:induction false} AtLeastOnce(x: nat, p: nat)
    requires x >= 1
    ensures x * p >= p
  {
  }

  /** The first digit in which two equally long strings differ decides. */
  lemma {:induction false} FirstDifference(a: string, b: string, i: nat)
    requires Digits(a) && Digits(b) && |a| == |b| && i < |a|
    requires a[..i] == b[..i] && a[i] < b[i]
    ensures ValueOf(a) < ValueOf(b)
  {
    if i + 1 == |a| {
    } else {
      var a', b' := a[..|a| - 1], b[..|b| - 1];
      assert a'[..i] == a[..i] && b'[..i] == b[..i];
      FirstDifference(a', b', i);
    }
  }

  // ---------- Numbers ----------

  /** A sign, the digits before the point and those after it. */
  datatype Number = Number(negative: bool, integer: string, fraction: string)

  predicate WellFormed(n: Number) {
    Digits(n.integer) && Digits(n.fraction) && (n.integer != "" || n.fraction != "")
  }

  function Magnitude(n: Number): real
    requires WellFormed(n)
  {
    assert Digits(n.integer + n.fraction);
    ValueOf(n.integer + n.fraction) as real / Pow10(|n.fraction|) as real
  }

  function RealOf(n: Number): real
    requires WellFormed(n)
  {
    if n.negative then -Magnitude(n) else Magnitude(n)
  }

  // ---------- Reading a decimal ----------

  predicate IsSpace(c: char) {
    c == ' ' || c == '\t' || c == '\r' || c == '\n'
  }

  function TrimLeft(s: string): string {
    if s != [] && IsSpace(s[0]) then TrimLeft(s[1..]) else s
  }

  function TrimRight(s: string): string {
    if s != [] && IsSpace(s[|s| - 1]) then TrimRight(s[..|s| - 1]) else s
  }

  function Parts(negative: bool, rest: string): Number {
    match IndexOf(rest, '.')
    case None => Number(negative, rest, "")
    case Some(p) => Number(negative, rest[..p], rest[p + 1..])
  }

  /** The lexical form of a decimal: an optional sign, digits, at most one point, at least one digit. */
  function Lex(s: string): (r: Option<Number>)
    ensures r.Some? ==> WellFormed(r.value)
  {
    var signed := s != [] && (s[0] == '+' || s[0] == '-');
    var n := Parts(signed && s[0] == '-', if signed then s[1..] else s);
    if WellFormed(n) then Some(n) else None
  }

  // ---------- The canonical form ----------

  function StripLeading(s: string): string {
    if |s| > 1 && s[0] == '0' then StripLeading(s[1..]) else s
  }

  function StripTrailing(s: string): string {
    if s != [] && s[|s| - 1] == '0' then StripTrailing(s[..|s| - 1]) else s
  }

  function Stripped(n: Number): Number {
    var i := StripLeading(n.integer);
    Number(n.negative, if i == "" then "0" else i, StripTrailing(n.fraction))
  }

  const ZERO: Number := Number(false, "0", "")

  function Reduce(n: Number): Number {
    var m := Stripped(n);
    if m.integer == "0" && m.fraction == "" then ZERO else m
  }

  /** No superfluous zero, no negative zero. */
  predicate Reduced(n: Number) {
    && WellFormed(n) && n.integer != ""
    && (|n.integer| > 1 ==> n.integer[0] != '0')
    && (n.fraction != "" ==> n.fraction[|n.fraction| - 1] != '0')
    && (n.negative ==> n.integer != "0" || n.fraction != "")
  }

  function Render(n: Number): string {
    (if n.negative then "-" else "") + n.integer + (if n.fraction == "" then "" else "." + n.fraction)
  }

  function Canonical(text: string): Option<string> {
    match Lex(TrimRight(TrimLeft(text)))
    case None => None
    case Some(n) => Some(Render(Reduce(n)))
  }

  lemma {:induction false} StripLeadingMeans(s: string)
    requires Digits(s)
    ensures var r := StripLeading(s);
            Digits(r) && ValueOf(r) == ValueOf(s) && (|r| > 1 ==> r[0] != '0') && (r == [] <==> s == [])
  {
    if |s| > 1 && s[0] == '0' {
      StripLeadingMeans(s[1..]);
      assert s == s[..1] + s[1..];
      ValueConcat(s[..1], s[1..]);
      ValueZeros(s[..1]);
    }
  }

  /** A fraction loses trailing zeros only. */
  lemma {:induction false} StripTrailingMeans(s: string)
    requires Digits(s)
    ensures var r := StripTrailing(s);
            Digits(r) && |r| <= |s| && s == r + Zeros(|s| - |r|) && (r != [] ==> r[|r| - 1] != '0')
  {
    if s != [] && s[|s| - 1] == '0' {
      var front := s[..|s| - 1];
      StripTrailingMeans(front);
      var r := StripTrailing(front);
      assert Zeros(|s| - |r|) == Zeros(|front| - |r|) + "0";
      assert s == front + "0";
    } else {
      assert s == s + Zeros(0);
    }
  }

  lemma {:induction false} ReduceReduced(n: Number)
    requires WellFormed(n)
    ensures Reduced(Reduce(n))
  {
    StripLeadingMeans(n.integer);
    StripTrailingMeans(n.fraction);
  }

  /** Zeros at the end of a fraction change neither the quotient nor anything else. */
  lemma {:induction false} MagnitudePadded(n: Number, k: nat)
    requires WellFormed(n) && |n.fraction| <= k
    ensures var padded := n.fraction + Zeros(k - |n.fraction|);
            Digits(n.integer + padded) && Magnitude(n) == ValueOf(n.integer + padded) as real / Pow10(k) as real
  {
    var m := k - |n.fraction|;
    var digits := n.integer + n.fraction;
    ValueConcat(digits, Zeros(m));
    ValueZeros(Zeros(m));
    assert digits + Zeros(m) == n.integer + (n.fraction + Zeros(m));
    PowSum(|n.fraction|, m);
    SameQuotient(ValueOf(digits), Pow10(|n.fraction|), Pow10(m));
  }

  lemma {:induction false} PowSum(a: nat, b: nat)
    ensures Pow10(a + b) == Pow10(a) * Pow10(b)
  {
    if b > 0 {
      PowSum(a, b - 1);
      TenTimes(Pow10(a), Pow10(b - 1), 0);
    }
  }

  lemma {:induction false} SameQuotient(x: nat, p: nat, q: nat)
    requires p >= 1 && q >= 1
    ensures p * q >= 1 && x as real / p as real == (x * q) as real / (p * q) as real
  {
    var rx, rp, rq := x as real, p as real, q as real;
    assert (x * q) as real == rx * rq && (p * q) as real == rp * rq;
    assert rp * rq > 0.0;
    assert rx / rp * (rp * rq) == rx * rq;
  }

  lemma {:induction false} StrippedMagnitude(n: Number)
    requires WellFormed(n)
    ensures WellFormed(Stripped(n)) && Magnitude(Stripped(n)) == Magnitude(n)
  {
    hide Magnitude, ValueOf, Pow10;
    StripLeadingMeans(n.integer);
    StripTrailingMeans(n.fraction);
    var m := Stripped(n);
    MagnitudePadded(m, |n.fraction|);
    MagnitudePadded(n, |n.fraction|);
    assert n.fraction + Zeros(0) == n.fraction;
    assert m.fraction + Zeros(|n.fraction| - |m.fraction|) == n.fraction;
    ValueConcat(m.integer, n.fraction);
    ValueConcat(n.integer, n.fraction);
    if n.integer == "" {
      ValueZeros("0");
      ValueZeros("");
    }
  }

  lemma {:induction false} ZeroMagnitude(negative: bool)
    ensures WellFormed(Number(negative, "0", "")) && Magnitude(Number(negative, "0", "")) == 0.0
  {
    ValueZeros("0");
    assert "0" + "" == "0";
  }

  /** The canonical form has the value of what was read. */
  lemma {:induction false} ReduceValue(n: Number)
    requires WellFormed(n)
    ensures WellFormed(Reduce(n)) && RealOf(Reduce(n)) == RealOf(n)
  {
    hide Magnitude, Stripped;
    StrippedMagnitude(n);
    ZeroMagnitude(true);
    ZeroMagnitude(false);
    assert Stripped(n).negative == n.negative by { StrippedSign(n); }
  }

  lemma {:induction false} StrippedSign(n: Number)
    ensures Stripped(n).negative == n.negative
  {
  }

  lemma {:induction false} ReducedFixed(n: Number)
    requires Reduced(n)
    ensures Reduce(n) == n
  {
  }

  // ---------- Canonical texts read back ----------

  lemma {:induction false} PartsRendered(n: Number)
    requires WellFormed(n)
    ensures Parts(n.negative, n.integer + (if n.fraction == "" then "" else "." + n.fraction)) == n
  {
    var rest := n.integer + (if n.fraction == "" then "" else "." + n.fraction);
    if n.fraction == "" {
      assert rest == n.integer;
      assert IndexOf(rest, '.').None?;
    } else {
      assert rest[|n.integer|] == '.';
      assert IndexOf(rest, '.') == Some(|n.integer|);
      assert rest[..|n.integer|] == n.integer && rest[|n.integer| + 1..] == n.fraction;
    }
  }

  lemma {:induction false} RenderedEnds(n: Number)
    requires WellFormed(n) && n.integer != ""
    ensures var rest := n.integer + (if n.fraction == "" then "" else "." + n.fraction);
            rest != "" && IsDigit(rest[0]) && IsDigit(rest[|rest| - 1])
  {
  }

  lemma {:induction false} RenderedText(n: Number, rest: string)
    requires rest == n.integer + (if n.fraction == "" then "" else "." + n.fraction) && rest != ""
    ensures Render(n) != "" && Render(n)[0] == (if n.negative then '-' else rest[0])
    ensures Render(n)[|Render(n)| - 1] == rest[|rest| - 1]
    ensures (if n.negative then Render(n)[1..] else Render(n)) == rest
  {
    if n.negative {
      assert Render(n) == "-" + rest;
    } else {
      assert Render(n) == rest;
    }
  }

  lemma {:induction false} Untrimmed(s: string)
    requires s != "" && !IsSpace(s[0]) && !IsSpace(s[|s| - 1])
    ensures TrimRight(TrimLeft(s)) == s
  {
  }

  lemma {:induction false} RenderLex(n: Number)
    requires WellFormed(n) && n.integer != ""
    ensures Lex(Render(n)) == Some(n)
    ensures TrimRight(TrimLeft(Render(n))) == Render(n)
  {
    hide Parts, WellFormed, Render, TrimLeft, TrimRight;
    var rest := n.integer + (if n.fraction == "" then "" else "." + n.fraction);
    RenderedEnds(n);
    RenderedText(n, rest);
    PartsRendered(n);
    Untrimmed(Render(n));
  }

  function TextValue(text: string): Option<real> {
    match Lex(TrimRight(TrimLeft(text)))
    case None => None
    case Some(n) => Some(RealOf(n))
  }

  predicate IsCanonical(text: string) {
    var n := Lex(text);
    n.Some? && Reduced(n.value) && text == Render(n.value)
  }

  /** Canonical form keeps the value, and is canonical. */
  lemma {:induction false} CanonicalKeepsValue(text: string)
    ensures Canonical(text).Some? <==> TextValue(text).Some?
    ensures Canonical(text).Some? ==>
              IsCanonical(Canonical(text).value) && TextValue(Canonical(text).value) == TextValue(text)
  {
    hide Lex, Reduce, Render, RealOf, Reduced, WellFormed;
    var n := Lex(TrimRight(TrimLeft(text)));
    if n.Some? {
      ReduceReduced(n.value);
      ReducedWellFormed(Reduce(n.value));
      RenderLex(Reduce(n.value));
      ReduceValue(n.value);
    }
  }

  lemma {:induction false} ReducedWellFormed(n: Number)
    requires Reduced(n)
    ensures WellFormed(n) && n.integer != ""
  {
  }

  /** A canonical text is its own canonical form. */
  lemma {:induction false} CanonicalFixed(text: string)
    requires IsCanonical(text)
    ensures Canonical(text) == Some(text)
  {
    hide Lex, Reduce, Render, Reduced, WellFormed;
    var n := Lex(text).value;
    ReducedWellFormed(n);
    RenderLex(n);
    ReducedFixed(n);
  }

  // ---------- Comparing ----------

  /** All digits of a magnitude, the fraction filled up to k digits. */
  function Filled(n: Number, k: nat): string
    requires |n.fraction| <= k
  {
    n.integer + FilledUp(n.fraction, k)
  }

  function FilledUp(fraction: string, k: nat): string
    requires |fraction| <= k
  {
    fraction + Zeros(k - |fraction|)
  }

  lemma {:induction false} FilledMeans(n: Number, k: nat)
    requires WellFormed(n) && |n.fraction| <= k
    ensures |Filled(n, k)| == |n.integer| + k && Digits(Filled(n, k))
    ensures Magnitude(n) == ValueOf(Filled(n, k)) as real / Pow10(k) as real
  {
    hide Magnitude, ValueOf, Pow10;
    MagnitudePadded(n, k);
  }

  lemma {:induction false} Quotients(x: nat, y: nat, p: nat)
    requires p >= 1
    ensures x < y ==> x as real / p as real < y as real / p as real
    ensures x == y ==> x as real / p as real == y as real / p as real
  {
  }

  /** More digits before the point, more in value. */
  lemma {:induction false} LongerIsMore(a: Number, b: Number)
    requires Reduced(a) && Reduced(b) && |a.integer| < |b.integer|
    ensures Magnitude(a) < Magnitude(b)
  {
    hide Magnitude, ValueOf;
    var k := if |a.fraction| < |b.fraction| then |b.fraction| else |a.fraction|;
    FilledMeans(a, k);
    FilledMeans(b, k);
    var x, y := Filled(a, k), Filled(b, k);
    ValueBounded(x);
    assert y[0] == b.integer[0];
    PowPositive(y);
    PowGrows(|x|, |y| - 1);
    Quotients(ValueOf(x), ValueOf(y), Pow10(k));
  }

  lemma {:induction false} PowGrows(a: nat, b: nat)
    requires a <= b
    ensures Pow10(a) <= Pow10(b)
  {
    if a < b { PowGrows(a, b - 1); }
  }

  lemma {:induction false} DifferenceDecides(a: Number, b: Number, k: nat, i: nat)
    requires WellFormed(a) && WellFormed(b) && |a.integer| == |b.integer| && |a.fraction| <= k && |b.fraction| <= k
    requires i < |a.integer| + k && Filled(a, k)[..i] == Filled(b, k)[..i] && Filled(a, k)[i] < Filled(b, k)[i]
    ensures Magnitude(a) < Magnitude(b)
  {
    hide Magnitude, ValueOf, Filled, Pow10;
    FilledMeans(a, k);
    FilledMeans(b, k);
    FirstDifference(Filled(a, k), Filled(b, k), i);
    Quotients(ValueOf(Filled(a, k)), ValueOf(Filled(b, k)), Pow10(k));
  }

  lemma {:induction false} SameDigits(a: Number, b: Number, k: nat)
    requires WellFormed(a) && WellFormed(b) && |a.fraction| <= k && |b.fraction| <= k && Filled(a, k) == Filled(b, k)
    ensures Magnitude(a) == Magnitude(b)
  {
    hide Magnitude, ValueOf, Filled, Pow10;
    FilledMeans(a, k);
    FilledMeans(b, k);
  }

  method FindChar(s: string, c: char) returns (r: Option<nat>)
    ensures r == IndexOf(s, c)
  {
    var i := 0;
    while i < |s|
      invariant 0 <= i <= |s| && forall j :: 0 <= j < i ==> s[j] != c
    {
      if s[i] == c { return Some(i); }
      i := i + 1;
    }
    r := None;
  }

  /** The first place where equally long strings differ. */
  method FirstDiff(a: string, b: string) returns (i: nat)
    requires |a| == |b|
    ensures i <= |a| && a[..i] == b[..i] && (i < |a| ==> a[i] != b[i])
  {
    i := 0;
    while i < |a| && a[i] == b[i]
      invariant i <= |a| && a[..i] == b[..i]
    {
      i := i + 1;
    }
  }

  method SplitAtPoint(text: string, ghost n: Number) returns (integer: string, fraction: string)
    requires WellFormed(n) && !n.negative && text == Render(n)
    ensures integer == n.integer && fraction == n.fraction
  {
    hide IndexOf, WellFormed;
    PartsRendered(n);
    assert "" + n.integer == n.integer;
    var point := FindChar(text, '.');
    match point {
      case None => integer, fraction := text, "";
      case Some(p) => integer, fraction := text[..p], text[p + 1..];
    }
  }

  /** The first place where two fractions differ, a missing digit being a zero. */
  method FirstFractionDiff(a: string, b: string, count: nat) returns (i: nat)
    requires |a| <= count && |b| <= count
    ensures i <= count && FilledUp(a, count)[..i] == FilledUp(b, count)[..i]
    ensures i < count ==> FilledUp(a, count)[i] != FilledUp(b, count)[i]
    ensures i < count ==> FilledUp(a, count)[i] == FractionDigit(a, i) && FilledUp(b, count)[i] == FractionDigit(b, i)
  {
    i := 0;
    while i < count && FractionDigit(a, i) == FractionDigit(b, i)
      invariant i <= count && FilledUp(a, count)[..i] == FilledUp(b, count)[..i]
    {
      i := i + 1;
    }
  }

  function FractionDigit(fraction: string, i: nat): char {
    if i < |fraction| then fraction[i] else '0'
  }

  lemma {:induction false} IntegersDecide(a: Number, b: Number, k: nat, i: nat)
    requires WellFormed(a) && WellFormed(b) && |a.integer| == |b.integer| && |a.fraction| <= k && |b.fraction| <= k
    requires i < |a.integer| && a.integer[..i] == b.integer[..i] && a.integer[i] < b.integer[i]
    ensures Magnitude(a) < Magnitude(b)
  {
    hide Magnitude, FilledUp;
    assert Filled(a, k)[..i] == a.integer[..i] && Filled(b, k)[..i] == b.integer[..i];
    FilledMeans(a, k);
    DifferenceDecides(a, b, k, i);
  }

  lemma {:induction false} FractionsDecide(a: Number, b: Number, k: nat, i: nat)
    requires WellFormed(a) && WellFormed(b) && a.integer == b.integer && |a.fraction| <= k && |b.fraction| <= k
    requires i < k && FilledUp(a.fraction, k)[..i] == FilledUp(b.fraction, k)[..i]
    requires FilledUp(a.fraction, k)[i] < FilledUp(b.fraction, k)[i]
    ensures Magnitude(a) < Magnitude(b)
  {
    hide Magnitude;
    var j := |a.integer| + i;
    assert Filled(a, k)[..j] == a.integer + FilledUp(a.fraction, k)[..i];
    assert Filled(b, k)[..j] == b.integer + FilledUp(b.fraction, k)[..i];
    DifferenceDecides(a, b, k, j);
  }

  /** Compares two canonical magnitudes digit by digit. */
  method CompareMagnitudes(a: string, b: string, ghost m: Number, ghost n: Number) returns (c: int)
    requires Reduced(m) && Reduced(n) && !m.negative && !n.negative && a == Render(m) && b == Render(n)
    ensures c < 0 <==> Magnitude(m) < Magnitude(n)
    ensures c > 0 <==> Magnitude(m) > Magnitude(n)
  {
    hide *;
    ReducedWellFormed(m);
    ReducedWellFormed(n);
    var aInteger, aFraction := SplitAtPoint(a, m);
    var bInteger, bFraction := SplitAtPoint(b, n);
    if |aInteger| < |bInteger| { LongerIsMore(m, n); return -1; }
    if |aInteger| > |bInteger| { LongerIsMore(n, m); return 1; }
    var count := if |aFraction| < |bFraction| then |bFraction| else |aFraction|;
    var d := FirstDiff(aInteger, bInteger);
    if d < |aInteger| {
      if aInteger[d] < bInteger[d] { IntegersDecide(m, n, count, d); return -1; }
      IntegersDecide(n, m, count, d);
      return 1;
    }
    assert aInteger[..d] == aInteger && bInteger[..d] == bInteger;
    var i := FirstFractionDiff(aFraction, bFraction, count);
    if i < count {
      if FractionDigit(aFraction, i) < FractionDigit(bFraction, i) { FractionsDecide(m, n, count, i); return -1; }
      FractionsDecide(n, m, count, i);
      return 1;
    }
    AllDigitsSame(m, n, count);
    c := 0;
  }

  lemma {:induction false} AllDigitsSame(a: Number, b: Number, k: nat)
    requires WellFormed(a) && WellFormed(b) && a.integer == b.integer && |a.fraction| <= k && |b.fraction| <= k
    requires FilledUp(a.fraction, k)[..k] == FilledUp(b.fraction, k)[..k]
    ensures Magnitude(a) == Magnitude(b)
  {
    hide Magnitude;
    assert FilledUp(a.fraction, k)[..k] == FilledUp(a.fraction, k) && FilledUp(b.fraction, k)[..k] == FilledUp(b.fraction, k);
    SameDigits(a, b, k);
  }

  // ---------- One canonical form for each value ----------

  lemma {:induction false} DiffExists(a: string, b: string) returns (i: nat)
    requires |a| == |b| && a != b
    ensures i < |a| && a[..i] == b[..i] && a[i] != b[i]
  {
    i := 0;
    while i < |a| && a[i] == b[i]
      invariant i <= |a| && a[..i] == b[..i]
    {
      i := i + 1;
    }
  }

  lemma {:induction false} LastIsZero(a: string, b: string, k: nat)
    requires |a| < |b| <= k && FilledUp(a, k) == FilledUp(b, k)
    ensures b[|b| - 1] == '0'
  {
    assert FilledUp(b, k)[|b| - 1] == b[|b| - 1];
  }

  lemma {:induction false} FractionsSame(a: string, b: string, k: nat)
    requires |a| <= |b| <= k && FilledUp(a, k) == FilledUp(b, k) && (b != "" ==> b[|b| - 1] != '0')
    ensures a == b
  {
    if |a| < |b| { LastIsZero(a, b, k); }
    assert FilledUp(a, k)[..|a|] == a && FilledUp(b, k)[..|b|] == b;
  }

  lemma {:induction false} MagnitudeDecides(a: Number, b: Number)
    requires Reduced(a) && Reduced(b) && Magnitude(a) == Magnitude(b)
    ensures a.integer == b.integer && a.fraction == b.fraction
  {
    hide Magnitude, FilledUp;
    if |a.integer| < |b.integer| { LongerIsMore(a, b); }
    if |b.integer| < |a.integer| { LongerIsMore(b, a); }
    var k := if |a.fraction| < |b.fraction| then |b.fraction| else |a.fraction|;
    if a.integer != b.integer {
      var i := DiffExists(a.integer, b.integer);
      if a.integer[i] < b.integer[i] { IntegersDecide(a, b, k, i); } else { IntegersDecide(b, a, k, i); }
    } else if FilledUp(a.fraction, k) != FilledUp(b.fraction, k) {
      FilledLength(a.fraction, k);
      FilledLength(b.fraction, k);
      var i := DiffExists(FilledUp(a.fraction, k), FilledUp(b.fraction, k));
      if FilledUp(a.fraction, k)[i] < FilledUp(b.fraction, k)[i] { FractionsDecide(a, b, k, i); } else { FractionsDecide(b, a, k, i); }
    } else if |a.fraction| <= |b.fraction| {
      FractionsSame(a.fraction, b.fraction, k);
    } else {
      FractionsSame(b.fraction, a.fraction, k);
    }
  }

  lemma {:induction false} FilledLength(fraction: string, k: nat)
    requires |fraction| <= k
    ensures |FilledUp(fraction, k)| == k
  {
  }

  lemma {:induction false} MagnitudeSign(n: Number)
    requires WellFormed(n)
    ensures Magnitude(n) >= 0.0
    ensures Reduced(n) && n.negative ==> Magnitude(n) > 0.0
  {
    hide ValueOf, Pow10;
    if Reduced(n) && n.negative {
      ZeroMagnitude(false);
      if Magnitude(n) == 0.0 { MagnitudeDecides(n, ZERO); }
    }
  }

  /** Two canonical texts of one value are the same text. */
  lemma {:induction false} CanonicalUnique(a: string, b: string)
    requires IsCanonical(a) && IsCanonical(b) && TextValue(a) == TextValue(b)
    ensures a == b
  {
    hide Lex, Magnitude, Render, Reduced, WellFormed;
    var m, n := Lex(a).value, Lex(b).value;
    ReducedWellFormed(m);
    ReducedWellFormed(n);
    RenderLex(m);
    RenderLex(n);
    MagnitudeSign(m);
    MagnitudeSign(n);
    MagnitudeDecides(m, n);
  }
}
