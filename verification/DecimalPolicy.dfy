/** What the chart properties make of a number they are given: the canonical form of its text, clamped
    or rounded as the property's policy says. */
module DecimalPolicy {
  import opened Decimal
  import opened Limits
  import opened Optional
  import opened Sequences

  // ---------- The canonical form, step by step ----------

  method TrimSpaces(s: string) returns (text: string)
    ensures text == TrimRight(TrimLeft(s))
  {
    text := s;
    while text != "" && IsSpace(text[0])
      invariant TrimLeft(text) == TrimLeft(s)
      decreases |text|
    {
      text := text[1..];
    }
    ghost var left := text;
    while text != "" && IsSpace(text[|text| - 1])
      invariant TrimRight(text) == TrimRight(left)
      decreases |text|
    {
      text := text[..|text| - 1];
    }
  }

  method DigitsOnly(s: string) returns (ok: bool)
    ensures ok <==> Digits(s)
  {
    var i := 0;
    while i < |s|
      invariant 0 <= i <= |s| && Digits(s[..i])
    {
      if !IsDigit(s[i]) { return false; }
      i := i + 1;
    }
    ok := true;
  }

  method StripZeros(integer: string, fraction: string) returns (i: string, f: string)
    ensures i == StripLeading(integer) && f == StripTrailing(fraction)
  {
    i, f := integer, fraction;
    while |i| > 1 && i[0] == '0'
      invariant StripLeading(i) == StripLeading(integer)
      decreases |i|
    {
      i := i[1..];
    }
    while f != "" && f[|f| - 1] == '0'
      invariant StripTrailing(f) == StripTrailing(fraction)
      decreases |f|
    {
      f := f[..|f| - 1];
    }
  }

  /** Reads an optional sign, digits and at most one point; None stands for the exception. */
  method ReadNumber(trimmed: string) returns (n: Option<Number>)
    ensures n == Lex(trimmed)
  {
    var text, negative := trimmed, false;
    if text != "" && (text[0] == '+' || text[0] == '-') {
      negative := text[0] == '-';
      text := text[1..];
    }
    var point := FindChar(text, '.');
    var integer, fraction := text, "";
    if point.Some? {
      integer, fraction := text[..point.value], text[point.value + 1..];
      var second := FindChar(fraction, '.');
      if second.Some? {
        assert !IsDigit(fraction[second.value]);
        return None;
      }
    }
    if integer == "" && fraction == "" { return None; }
    var ok := DigitsOnly(integer);
    if !ok { return None; }
    ok := DigitsOnly(fraction);
    if !ok { return None; }
    n := Some(Number(negative, integer, fraction));
  }

  method CanonicalDecimal(text: string) returns (canonical: Option<string>)
    ensures canonical == Canonical(text)
  {
    hide Lex;
    var trimmed := TrimSpaces(text);
    var n := ReadNumber(trimmed);
    if n.None? { return None; }
    var integer, fraction := StripZeros(n.value.integer, n.value.fraction);
    StripLeadingMeans(n.value.integer);
    assert Render(ZERO) == "0";
    if (integer == "" || integer == "0") && fraction == "" { return Some("0"); }
    var result := if n.value.negative then "-" else "";
    result := result + (if integer == "" then "0" else integer);
    if fraction != "" { result := result + ("." + fraction); }
    assert result == Render(Reduce(n.value));
    canonical := Some(result);
  }

  // ---------- Quality bands ----------

  /** A band's bounds are in order exactly if both are decimals and the first is at most the second. */
  method BandRangeValid(begin: string, end: string) returns (valid: bool)
    ensures valid <==> TextValue(begin).Some? && TextValue(end).Some? && TextValue(begin).value <= TextValue(end).value
  {
    hide Canonical, TextValue, Magnitude, IsCanonical;
    CanonicalKeepsValue(begin);
    CanonicalKeepsValue(end);
    var left := CanonicalDecimal(begin);
    if left.None? { return false; }
    var right := CanonicalDecimal(end);
    if right.None? { return false; }
    valid := CanonicalAtMost(left.value, right.value);
  }

  method CanonicalAtMost(left: string, right: string) returns (valid: bool)
    requires IsCanonical(left) && IsCanonical(right)
    ensures TextValue(left).Some? && TextValue(right).Some?
    ensures valid <==> TextValue(left).value <= TextValue(right).value
  {
    hide TextValue, Magnitude, Lex, Reduced, Render, WellFormed, IsCanonical;
    ghost var m := CanonicalNumber(left);
    ghost var n := CanonicalNumber(right);
    MagnitudeSign(m);
    MagnitudeSign(n);
    var leftNegative := left[0] == '-';
    var rightNegative := right[0] == '-';
    if leftNegative != rightNegative { return leftNegative; }
    var leftAbs := if leftNegative then left[1..] else left;
    var rightAbs := if rightNegative then right[1..] else right;
    AbsoluteText(m, left);
    AbsoluteText(n, right);
    var c := CompareMagnitudes(leftAbs, rightAbs, m.(negative := false), n.(negative := false));
    AbsoluteMagnitude(m);
    AbsoluteMagnitude(n);
    valid := c * (if leftNegative then -1 else 1) <= 0;
  }

  /** The number a canonical text writes. */
  lemma {:induction false} CanonicalNumber(text: string) returns (n: Number)
    requires IsCanonical(text)
    ensures Reduced(n) && WellFormed(n) && text == Render(n) && Lex(text) == Some(n)
    ensures TextValue(text) == Some(RealOf(n))
    ensures text != "" && (text[0] == '-' <==> n.negative)
  {
    n := Lex(text).value;
    RenderLex(n);
  }

  lemma {:induction false} AbsoluteText(n: Number, text: string)
    requires Reduced(n) && text == Render(n) && text != ""
    ensures Reduced(n.(negative := false)) && (if n.negative then text[1..] else text) == Render(n.(negative := false))
  {
    if n.negative {
      assert text == "-" + Render(n.(negative := false));
      assert text[1..] == Render(n.(negative := false));
    }
  }

  lemma {:induction false} AbsoluteMagnitude(n: Number)
    requires WellFormed(n)
    ensures WellFormed(n.(negative := false)) && Magnitude(n.(negative := false)) == Magnitude(n)
  {
  }

  // ---------- Numbers as texts ----------

  function NatText(n: nat): (s: string)
    ensures s != "" && Digits(s) && ValueOf(s) == n
    ensures |s| > 1 ==> s[0] != '0'
    ensures n > 0 ==> s[0] != '0'
  {
    if n < 10 then
      var s := [('0' as int + n) as char];
      assert s[..0] == "";
      s
    else
      var front := NatText(n / 10);
      var s := front + [('0' as int + n % 10) as char];
      assert s[..|s| - 1] == front;
      s
  }

  function IntNumber(i: int): Number {
    Number(i < 0, NatText(if i < 0 then -i else i), "")
  }

  function IntText(i: int): string {
    Render(IntNumber(i))
  }

  lemma {:induction false} IntTextMeans(i: int)
    ensures Reduced(IntNumber(i)) && WellFormed(IntNumber(i)) && RealOf(IntNumber(i)) == i as real
    ensures IsCanonical(IntText(i))
  {
    hide Lex, Render, Reduced, Magnitude, NatText;
    var n := IntNumber(i);
    IntReduced(i);
    RenderLex(n);
    WholeMagnitude(n);
  }

  lemma {:induction false} IntReduced(i: int)
    ensures Reduced(IntNumber(i)) && WellFormed(IntNumber(i)) && IntNumber(i).integer != ""
  {
    hide NatText;
    var n := IntNumber(i);
    assert n.integer == "0" ==> n.integer[0] == '0';
  }

  lemma {:induction false} WholeMagnitude(n: Number)
    requires WellFormed(n) && n.fraction == ""
    ensures Magnitude(n) == ValueOf(n.integer) as real
  {
    hide ValueOf;
    assert n.integer + n.fraction == n.integer;
    PowZero();
  }

  // ---------- Policies ----------

  datatype Policy = AnyDecimal | NonnegativeDecimal | UnitDecimal | RoundedWrappedInt32

  datatype Scalar = DecimalText(text: string) | Integer(i: int) | Boolean(b: bool) | Text(s: string) | NotANumber

  function TextOf(v: Scalar): Option<string> {
    match v
    case DecimalText(t) => Some(t)
    case Integer(i) => Some(IntText(i))
    case Boolean(b) => Some(if b then "1" else "0")
    case Text(t) => Some(t)
    case NotANumber => None
  }

  predicate IsWide(c: char) {
    c in {' ', '\t', '\r', '\n', 11 as char, 12 as char}
  }

  function TrimWide(s: string): string {
    if s != "" && IsWide(s[0]) then TrimWide(s[1..])
    else if s != "" && IsWide(s[|s| - 1]) then TrimWide(s[..|s| - 1])
    else s
  }

  function Points(s: string): (r: string)
    ensures |r| == |s| && forall i :: 0 <= i < |s| ==> r[i] == if s[i] == ',' then '.' else s[i]
  {
    seq(|s|, i requires 0 <= i < |s| => if s[i] == ',' then '.' else s[i])
  }

  predicate StartsWith(s: string, prefix: string) {
    prefix <= s
  }

  const TWO_32: int := 0x1_0000_0000

  /** The 32-bit signed integer congruent to a number. */
  function Wrap32(x: int): (r: int)
    ensures -MAX_INT32 - 1 <= r <= MAX_INT32 && (r - x) % TWO_32 == 0
  {
    var bits := x % TWO_32;
    if bits <= MAX_INT32 then bits else bits - TWO_32
  }

  function RoundHalfAway(x: real): int {
    if x >= 0.0 then (x + 0.5).Floor else -(-x + 0.5).Floor
  }

  function Clamp(policy: Policy, x: real): real {
    match policy
    case NonnegativeDecimal => if x < 0.0 then 0.0 else x
    case UnitDecimal => if x < 0.0 then 0.0 else if x > 1.0 then 1.0 else x
    case _ => x
  }

  function ApplyPolicy(policy: Policy, c: string): Scalar
    requires IsCanonical(c)
  {
    match policy
    case AnyDecimal => DecimalText(c)
    case NonnegativeDecimal => DecimalText(if StartsWith(c, "-") then "0" else c)
    case UnitDecimal =>
      DecimalText(if StartsWith(c, "-") then "0" else if c != "0" && c != "1" && !StartsWith(c, "0.") then "1" else c)
    case RoundedWrappedInt32 => Integer(Wrap32(RoundHalfAway(TextValueOf(c))))
  }

  function TextValueOf(c: string): real
    requires IsCanonical(c)
  {
    RealOf(Lex(c).value)
  }

  function Normalize(policy: Policy, v: Scalar): Option<Scalar> {
    match TextOf(v)
    case None => None
    case Some(t) =>
      if TrimWide(t) == "" then None
      else
        var text := Points(TrimWide(t));
        CanonicalKeepsValue(text);
        match Canonical(text) case None => None case Some(c) => Some(ApplyPolicy(policy, c))
  }

  // ---------- Clamping ----------

  /** Below one: a zero before the point. */
  lemma {:induction false} UnitText(c: string)
    requires IsCanonical(c)
    ensures var n := Lex(c).value;
            && WellFormed(n)
            && (StartsWith(c, "-") <==> RealOf(n) < 0.0)
            && (c == "0" ==> RealOf(n) == 0.0) && (c == "1" ==> RealOf(n) == 1.0)
            && (!StartsWith(c, "-") ==> ((c == "0" || StartsWith(c, "0.")) <==> RealOf(n) < 1.0))
  {
    hide Magnitude, ValueOf, Pow10, Lex, Reduced, WellFormed, Render, IsCanonical;
    var n := CanonicalNumber(c);
    MagnitudeSign(n);
    ZeroOrOne(n);
    RenderedStart(n);
    if c == "0" || c == "1" { RenderedDigit(n); }
  }

  lemma {:induction false} RenderedStart(n: Number)
    requires Reduced(n)
    ensures !n.negative ==> ((Render(n) == "0" || StartsWith(Render(n), "0.")) <==> n.integer == "0")
    ensures !n.negative ==> !StartsWith(Render(n), "-")
    ensures n.negative ==> StartsWith(Render(n), "-") && Render(n) != "0" && Render(n) != "1"
  {
    var text := Render(n);
    if !n.negative {
      assert text == n.integer + (if n.fraction == "" then "" else "." + n.fraction);
      if n.integer == "0" && n.fraction != "" { assert text[0] == '0' && text[1] == '.'; }
      assert text[0] == n.integer[0] && IsDigit(text[0]);
    } else {
      assert text[0] == '-';
    }
  }

  lemma {:induction false} RenderedDigit(n: Number)
    requires Reduced(n) && (Render(n) == "0" || Render(n) == "1")
    ensures n == Number(false, Render(n), "")
  {
    var text := Render(n);
    if !n.negative {
      assert text == n.integer + (if n.fraction == "" then "" else "." + n.fraction);
      assert |n.integer| == 1 && text[..1] == n.integer;
    }
  }

  /** The value lies between the integer part and the next integer. */
  lemma {:induction false} IntegerPart(n: Number)
    requires WellFormed(n)
    ensures Magnitude(n) == (ValueOf(n.integer) * Pow10(|n.fraction|) + ValueOf(n.fraction)) as real / Pow10(|n.fraction|) as real
    ensures ValueOf(n.integer) as real <= Magnitude(n) < (ValueOf(n.integer) + 1) as real
    ensures n.fraction == "" ==> Magnitude(n) == ValueOf(n.integer) as real
  {
    hide ValueOf, Pow10;
    ValueConcat(n.integer, n.fraction);
    ValueBounded(n.fraction);
    QuotientBetween(ValueOf(n.integer), ValueOf(n.fraction), Pow10(|n.fraction|));
    if n.fraction == "" { ValueZeros(""); PowZero(); }
  }

  lemma {:induction false} PowZero()
    ensures Pow10(0) == 1
  {
  }

  lemma {:induction false} QuotientBetween(i: nat, f: nat, p: nat)
    requires f < p
    ensures i as real <= (i * p + f) as real / p as real < (i + 1) as real
  {
    var q := QuotientRest(i, f, p);
    BetweenZeroAndOne(q - i as real, p as real, f as real);
  }

  lemma {:induction false} QuotientRest(i: nat, f: nat, p: nat) returns (q: real)
    requires f < p
    ensures q == (i * p + f) as real / p as real && (q - i as real) * p as real == f as real
  {
    q := (i * p + f) as real / p as real;
    var ri, rp, rf := i as real, p as real, f as real;
    assert (i * p) as real == ri * rp;
    assert q * rp == ri * rp + rf;
    assert (q - ri) * rp == q * rp - ri * rp;
  }

  lemma {:induction false} BetweenZeroAndOne(x: real, p: real, f: real)
    requires p > 0.0 && x * p == f && 0.0 <= f < p
    ensures 0.0 <= x < 1.0 && (x >= 0.5 <==> 2.0 * f >= p)
  {
    Spread(0.0, x, p);
    Spread(1.0, x, p);
    Spread(0.5, x, p);
  }

  lemma {:induction false} Spread(a: real, x: real, p: real)
    requires p > 0.0
    ensures x >= a <==> x * p >= a * p
  {
    if x >= a { AtLeastProduct(x - a, p); } else { PositiveProduct(a - x, p); }
    assert (x - a) * p == x * p - a * p;
    assert (a - x) * p == a * p - x * p;
  }

  lemma {:induction false} PositiveProduct(x: real, p: real)
    requires x > 0.0 && p > 0.0
    ensures x * p > 0.0
  {
  }

  lemma {:induction false} AtLeastProduct(x: real, p: real)
    requires x >= 0.0 && p > 0.0
    ensures x * p >= 0.0
  {
  }

  lemma {:induction false} ZeroOrOne(n: Number)
    requires Reduced(n) && WellFormed(n)
    ensures n.integer == "0" <==> Magnitude(n) < 1.0
    ensures n.integer == "0" && n.fraction == "" ==> Magnitude(n) == 0.0
    ensures n.integer == "1" && n.fraction == "" ==> Magnitude(n) == 1.0
  {
    hide Magnitude;
    IntegerPart(n);
    if n.integer == "0" { ValueZeros("0"); }
    if n.integer == "1" { assert "1"[..0] == ""; }
    if n.integer != "0" { IntegerAtLeastOne(n.integer); }
  }

  lemma {:induction false} IntegerAtLeastOne(integer: string)
    requires Digits(integer) && integer != "" && integer != "0" && (|integer| > 1 ==> integer[0] != '0')
    ensures ValueOf(integer) >= 1
  {
    assert integer[0] != '0';
    PowPositive(integer);
  }

  // ---------- Rounding ----------

  /** A fraction is half or more exactly if its first digit is five or more. */
  lemma {:induction false} HalfOrMore(f: string)
    requires Digits(f) && f != ""
    ensures 2 * ValueOf(f) >= Pow10(|f|) <==> f[0] >= '5'
  {
    hide ValueOf;
    assert f == f[..1] + f[1..];
    ValueConcat(f[..1], f[1..]);
    ValueBounded(f[1..]);
    OneDigit(f[..1]);
    var d, q, r := DigitOf(f[0]), Pow10(|f| - 1), ValueOf(f[1..]);
    assert Pow10(|f|) == 10 * q;
    HalfDigit(d, q, r);
  }

  lemma {:induction false} OneDigit(s: string)
    requires Digits(s) && |s| == 1
    ensures ValueOf(s) == DigitOf(s[0])
  {
    assert s[..0] == "";
  }

  lemma {:induction false} HalfDigit(d: nat, q: nat, r: nat)
    requires r < q
    ensures 2 * (d * q + r) >= 10 * q <==> d >= 5
  {
    if d >= 5 {
      AtLeast(5, d, q);
    } else {
      AtLeast(d, 4, q);
    }
  }

  lemma {:induction false} AtLeast(a: nat, b: nat, q: nat)
    requires a <= b
    ensures a * q <= b * q
  {
  }

  function Carry(n: Number): nat {
    if n.fraction != "" && n.fraction[0] >= '5' then 1 else 0
  }

  lemma {:induction false} RoundedMagnitude(n: Number)
    requires WellFormed(n)
    ensures (Magnitude(n) + 0.5).Floor == ValueOf(n.integer) + Carry(n)
  {
    hide ValueOf, Pow10, Magnitude;
    IntegerPart(n);
    ValueBounded(n.fraction);
    RoundedQuotient(ValueOf(n.integer), ValueOf(n.fraction), Pow10(|n.fraction|));
    if n.fraction != "" { HalfOrMore(n.fraction); } else { ValueZeros(""); PowZero(); }
  }

  lemma {:induction false} RoundedQuotient(i: nat, f: nat, p: nat)
    requires f < p
    ensures ((i * p + f) as real / p as real + 0.5).Floor == if 2 * f >= p then i + 1 else i
  {
    var q := QuotientRest(i, f, p);
    BetweenZeroAndOne(q - i as real, p as real, f as real);
  }

  lemma {:induction false} RoundedReal(n: Number)
    requires Reduced(n) && WellFormed(n)
    ensures RoundHalfAway(RealOf(n)) == if n.negative then -(ValueOf(n.integer) + Carry(n)) else ValueOf(n.integer) + Carry(n)
  {
    hide Magnitude;
    MagnitudeSign(n);
    RoundedMagnitude(n);
  }

  type Uint32 = n: int | 0 <= n < 0x1_0000_0000

  /** The 32 low bits of a number. */
  function Bits(x: int): Uint32 {
    x % TWO_32
  }

  /** Reads the digits before the point into 32 bits, adds the carry, and takes the sign, all modulo 2^32. */
  method RoundWrapped(text: string, ghost n: Number) returns (r: int)
    requires Reduced(n) && WellFormed(n) && text == Render(n)
    ensures r == Wrap32(RoundHalfAway(RealOf(n)))
  {
    hide Magnitude, RoundHalfAway, Reduced, Wrap32, Render, IndexOf, ValueOf, Bits, RealOf;
    RoundedReal(n);
    RenderedParts(n);
    var negative := text[0] == '-';
    var begin := if negative then 1 else 0;
    var point := FindChar(text, '.');
    var end := if point.None? then |text| else point.value;
    var magnitude := ReadDigits(text, begin, end, n.integer);
    if point.Some? && text[point.value + 1] >= '5' { magnitude := Bits(magnitude as int + 1); }
    var bits := if negative then Bits(0 - magnitude as int) else magnitude;
    r := if bits <= MAX_INT32 then bits else bits - TWO_32;
    BitsSteps(ValueOf(n.integer), Carry(n));
    WrapIs(if n.negative then -(ValueOf(n.integer) + Carry(n)) else ValueOf(n.integer) + Carry(n), bits);
  }

  method ReadDigits(text: string, begin: nat, end: nat, ghost integer: string) returns (magnitude: Uint32)
    requires begin <= end <= |text| && text[begin..end] == integer && Digits(integer)
    ensures magnitude == Bits(ValueOf(integer))
  {
    hide ValueOf, Bits;
    magnitude := 0;
    ValueNothing();
    var i := begin;
    while i < end
      invariant begin <= i <= end && magnitude == Bits(ValueOf(integer[..i - begin]))
    {
      ghost var k := i - begin;
      assert text[i] == integer[k];
      ValueStep(integer, k);
      WrappedStep(ValueOf(integer[..k]), DigitOf(text[i]));
      magnitude := Bits(magnitude * 10 + DigitOf(text[i]));
      i := i + 1;
    }
    assert integer[..|integer|] == integer;
  }

  lemma {:induction false} ValueNothing()
    ensures ValueOf("") == 0 && Bits(0) == 0
  {
  }

  lemma {:induction false} ValueStep(s: string, k: nat)
    requires Digits(s) && k < |s|
    ensures ValueOf(s[..k + 1]) == ValueOf(s[..k]) * 10 + DigitOf(s[k])
  {
    assert s[..k + 1][..k] == s[..k];
  }

  lemma {:induction false} WrappedStep(v: nat, d: nat)
    ensures Bits(Bits(v) * 10 + d) == Bits(v * 10 + d)
  {
    var q, r := v / TWO_32, v % TWO_32;
    assert v * 10 + d == (r * 10 + d) + TWO_32 * (q * 10);
    WrappedMultiple(r * 10 + d, q * 10);
  }

  lemma {:induction false} WrappedMultiple(x: int, k: nat)
    ensures (x + TWO_32 * k) % TWO_32 == x % TWO_32
  {
    if k > 0 {
      WrappedMultiple(x, k - 1);
      assert x + TWO_32 * k == (x + TWO_32 * (k - 1)) + TWO_32;
    }
  }

  /** Adding a carry and negating commute with taking the low bits. */
  lemma {:induction false} BitsSteps(v: nat, carry: nat)
    requires carry <= 1
    ensures carry == 0 ==> Bits(v) == Bits(v + carry)
    ensures carry == 1 ==> Bits(Bits(v) + 1) == Bits(v + carry)
    ensures Bits(0 - Bits(v + carry)) == Bits(-(v + carry))
  {
    hide Bits;
    BitsPlus(v, carry);
    BitsMinus(v + carry);
  }

  lemma {:induction false} BitsPlus(v: nat, c: nat)
    ensures Bits(Bits(v) + c) == Bits(v + c)
  {
    WrappedMultiple(v % TWO_32 + c, v / TWO_32);
  }

  lemma {:induction false} BitsMinus(v: int)
    requires v >= 0
    ensures Bits(0 - Bits(v)) == Bits(-v)
  {
    WrappedMultiple(-v, v / TWO_32);
  }

  lemma {:induction false} WrapIs(x: int, bits: int)
    requires bits == Bits(x)
    ensures Wrap32(x) == if bits <= MAX_INT32 then bits else bits - TWO_32
  {
  }

  lemma {:induction false} RenderedDigits(n: Number)
    requires Reduced(n)
    ensures var text, begin := Render(n), if n.negative then 1 else 0;
            && |text| >= begin + |n.integer| && text[begin..begin + |n.integer|] == n.integer
            && forall j :: 0 <= j < begin + |n.integer| ==> text[j] != '.'
  {
    var sign := if n.negative then "-" else "";
    var rest := if n.fraction == "" then "" else "." + n.fraction;
    assert Render(n) == sign + n.integer + rest;
    SecondOfThree(sign, n.integer, rest);
  }

  lemma {:induction false} SecondOfThree(a: string, b: string, c: string)
    ensures (a + b + c)[|a|..|a| + |b|] == b
    ensures forall j :: 0 <= j < |a| ==> (a + b + c)[j] == a[j]
    ensures forall j :: |a| <= j < |a| + |b| ==> (a + b + c)[j] == b[j - |a|]
  {
  }

  lemma {:induction false} RenderedParts(n: Number)
    requires Reduced(n) && WellFormed(n)
    ensures var text, begin := Render(n), if n.negative then 1 else 0;
            && text != "" && (text[0] == '-' <==> n.negative)
            && (n.fraction == "" ==> IndexOf(text, '.').None? && |text| == begin + |n.integer|)
            && (n.fraction != "" ==> IndexOf(text, '.') == Some(begin + |n.integer|))
            && (n.fraction != "" ==> |text| > begin + |n.integer| + 1 && text[begin + |n.integer| + 1] == n.fraction[0])
            && |text| >= begin + |n.integer| && text[begin..begin + |n.integer|] == n.integer
  {
    hide IndexOf;
    var text, begin := Render(n), if n.negative then 1 else 0;
    RenderedDigits(n);
    if n.fraction != "" { assert text[begin + |n.integer|] == '.'; }
  }

  // ---------- Normalising a property value ----------

  method ApplyPolicyTo(policy: Policy, c: string) returns (v: Scalar)
    requires IsCanonical(c)
    ensures v == ApplyPolicy(policy, c)
  {
    hide IsCanonical, Lex, Reduced, Render, WellFormed, RealOf, RoundHalfAway, Wrap32;
    ghost var n := CanonicalNumber(c);
    var text := c;
    match policy {
      case AnyDecimal =>
      case NonnegativeDecimal => if StartsWith(text, "-") { text := "0"; }
      case UnitDecimal =>
        if StartsWith(text, "-") { text := "0"; } else if text != "0" && text != "1" && !StartsWith(text, "0.") { text := "1"; }
      case RoundedWrappedInt32 =>
        var r := RoundWrapped(c, n);
        return Integer(r);
    }
    v := DecimalText(text);
  }

  method NormalizeNumber(policy: Policy, v: Scalar) returns (r: Option<Scalar>)
    ensures r == Normalize(policy, v)
  {
    hide Canonical, IsCanonical, ApplyPolicy, TrimWide, Points;
    var text := TextOf(v);
    if text.None? { return None; }
    var trimmed := TrimWide(text.value);
    if trimmed == "" { return None; }
    trimmed := Points(trimmed);
    CanonicalKeepsValue(trimmed);
    var c := CanonicalDecimal(trimmed);
    if c.None? { return None; }
    var w := ApplyPolicyTo(policy, c.value);
    r := Some(w);
  }

  lemma {:induction false} ZeroAndOneCanonical()
    ensures IsCanonical("0") && TextValueOf("0") == 0.0 && IsCanonical("1") && TextValueOf("1") == 1.0
  {
    IntTextMeans(0);
    IntTextMeans(1);
    assert IntText(0) == "0" && IntText(1) == "1";
    RenderLex(IntNumber(0));
    RenderLex(IntNumber(1));
  }

  /** A clamping policy gives the clamped value in canonical form, the rounding one the wrapped integer. */
  lemma {:induction false} PolicyMeans(policy: Policy, c: string)
    requires IsCanonical(c)
    ensures policy == RoundedWrappedInt32 ==> ApplyPolicy(policy, c) == Integer(Wrap32(RoundHalfAway(TextValueOf(c))))
    ensures policy != RoundedWrappedInt32 ==>
              var v := ApplyPolicy(policy, c);
              v.DecimalText? && IsCanonical(v.text) && TextValueOf(v.text) == Clamp(policy, TextValueOf(c))
  {
    hide IsCanonical, Lex, RealOf, RoundHalfAway, Wrap32, StartsWith;
    UnitText(c);
    ZeroAndOneCanonical();
  }

  lemma {:induction false} CanonicalChars(c: string)
    requires IsCanonical(c)
    ensures c != "" && forall i :: 0 <= i < |c| ==> IsDigit(c[i]) || c[i] == '-' || c[i] == '.'
    ensures !IsWide(c[0]) && !IsWide(c[|c| - 1])
  {
    hide Lex;
    var n := Lex(c).value;
  }

  lemma {:induction false} CanonicalUntouched(c: string)
    requires IsCanonical(c)
    ensures TrimWide(c) == c && Points(c) == c && Canonical(c) == Some(c)
  {
    hide IsCanonical, Canonical;
    CanonicalChars(c);
    CanonicalFixed(c);
    assert forall i :: 0 <= i < |c| ==> c[i] != ',';
  }

  lemma {:induction false} PolicyAgain(policy: Policy, c: string)
    requires IsCanonical(c)
    ensures var v := ApplyPolicy(policy, c);
            v.DecimalText? && IsCanonical(v.text) ==> ApplyPolicy(policy, v.text) == v
  {
    hide IsCanonical, Lex, RealOf, RoundHalfAway, Wrap32;
    ZeroAndOneCanonical();
  }

  lemma {:induction false} WholeRounds(i: int)
    ensures RoundHalfAway(i as real) == i && (-MAX_INT32 - 1 <= i <= MAX_INT32 ==> Wrap32(i) == i)
  {
  }

  lemma {:induction false} IntegerAgain(i: int)
    requires -MAX_INT32 - 1 <= i <= MAX_INT32
    ensures Normalize(RoundedWrappedInt32, Integer(i)) == Some(Integer(i))
  {
    hide IsCanonical, Canonical, Lex, RealOf, Render, RoundHalfAway, Wrap32, TrimWide, Points, IntNumber;
    IntTextMeans(i);
    CanonicalUntouched(IntText(i));
    CanonicalChars(IntText(i));
    CanonicalKeepsValue(IntText(i));
    IntReduced(i);
    RenderLex(IntNumber(i));
    WholeRounds(i);
    assert TextValueOf(IntText(i)) == i as real;
  }

  /** What a policy has made of a value, it leaves alone: the stored value passes validation again. */
  lemma {:induction false} NormalizeIdempotent(policy: Policy, v: Scalar)
    requires Normalize(policy, v).Some?
    ensures Normalize(policy, Normalize(policy, v).value) == Normalize(policy, v)
  {
    hide IsCanonical, Canonical, TrimWide, Points, ApplyPolicy, Wrap32, RoundHalfAway;
    var text := Points(TrimWide(TextOf(v).value));
    CanonicalKeepsValue(text);
    var c := Canonical(text).value;
    PolicyMeans(policy, c);
    if policy == RoundedWrappedInt32 {
      IntegerAgain(Wrap32(RoundHalfAway(TextValueOf(c))));
    } else {
      var w := ApplyPolicy(policy, c);
      PolicyAgain(policy, c);
      CanonicalUntouched(w.text);
      CanonicalChars(w.text);
    }
  }
}
