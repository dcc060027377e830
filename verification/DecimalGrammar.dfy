/** The texts that are decimals, said by their grammar: blanks around an optional sign, digits, and at most
    one point. The readers of `Decimal` and `DecimalPolicy` accept these texts and no others. */
module DecimalGrammar {
  import opened Decimal
  import opened DecimalPolicy
  import opened Optional
  import opened Sequences

  // ---------- Numerals ----------

  /** The digits of a number, with a point if there is a fraction, or after the integer digits all the same. */
  predicate Unsigned(rest: string, n: Number) {
    (rest == n.integer && n.fraction == "") || rest == n.integer + "." + n.fraction
  }

  predicate Spells(s: string, n: Number) {
    && (forall i :: 0 <= i < |n.integer| ==> '0' <= n.integer[i] <= '9')
    && (forall i :: 0 <= i < |n.fraction| ==> '0' <= n.fraction[i] <= '9')
    && |n.integer| + |n.fraction| > 0
    && if n.negative then |s| > 0 && s[0] == '-' && Unsigned(s[1..], n)
       else Unsigned(s, n) || (|s| > 0 && s[0] == '+' && Unsigned(s[1..], n))
  }

  lemma {:induction false} PartsMean(negative: bool, rest: string, n: Number)
    requires WellFormed(n) && n.negative == negative
    ensures Parts(negative, rest) == n <==> Unsigned(rest, n)
  {
    hide IndexOf;
    if rest == n.integer + "." + n.fraction {
      PointAfter(n.integer, n.fraction);
    }
    match IndexOf(rest, '.') {
      case None => NoPointIn(rest, n);
      case Some(p) =>
        assert rest == rest[..p] + "." + rest[p + 1..];
        assert rest == n.integer ==> IsDigit(rest[p]);
    }
  }

  lemma {:induction false} PointAfter(a: string, b: string)
    requires Digits(a)
    ensures IndexOf(a + "." + b, '.') == Some(|a|)
    ensures (a + "." + b)[..|a|] == a && (a + "." + b)[|a| + 1..] == b
  {
    var s := a + "." + b;
    assert forall i :: 0 <= i < |a| ==> s[i] == a[i] && IsDigit(a[i]);
    FirstAt(s, '.', |a|);
  }

  lemma {:induction false} FirstAt(s: string, c: char, k: nat)
    requires k < |s| && s[k] == c && forall i :: 0 <= i < k ==> s[i] != c
    ensures IndexOf(s, c) == Some(k)
  {
    hide IndexOf;
    assert c in s;
    InPrefix(s, k, IndexOf(s, c).value);
  }

  lemma {:induction false} InPrefix(s: string, k: nat, p: nat)
    ensures k < p <= |s| ==> s[k] in s[..p]
  {
  }

  lemma {:induction false} NoPointIn(rest: string, n: Number)
    requires IndexOf(rest, '.') == None
    ensures rest != n.integer + "." + n.fraction
  {
    hide IndexOf;
    HasPoint(n.integer, n.fraction);
  }

  lemma {:induction false} HasPoint(a: string, b: string)
    ensures '.' in a + "." + b
  {
    assert (a + "." + b)[|a|] == '.';
  }

  /** A text is read as a number exactly if it spells that number. */
  lemma {:induction false} LexIff(s: string, n: Number)
    ensures Lex(s) == Some(n) <==> Spells(s, n)
  {
    hide Parts;
    if WellFormed(n) {
      if Unsigned(s, n) { UnsignedStart(s, n); }
      PartsMean(n.negative, s, n);
      if s != "" { PartsMean(n.negative, s[1..], n); }
      PartsSign(s, n);
    }
  }

  lemma {:induction false} PartsSign(s: string, n: Number)
    ensures forall b :: Parts(b, s).negative == b
    ensures s != "" ==> forall b :: Parts(b, s[1..]).negative == b
  {
    hide IndexOf;
  }

  lemma {:induction false} UnsignedStart(s: string, n: Number)
    requires WellFormed(n) && Unsigned(s, n)
    ensures s != "" && s[0] != '+' && s[0] != '-'
  {
  }

  // ---------- Blanks ----------

  predicate BlankChar(c: char) {
    c in {' ', '\t', '\r', '\n'}
  }

  predicate Blank(s: string) {
    forall i :: 0 <= i < |s| ==> BlankChar(s[i])
  }

  /** Trimming takes the blanks away at both ends, and nothing else. */
  lemma {:induction false} TrimMeans(a: string, m: string, b: string)
    requires Blank(a) && Blank(b) && m != "" && !BlankChar(m[0]) && !BlankChar(m[|m| - 1])
    ensures TrimRight(TrimLeft(a + m + b)) == m
  {
    TrimLeftMeans(a, m + b);
    assert a + m + b == a + (m + b) && (m + b)[0] == m[0];
    TrimRightMeans(m, b);
  }

  lemma {:induction false} TrimLeftMeans(a: string, m: string)
    requires Blank(a) && m != "" && !BlankChar(m[0])
    ensures TrimLeft(a + m) == m
  {
    if a == "" {
      assert a + m == m;
    } else {
      assert (a + m)[1..] == a[1..] + m;
      TrimLeftMeans(a[1..], m);
    }
  }

  lemma {:induction false} TrimRightMeans(m: string, b: string)
    requires Blank(b) && m != "" && !BlankChar(m[|m| - 1])
    ensures TrimRight(m + b) == m
  {
    if b == "" {
      assert m + b == m;
    } else {
      assert (m + b)[..|m + b| - 1] == m + b[..|b| - 1];
      TrimRightMeans(m, b[..|b| - 1]);
    }
  }

  /** What trimming takes away is blank. */
  lemma {:induction false} TrimSplits(s: string) returns (a: string, b: string)
    ensures s == a + TrimRight(TrimLeft(s)) + b && Blank(a) && Blank(b)
  {
    a := LeftBlanks(s);
    b := RightBlanks(TrimLeft(s));
    assert a + (TrimRight(TrimLeft(s)) + b) == a + TrimRight(TrimLeft(s)) + b;
  }

  lemma {:induction false} LeftBlanks(s: string) returns (a: string)
    ensures s == a + TrimLeft(s) && Blank(a)
  {
    if s != "" && IsSpace(s[0]) {
      a := LeftBlanks(s[1..]);
      a := [s[0]] + a;
    } else {
      a := "";
    }
  }

  lemma {:induction false} RightBlanks(s: string) returns (b: string)
    ensures s == TrimRight(s) + b && Blank(b)
  {
    if s != "" && IsSpace(s[|s| - 1]) {
      b := RightBlanks(s[..|s| - 1]);
      b := b + [s[|s| - 1]];
    } else {
      b := "";
    }
  }

  // ---------- Decimals ----------

  lemma {:induction false} SpelledEnds(m: string, n: Number)
    requires Spells(m, n)
    ensures m != "" && !BlankChar(m[0]) && !BlankChar(m[|m| - 1])
  {
    var rest := if Unsigned(m, n) then m else m[1..];
    assert rest != "" && rest[|rest| - 1] == m[|m| - 1];
    if rest == n.integer + "." + n.fraction && n.fraction != "" {
      assert rest[|rest| - 1] == n.fraction[|n.fraction| - 1];
    }
  }

  /** Whatever spells a number, with blanks around it, has the number's canonical text and value. */
  lemma {:induction false} CanonicalOf(a: string, m: string, b: string, n: Number)
    requires Blank(a) && Blank(b) && Spells(m, n)
    ensures WellFormed(n)
    ensures Canonical(a + m + b) == Some(Render(Reduce(n))) && TextValue(a + m + b) == Some(RealOf(n))
  {
    hide Lex, Render, Reduce, RealOf, TrimLeft, TrimRight;
    SpelledEnds(m, n);
    TrimMeans(a, m, b);
    LexIff(m, n);
  }

  /** No other text is a decimal. */
  lemma {:induction false} CanonicalSpelled(text: string) returns (a: string, m: string, b: string, n: Number)
    requires Canonical(text).Some?
    ensures text == a + m + b && Blank(a) && Blank(b) && Spells(m, n)
  {
    hide Lex, Spells, Blank, TrimLeft, TrimRight;
    a, b := TrimSplits(text);
    m := TrimRight(TrimLeft(text));
    n := Lex(m).value;
    LexIff(m, n);
  }

  // ---------- Property values as numbers ----------

  /** The text of a value: a truth value counts as one or nothing, an integer as its own canonical text. */
  lemma {:induction false} TextOfMeans(v: Scalar)
    ensures v == Boolean(true) ==> TextOf(v) == Some("1")
    ensures v == Boolean(false) ==> TextOf(v) == Some("0")
    ensures v.Text? ==> TextOf(v) == Some(v.s)
    ensures v.DecimalText? ==> TextOf(v) == Some(v.text)
    ensures v.Integer? ==> TextOf(v).Some? && IsCanonical(TextOf(v).value) && TextValue(TextOf(v).value) == Some(v.i as real)
    ensures v.NotANumber? ==> TextOf(v) == None
  {
    hide IsCanonical, Lex, RealOf, Render, TrimLeft, TrimRight;
    if v.Integer? {
      IntTextMeans(v.i);
      CanonicalFixed(IntText(v.i));
      var n := CanonicalNumber(IntText(v.i));
      IntTextIs(v.i);
    }
  }

  lemma {:induction false} IntTextIs(i: int)
    ensures WellFormed(IntNumber(i)) && TextValue(IntText(i)) == Some(RealOf(IntNumber(i)))
  {
    hide NatText, Lex, RealOf, Render, TrimLeft, TrimRight, Reduced;
    IntTextMeans(i);
    IntReduced(i);
    RenderLex(IntNumber(i));
  }

  /** The blanks around a property value include vertical tabs and form feeds. */
  predicate WideBlankChar(c: char) {
    BlankChar(c) || c as int == 11 || c as int == 12
  }

  predicate WideBlank(s: string) {
    forall i :: 0 <= i < |s| ==> WideBlankChar(s[i])
  }

  lemma {:induction false} TrimWideMeans(a: string, m: string, b: string)
    requires WideBlank(a) && WideBlank(b) && m != "" && !WideBlankChar(m[0]) && !WideBlankChar(m[|m| - 1])
    ensures TrimWide(a + m + b) == m
    decreases |a| + |b|
  {
    var s := a + m + b;
    if a != "" {
      assert s[0] == a[0] && s[1..] == a[1..] + m + b;
      TrimWideMeans(a[1..], m, b);
    } else if b != "" {
      assert s[0] == m[0] && s[|s| - 1] == b[|b| - 1] && s[..|s| - 1] == a + m + b[..|b| - 1];
      TrimWideMeans(a, m, b[..|b| - 1]);
    } else {
      assert s == m;
    }
  }

  /** A property value whose text spells a number, with commas for points and blanks around it, is normalised to
      what the policy makes of that number's canonical text. */
  lemma {:induction false} NormalizeOf(policy: Policy, a: string, m: string, b: string, n: Number)
    requires WideBlank(a) && WideBlank(b) && Spells(Points(m), n) && m != ""
    ensures WellFormed(n) && IsCanonical(Render(Reduce(n)))
    ensures Normalize(policy, Text(a + m + b)) == Some(ApplyPolicy(policy, Render(Reduce(n))))
  {
    hide Canonical, Render, Reduce, IsCanonical, ApplyPolicy, TrimWide, Spells, WellFormed, TextValue, Points, WideBlank;
    PointEnds(m, n);
    TrimWideMeans(a, m, b);
    CanonicalBare(Points(m), n);
    CanonicalKeepsValue(Points(m));
  }

  lemma {:induction false} CanonicalBare(m: string, n: Number)
    requires Spells(m, n)
    ensures WellFormed(n) && Canonical(m) == Some(Render(Reduce(n)))
  {
    hide Canonical, Render, Reduce, Spells, RealOf, TextValue, WellFormed;
    CanonicalOf("", m, "", n);
    assert "" + m + "" == m;
  }

  lemma {:induction false} PointEnds(m: string, n: Number)
    requires Spells(Points(m), n) && m != ""
    ensures !WideBlankChar(m[0]) && !WideBlankChar(m[|m| - 1])
  {
    SpelledChars(Points(m), n);
    assert Points(m)[0] == if m[0] == ',' then '.' else m[0];
    assert Points(m)[|m| - 1] == if m[|m| - 1] == ',' then '.' else m[|m| - 1];
  }

  lemma {:induction false} SpelledChars(s: string, n: Number)
    requires Spells(s, n)
    ensures forall i :: 0 <= i < |s| ==> s[i] in {'+', '-', '.'} || '0' <= s[i] <= '9'
  {
  }

  // ---------- Clamping and rounding ----------

  function Apart(x: real, y: real): real {
    if x < y then y - x else x - y
  }

  /** Clamping gives the nearest number that the policy allows. */
  lemma {:induction false} ClampNearest(policy: Policy, x: real, y: real)
    ensures policy == NonnegativeDecimal ==> 0.0 <= Clamp(policy, x)
    ensures policy == UnitDecimal ==> 0.0 <= Clamp(policy, x) <= 1.0
    ensures policy in {AnyDecimal, RoundedWrappedInt32} ==> Clamp(policy, x) == x
    ensures (policy == NonnegativeDecimal ==> 0.0 <= y) && (policy == UnitDecimal ==> 0.0 <= y <= 1.0) ==>
              Apart(Clamp(policy, x), x) <= Apart(y, x)
  {
  }

  /** Rounding gives the nearest integer, and of two equally near ones the one farther from zero. */
  lemma {:induction false} RoundNearest(x: real, i: int)
    ensures Apart(RoundHalfAway(x) as real, x) <= Apart(i as real, x)
    ensures Apart(RoundHalfAway(x) as real, x) == Apart(i as real, x) ==>
              Apart(RoundHalfAway(x) as real, 0.0) >= Apart(i as real, 0.0)
  {
    var r := RoundHalfAway(x);
    assert Apart(r as real, x) <= 0.5;
    if i != r {
      assert Apart(i as real, r as real) >= 1.0 by { WholeApart(i, r); }
    }
  }

  lemma {:induction false} WholeApart(i: int, r: int)
    requires i != r
    ensures Apart(i as real, r as real) >= 1.0
  {
    if i < r { assert (r - i) as real >= 1.0; } else { assert (i - r) as real >= 1.0; }
  }
}
