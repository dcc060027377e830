/** Well-formed UTF-8 as section 4 of RFC 3629 defines it, and the decoder that typed values are
    checked with. */
module Utf8 {
  import opened Optional

  type Byte = b: int | 0 <= b < 256

  predicate Tail(b: Byte) {
    0x80 <= b <= 0xBF
  }

  // ---------- The grammar of section 4 ----------

  predicate IsChar1(s: seq<Byte>) {
    |s| >= 1 && s[0] <= 0x7F
  }

  predicate IsChar2(s: seq<Byte>) {
    |s| >= 2 && 0xC2 <= s[0] <= 0xDF && Tail(s[1])
  }

  predicate IsChar3(s: seq<Byte>) {
    |s| >= 3 && Tail(s[2]) && LeadsThree(s[0], s[1])
  }

  predicate LeadsThree(a: Byte, b: Byte) {
    || (a == 0xE0 && 0xA0 <= b <= 0xBF)
    || (0xE1 <= a <= 0xEC && Tail(b))
    || (a == 0xED && 0x80 <= b <= 0x9F)
    || (0xEE <= a <= 0xEF && Tail(b))
  }

  predicate IsChar4(s: seq<Byte>) {
    |s| >= 4 && Tail(s[2]) && Tail(s[3]) && LeadsFour(s[0], s[1])
  }

  predicate LeadsFour(a: Byte, b: Byte) {
    || (a == 0xF0 && 0x90 <= b <= 0xBF)
    || (0xF1 <= a <= 0xF3 && Tail(b))
    || (a == 0xF4 && 0x80 <= b <= 0x8F)
  }

  /** The length of the character that a byte sequence starts with, or zero. */
  function CharLength(s: seq<Byte>): (n: nat)
    ensures n <= |s|
  {
    if IsChar1(s) then 1 else if IsChar2(s) then 2 else if IsChar3(s) then 3 else if IsChar4(s) then 4 else 0
  }

  predicate WellFormed(s: seq<Byte>) {
    s == [] || (CharLength(s) > 0 && WellFormed(s[CharLength(s)..]))
  }

  /** A character stays one whatever follows it. */
  lemma {:induction false} CharPrefix(s: seq<Byte>, rest: seq<Byte>)
    requires CharLength(s) > 0
    ensures CharLength(s[..CharLength(s)] + rest) == CharLength(s)
  {
    var c := s[..CharLength(s)];
    assert forall i :: 0 <= i < |c| ==> (c + rest)[i] == s[i];
  }

  lemma {:induction false} CharThenRest(s: seq<Byte>, rest: seq<Byte>)
    requires CharLength(s) > 0
    ensures WellFormed(s[..CharLength(s)] + rest) <==> WellFormed(rest)
  {
    hide CharLength;
    CharPrefix(s, rest);
    var c := s[..CharLength(s)];
    assert (c + rest)[|c|..] == rest;
  }

  lemma {:induction false} AsciiThenRest(b: Byte, rest: seq<Byte>)
    requires b < 0x80
    ensures WellFormed([b] + rest) <==> WellFormed(rest)
  {
    assert ([b] + rest)[1..] == rest;
  }

  // ---------- The decoder ----------

  /** The code point that three bytes write is in range, and no surrogate, exactly for the byte ranges of
      the grammar. */
  lemma {:induction false} ThreeBytes(a: Byte, b: Byte, c: Byte)
    requires 0xE0 <= a <= 0xEF && Tail(b) && Tail(c)
    ensures var cp := (a % 16 * 64 + b % 64) * 64 + c % 64;
            cp >= 0x800 && !(0xD800 <= cp <= 0xDFFF) <==> IsChar3([a, b, c])
    ensures (a % 16 * 64 + b % 64) * 64 + c % 64 <= 0x10FFFF
  {
    assert a % 16 == a - 0xE0 && b % 64 == b - 0x80 && c % 64 == c - 0x80;
  }

  lemma {:induction false} FourBytes(a: Byte, b: Byte, c: Byte, d: Byte)
    requires 0xF0 <= a <= 0xF4 && Tail(b) && Tail(c) && Tail(d)
    ensures var cp := ((a % 8 * 64 + b % 64) * 64 + c % 64) * 64 + d % 64;
            0x10000 <= cp <= 0x10FFFF <==> IsChar4([a, b, c, d])
  {
    assert a % 8 == a - 0xF0 && b % 64 == b - 0x80 && c % 64 == c - 0x80 && d % 64 == d - 0x80;
  }

  /** The code point of the first bytes of a lead byte and its tail. */
  function CodePoint(lead: nat, s: seq<Byte>, n: nat): nat
    requires n <= |s|
  {
    if n == 0 then lead else CodePoint(lead, s, n - 1) * 64 + s[n - 1] % 64
  }

  /** How many bytes follow a lead byte, its own bits, and the least code point of that length. */
  function LeadOf(first: Byte): Option<(nat, nat, nat)> {
    if 0xC2 <= first <= 0xDF then Some((1, first % 32, 0x80))
    else if 0xE0 <= first <= 0xEF then Some((2, first % 16, 0x800))
    else if 0xF0 <= first <= 0xF4 then Some((3, first % 8, 0x10000))
    else None
  }

  predicate InRange(codePoint: nat, minimum: nat) {
    minimum <= codePoint <= 0x10FFFF && !(0xD800 <= codePoint <= 0xDFFF)
  }

  predicate TailsOnly(s: seq<Byte>, n: nat)
    requires n <= |s|
  {
    forall i :: 0 <= i < n ==> Tail(s[i])
  }

  /** Decoding accepts a multi-byte character exactly if the grammar has it. */
  lemma {:induction false} DecodedIsChar(s: seq<Byte>)
    requires s != [] && s[0] >= 0x80
    ensures var lead := LeadOf(s[0]);
            CharLength(s) > 0 <==>
            && lead.Some? && lead.value.0 < |s| && TailsOnly(s[1..], lead.value.0)
            && InRange(CodePoint(lead.value.1, s[1..], lead.value.0), lead.value.2)
    ensures CharLength(s) > 0 ==> LeadOf(s[0]).Some? && CharLength(s) == 1 + LeadOf(s[0]).value.0
  {
    var lead := LeadOf(s[0]);
    if lead.Some? && lead.value.0 < |s| {
      var t := s[1..];
      if lead.value.0 == 1 {
        TwoBytesDecoded(s);
      } else if lead.value.0 == 2 {
        ThreeBytesDecoded(s);
      } else {
        FourBytesDecoded(s);
      }
    }
  }

  lemma {:induction false} TwoBytesDecoded(s: seq<Byte>)
    requires |s| >= 2 && 0xC2 <= s[0] <= 0xDF
    ensures CharLength(s) > 0 <==> TailsOnly(s[1..], 1) && InRange(CodePoint(s[0] % 32, s[1..], 1), 0x80)
    ensures CharLength(s) > 0 ==> CharLength(s) == 2
  {
    var t := s[1..];
    assert t[0] == s[1];
    assert CodePoint(s[0] % 32, t, 1) == s[0] as int % 32 * 64 + t[0] as int % 64;
    assert s[0] % 32 == s[0] - 0xC0;
    if TailsOnly(t, 1) { assert Tail(t[0]); }
  }

  lemma {:induction false} ThreeBytesDecoded(s: seq<Byte>)
    requires |s| >= 3 && 0xE0 <= s[0] <= 0xEF
    ensures CharLength(s) > 0 <==> TailsOnly(s[1..], 2) && InRange(CodePoint(s[0] % 16, s[1..], 2), 0x800)
    ensures CharLength(s) > 0 ==> CharLength(s) == 3
  {
    var t := s[1..];
    assert t[0] == s[1] && t[1] == s[2];
    assert CodePoint(s[0] % 16, t, 2) == CodePoint(s[0] % 16, t, 1) * 64 + t[1] % 64;
    assert CodePoint(s[0] % 16, t, 1) == s[0] as int % 16 * 64 + t[0] as int % 64;
    if Tail(s[1]) && Tail(s[2]) {
      ThreeBytes(s[0], s[1], s[2]);
    } else {
      assert !TailsOnly(t, 2) by { if Tail(s[1]) { assert !Tail(t[1]); } else { assert !Tail(t[0]); } }
    }
  }

  lemma {:induction false} FourBytesDecoded(s: seq<Byte>)
    requires |s| >= 4 && 0xF0 <= s[0] <= 0xF4
    ensures CharLength(s) > 0 <==> TailsOnly(s[1..], 3) && InRange(CodePoint(s[0] % 8, s[1..], 3), 0x10000)
    ensures CharLength(s) > 0 ==> CharLength(s) == 4
  {
    var t := s[1..];
    assert t[0] == s[1] && t[1] == s[2] && t[2] == s[3];
    assert CodePoint(s[0] % 8, t, 3) == CodePoint(s[0] % 8, t, 2) * 64 + t[2] % 64;
    assert CodePoint(s[0] % 8, t, 2) == CodePoint(s[0] % 8, t, 1) * 64 + t[1] % 64;
    assert CodePoint(s[0] % 8, t, 1) == s[0] as int % 8 * 64 + t[0] as int % 64;
    if Tail(s[1]) && Tail(s[2]) && Tail(s[3]) {
      FourBytes(s[0], s[1], s[2], s[3]);
    } else {
      assert !TailsOnly(t, 3) by {
        if !Tail(s[1]) { assert !Tail(t[0]); } else if !Tail(s[2]) { assert !Tail(t[1]); } else { assert !Tail(t[2]); }
      }
    }
  }

  /** Decodes code point by code point, and accepts exactly the well-formed sequences. */
  method ValidTypedUtf8(name: seq<Byte>) returns (valid: bool)
    ensures valid <==> WellFormed(name)
  {
    hide CharLength, LeadOf, CodePoint, InRange, TailsOnly;
    var offset := 0;
    assert name[0..] == name;
    while offset < |name|
      invariant 0 <= offset <= |name| && (WellFormed(name) <==> WellFormed(name[offset..]))
    {
      var first := name[offset];
      ghost var s := name[offset..];
      if first < 0x80 {
        AsciiLength(s);
        assert s[1..] == name[offset + 1..];
        offset := offset + 1;
        continue;
      }
      DecodedIsChar(s);
      offset := offset + 1;
      assert s[1..] == name[offset..];
      var lead := LeadOf(first);
      if lead.None? { return false; }
      var (remaining, bits, minimum) := lead.value;
      if remaining > |name| - offset { return false; }
      var tails, codePoint := ReadTail(name[offset..], remaining, bits);
      if !tails || !InRange(codePoint, minimum) { return false; }
      assert s[1 + remaining..] == name[offset + remaining..];
      offset := offset + remaining;
    }
    valid := true;
  }

  lemma {:induction false} AsciiLength(s: seq<Byte>)
    requires s != [] && s[0] < 0x80
    ensures CharLength(s) == 1
  {
  }

  method ReadTail(s: seq<Byte>, remaining: nat, bits: nat) returns (tails: bool, codePoint: nat)
    requires remaining <= |s|
    ensures tails <==> TailsOnly(s, remaining)
    ensures tails ==> codePoint == CodePoint(bits, s, remaining)
  {
    codePoint := bits;
    var i := 0;
    while i < remaining
      invariant 0 <= i <= remaining && TailsOnly(s, i) && codePoint == CodePoint(bits, s, i)
    {
      var next := s[i];
      if !Tail(next) { return false, codePoint; }
      codePoint := codePoint * 64 + next % 64;
      i := i + 1;
    }
    tails := true;
  }
}
