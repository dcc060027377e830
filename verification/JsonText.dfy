/** Printing any bytes as a JSON string: bytes outside well-formed UTF-8 are shown as a literal escape,
    and a JSON decoder (section 7 of RFC 8259) gives everything else back. */
module JsonText {
  import opened Optional
  import opened Utf8

  const QUOTE: Byte := 0x22
  const BACKSLASH: Byte := 0x5C
  const LOWER_X: Byte := 0x78
  const LOWER_U: Byte := 0x75
  const ZERO: Byte := 0x30

  function UpperHex(d: nat): Byte
    requires d < 16
  {
    if d < 10 then 0x30 + d else 0x41 + (d - 10)
  }

  function LowerHex(d: nat): Byte
    requires d < 16
  {
    if d < 10 then 0x30 + d else 0x61 + (d - 10)
  }

  /** How an invalid byte is shown: a backslash, an x and two upper-case digits. */
  function Shown(b: Byte): seq<Byte> {
    [BACKSLASH, LOWER_X, UpperHex(b / 16), UpperHex(b % 16)]
  }

  /** The input with every byte outside a well-formed sequence shown. */
  function Replaced(s: seq<Byte>): seq<Byte> {
    if s == [] then []
    else if CharLength(s) > 0 then s[..CharLength(s)] + Replaced(s[CharLength(s)..])
    else Shown(s[0]) + Replaced(s[1..])
  }

  /** Nothing is replaced exactly in well-formed UTF-8. */
  lemma {:induction false} ReplacedSameIff(s: seq<Byte>)
    ensures |Replaced(s)| >= |s| && (Replaced(s) == s <==> WellFormed(s))
  {
    hide CharLength;
    if s != [] {
      var n := CharLength(s);
      if n > 0 {
        ReplacedSameIff(s[n..]);
        assert s == s[..n] + s[n..];
        assert Replaced(s)[n..] == Replaced(s[n..]);
      } else {
        ReplacedSameIff(s[1..]);
        assert |Replaced(s)| > |s|;
      }
    }
  }

  // ---------- Decoding JSON ----------

  function HexValue(b: Byte): Option<nat> {
    if 0x30 <= b <= 0x39 then Some(b - 0x30)
    else if 0x41 <= b <= 0x46 then Some(b - 0x41 + 10)
    else if 0x61 <= b <= 0x66 then Some(b - 0x61 + 10)
    else None
  }

  /** The four digits after an escaped u. */
  function Unit(s: seq<Byte>): Option<nat> {
    if |s| < 4 then None
    else match (HexValue(s[0]), HexValue(s[1]), HexValue(s[2]), HexValue(s[3]))
      case (Some(a), Some(b), Some(c), Some(d)) => Some(((a * 16 + b) * 16 + c) * 16 + d)
      case _ => None
  }

  function EncodePoint(p: nat): seq<Byte>
    requires p <= 0x10FFFF
  {
    if p < 0x80 then [p]
    else if p < 0x800 then [0xC0 + p / 64, 0x80 + p % 64]
    else if p < 0x10000 then [0xE0 + p / 4096, 0x80 + p / 64 % 64, 0x80 + p % 64]
    else [0xF0 + p / 262144, 0x80 + p / 4096 % 64, 0x80 + p / 64 % 64, 0x80 + p % 64]
  }

  /** A single-letter escape. */
  function Escaped(b: Byte): Option<Byte> {
    if b in {0x22, 0x5C, 0x2F} then Some(b)
    else if b == 0x62 then Some(0x08)
    else if b == 0x66 then Some(0x0C)
    else if b == 0x6E then Some(0x0A)
    else if b == 0x72 then Some(0x0D)
    else if b == 0x74 then Some(0x09)
    else None
  }

  /** An escape after its backslash: how many bytes it takes, and what it stands for. Surrogates count in
      pairs only. */
  function DecodeEscape(s: seq<Byte>): (r: Option<(nat, seq<Byte>)>)
    ensures r.Some? ==> 1 <= r.value.0 <= |s|
  {
    if s == [] then None
    else if s[0] != LOWER_U then
      (match Escaped(s[0]) case None => None case Some(b) => Some((1, [b])))
    else
      match Unit(s[1..])
      case None => None
      case Some(u) =>
        if 0xD800 <= u < 0xDC00 then
          (if |s| >= 11 && s[5] == BACKSLASH && s[6] == LOWER_U && Unit(s[7..]).Some? && 0xDC00 <= Unit(s[7..]).value < 0xE000
           then Some((11, EncodePoint(0x10000 + (u - 0xD800) * 1024 + (Unit(s[7..]).value - 0xDC00))))
           else None)
        else if 0xDC00 <= u < 0xE000 then None
        else Some((5, EncodePoint(u)))
  }

  function Then(front: seq<Byte>, rest: Option<seq<Byte>>): Option<seq<Byte>> {
    match rest case None => None case Some(bytes) => Some(front + bytes)
  }

  /** The characters up to the closing quotation mark, which must be the last byte. */
  function DecodeChars(s: seq<Byte>): Option<seq<Byte>> {
    if s == [] then None
    else if s[0] == QUOTE then (if |s| == 1 then Some([]) else None)
    else if s[0] == BACKSLASH then
      match DecodeEscape(s[1..])
      case None => None
      case Some(e) => Then(e.1, DecodeChars(s[1 + e.0..]))
    else if s[0] < 0x20 || CharLength(s) == 0 then None
    else Then(s[..CharLength(s)], DecodeChars(s[CharLength(s)..]))
  }

  function DecodeString(s: seq<Byte>): Option<seq<Byte>> {
    if s != [] && s[0] == QUOTE then DecodeChars(s[1..]) else None
  }

  // ---------- What is printed ----------

  /** The escape of a control character with a letter of its own. */
  function Letter(b: Byte): Option<Byte> {
    if b == 0x22 || b == 0x5C then Some(b)
    else if b == 0x08 then Some(0x62)
    else if b == 0x0C then Some(0x66)
    else if b == 0x0A then Some(0x6E)
    else if b == 0x0D then Some(0x72)
    else if b == 0x09 then Some(0x74)
    else None
  }

  function AsciiText(b: Byte): seq<Byte>
    requires b < 0x80
  {
    match Letter(b)
    case Some(l) => [BACKSLASH, l]
    case None => if b < 0x20 then [BACKSLASH, LOWER_U, ZERO, ZERO, LowerHex(b / 16), LowerHex(b % 16)] else [b]
  }

  function InvalidText(b: Byte): seq<Byte> {
    [BACKSLASH, BACKSLASH, LOWER_X, UpperHex(b / 16), UpperHex(b % 16)]
  }

  /** The text for the first character or byte. */
  function ChunkText(s: seq<Byte>): seq<Byte>
    requires s != []
  {
    if s[0] < 0x80 then AsciiText(s[0]) else if CharLength(s) > 0 then s[..CharLength(s)] else InvalidText(s[0])
  }

  function ChunkLength(s: seq<Byte>): (n: nat)
    requires s != []
    ensures 1 <= n <= |s|
  {
    if CharLength(s) > 0 then CharLength(s) else 1
  }

  function Body(s: seq<Byte>): seq<Byte> {
    if s == [] then [] else ChunkText(s) + Body(s[ChunkLength(s)..])
  }

  function Printed(s: seq<Byte>): seq<Byte> {
    [QUOTE] + Body(s) + [QUOTE]
  }

  // ---------- Decoding what is printed ----------

  lemma {:induction false} DecodeOne(b: Byte, rest: seq<Byte>)
    requires 0x20 <= b < 0x80 && b != QUOTE && b != BACKSLASH
    ensures DecodeChars([b] + rest) == Then([b], DecodeChars(rest))
  {
    hide DecodeEscape;
    var s := [b] + rest;
    AsciiLength(s);
    assert s[..1] == [b] && s[1..] == rest;
  }

  lemma {:induction false} DecodeLetter(b: Byte, rest: seq<Byte>)
    requires Letter(b).Some?
    ensures DecodeChars([BACKSLASH, Letter(b).value] + rest) == Then([b], DecodeChars(rest))
  {
    hide CharLength, Unit;
    var s := [BACKSLASH, Letter(b).value] + rest;
    assert s[1..][0] == Letter(b).value;
    assert DecodeEscape(s[1..]) == Some((1, [b]));
    assert s[2..] == rest;
  }

  lemma {:induction false} DecodeUnit(b: Byte, rest: seq<Byte>)
    requires b < 0x20
    ensures DecodeChars([BACKSLASH, LOWER_U, ZERO, ZERO, LowerHex(b / 16), LowerHex(b % 16)] + rest) == Then([b], DecodeChars(rest))
  {
    hide CharLength;
    var s := [BACKSLASH, LOWER_U, ZERO, ZERO, LowerHex(b / 16), LowerHex(b % 16)] + rest;
    UnitOf(b, s[2..]);
    assert s[1..][0] == LOWER_U && s[1..][1..] == s[2..];
    assert DecodeEscape(s[1..]) == Some((5, [b]));
    assert s[6..] == rest;
  }

  lemma {:induction false} UnitOf(b: Byte, s: seq<Byte>)
    requires b < 0x20 && |s| >= 4 && s[..4] == [ZERO, ZERO, LowerHex(b / 16), LowerHex(b % 16)]
    ensures Unit(s) == Some(b) && EncodePoint(b) == [b]
  {
    assert s[0] == s[..4][0] && s[1] == s[..4][1] && s[2] == s[..4][2] && s[3] == s[..4][3];
    HexBack(b / 16);
    HexBack(b % 16);
  }

  lemma {:induction false} HexBack(d: nat)
    requires d < 16
    ensures HexValue(LowerHex(d)) == Some(d)
    ensures 0x20 <= UpperHex(d) < 0x80 && UpperHex(d) != QUOTE && UpperHex(d) != BACKSLASH
  {
  }

  lemma {:induction false} DecodeAscii(b: Byte, rest: seq<Byte>)
    requires b < 0x80
    ensures DecodeChars(AsciiText(b) + rest) == Then([b], DecodeChars(rest))
  {
    hide DecodeChars, LowerHex;
    if Letter(b).Some? {
      DecodeLetter(b, rest);
    } else if b < 0x20 {
      DecodeUnit(b, rest);
    } else {
      DecodeOne(b, rest);
    }
  }

  lemma {:induction false} ThenThen(a: seq<Byte>, b: seq<Byte>, rest: Option<seq<Byte>>)
    ensures Then(a, Then(b, rest)) == Then(a + b, rest)
  {
    if rest.Some? { assert a + (b + rest.value) == (a + b) + rest.value; }
  }

  lemma {:induction false} DecodeInvalid(b: Byte, rest: seq<Byte>)
    ensures DecodeChars(InvalidText(b) + rest) == Then(Shown(b), DecodeChars(rest))
  {
    hide DecodeChars, UpperHex, Then;
    var h, l := UpperHex(b / 16), UpperHex(b % 16);
    HexBack(b / 16);
    HexBack(b % 16);
    var r3 := [l] + rest;
    var r2 := [h] + r3;
    var r1 := [LOWER_X] + r2;
    assert InvalidText(b) + rest == [BACKSLASH, BACKSLASH] + r1;
    DecodeLetter(BACKSLASH, r1);
    DecodeOne(LOWER_X, r2);
    DecodeOne(h, r3);
    DecodeOne(l, rest);
    ThenThen([h], [l], DecodeChars(rest));
    ThenThen([LOWER_X], [h] + [l], DecodeChars(rest));
    ThenThen([BACKSLASH], [LOWER_X] + ([h] + [l]), DecodeChars(rest));
    assert [BACKSLASH] + ([LOWER_X] + ([h] + [l])) == Shown(b);
  }

  lemma {:induction false} DecodeMany(s: seq<Byte>, rest: seq<Byte>)
    requires s != [] && s[0] >= 0x80 && CharLength(s) > 0
    ensures DecodeChars(s[..CharLength(s)] + rest) == Then(s[..CharLength(s)], DecodeChars(rest))
  {
    hide CharLength, DecodeEscape;
    var c := s[..CharLength(s)];
    CharPrefix(s, rest);
    assert (c + rest)[0] == s[0];
    assert (c + rest)[..|c|] == c && (c + rest)[|c|..] == rest;
  }

  /** Decoding the printed body gives the input with its invalid bytes shown. */
  lemma {:induction false} DecodeBody(s: seq<Byte>)
    ensures DecodeChars(Body(s) + [QUOTE]) == Some(Replaced(s))
  {
    hide CharLength, DecodeChars, AsciiText, InvalidText, Shown;
    if s == [] {
      assert Body(s) + [QUOTE] == [QUOTE];
      DecodeEnd();
    } else {
      var n := ChunkLength(s);
      var rest := Body(s[n..]) + [QUOTE];
      DecodeBody(s[n..]);
      assert Body(s) + [QUOTE] == ChunkText(s) + rest;
      if s[0] < 0x80 {
        AsciiLength(s);
        DecodeAscii(s[0], rest);
        assert s[..1] == [s[0]];
      } else if CharLength(s) > 0 {
        DecodeMany(s, rest);
      } else {
        DecodeInvalid(s[0], rest);
      }
    }
  }

  lemma {:induction false} DecodeEnd()
    ensures DecodeChars([QUOTE]) == Some([])
  {
  }

  /** A JSON decoder reads the printed string back, with invalid bytes shown. */
  lemma {:induction false} PrintedDecodes(s: seq<Byte>)
    ensures DecodeString(Printed(s)) == Some(Replaced(s))
  {
    hide DecodeChars, Body, Replaced;
    DecodeBody(s);
    assert Printed(s)[1..] == Body(s) + [QUOTE];
  }

  // ---------- The printed text is well-formed ----------

  lemma {:induction false} AsciiWellFormed(t: seq<Byte>, rest: seq<Byte>)
    requires forall i :: 0 <= i < |t| ==> t[i] < 0x80
    ensures WellFormed(t + rest) <==> WellFormed(rest)
  {
    hide WellFormed;
    if t == [] {
      assert t + rest == rest;
    } else {
      AsciiWellFormed(t[1..], rest);
      assert t + rest == [t[0]] + (t[1..] + rest);
      AsciiThenRest(t[0], t[1..] + rest);
    }
  }

  lemma {:induction false} BodyWellFormed(s: seq<Byte>, rest: seq<Byte>)
    requires WellFormed(rest)
    ensures WellFormed(Body(s) + rest)
  {
    hide CharLength, WellFormed;
    if s == [] {
      assert Body(s) + rest == rest;
    } else {
      var n := ChunkLength(s);
      var tail := Body(s[n..]) + rest;
      BodyWellFormed(s[n..], rest);
      assert Body(s) + rest == ChunkText(s) + tail;
      if s[0] < 0x80 || CharLength(s) == 0 {
        AsciiWellFormed(ChunkText(s), tail);
      } else {
        CharThenRest(s, tail);
      }
    }
  }

  lemma {:induction false} PrintedWellFormed(s: seq<Byte>)
    ensures WellFormed(Printed(s))
  {
    hide CharLength, WellFormed, Body;
    NothingWellFormed();
    AsciiWellFormed([QUOTE], []);
    assert [QUOTE] + [] == [QUOTE];
    BodyWellFormed(s, [QUOTE]);
    AsciiWellFormed([QUOTE], Body(s) + [QUOTE]);
    assert Printed(s) == [QUOTE] + (Body(s) + [QUOTE]);
  }

  lemma {:induction false} NothingWellFormed()
    ensures WellFormed([])
  {
  }

  // ---------- What the escapes stand for ----------

  /** The digits of a shown byte read back as that byte, and they are digits or capital letters. */
  lemma {:induction false} ShownReads(b: Byte)
    ensures |Shown(b)| == 4 && Shown(b)[0] == 0x5C && Shown(b)[1] == 0x78
    ensures HexValue(Shown(b)[2]).Some? && HexValue(Shown(b)[3]).Some?
    ensures HexValue(Shown(b)[2]).value * 16 + HexValue(Shown(b)[3]).value == b
    ensures forall i :: 2 <= i < 4 ==> 0x30 <= Shown(b)[i] <= 0x39 || 0x41 <= Shown(b)[i] <= 0x46
    ensures InvalidText(b) == [0x5C] + Shown(b)
  {
  }

  /** A character below 128 is printed as itself, but for the quote, the backslash and the control characters:
      five of these have a letter, the others four hexadecimal digits. */
  lemma {:induction false} AsciiMeans(b: Byte)
    requires b < 0x80
    ensures b >= 0x20 && b != 0x22 && b != 0x5C ==> AsciiText(b) == [b]
    ensures b == 0x22 || b == 0x5C ==> AsciiText(b) == [0x5C, b]
    ensures b == 8 ==> AsciiText(b) == [0x5C, 'b' as int]
    ensures b == 9 ==> AsciiText(b) == [0x5C, 't' as int]
    ensures b == 10 ==> AsciiText(b) == [0x5C, 'n' as int]
    ensures b == 12 ==> AsciiText(b) == [0x5C, 'f' as int]
    ensures b == 13 ==> AsciiText(b) == [0x5C, 'r' as int]
    ensures b < 0x20 && b !in {8, 9, 10, 12, 13} ==>
              && |AsciiText(b)| == 6 && AsciiText(b)[0] == 0x5C && AsciiText(b)[1] == 'u' as int
              && Unit(AsciiText(b)[2..]) == Some(b)
              && forall i :: 2 <= i < 6 ==> AsciiText(b)[i] !in {0x41, 0x42, 0x43, 0x44, 0x45, 0x46}
  {
  }

  /** The bytes of an escaped character are the encoding of its number. */
  lemma {:induction false} PointEncoded(p: nat)
    requires p <= 0x10FFFF && !(0xD800 <= p <= 0xDFFF)
    ensures CharLength(EncodePoint(p)) == |EncodePoint(p)|
    ensures p < 0x80 ==> EncodePoint(p) == [p]
    ensures p >= 0x80 ==>
              var e := EncodePoint(p);
              LeadOf(e[0]).Some? && CodePoint(LeadOf(e[0]).value.1, e[1..], |e| - 1) == p
  {
    hide CharLength;
    var e := EncodePoint(p);
    if p < 0x80 {
      AsciiLength(e);
    } else if p < 0x800 {
      TwoEncoded(p);
    } else if p < 0x10000 {
      ThreeEncoded(p);
    } else {
      FourEncoded(p);
    }
  }

  lemma {:induction false} TwoEncoded(p: nat)
    requires 0x80 <= p < 0x800
    ensures var e := EncodePoint(p);
            CharLength(e) == 2 == |e| && LeadOf(e[0]).Some? && CodePoint(LeadOf(e[0]).value.1, e[1..], 1) == p
  {
    var e := EncodePoint(p);
    assert e[1..] == [e[1]];
    CodeSteps(LeadOf(e[0]).value.1, e[1..]);
  }

  lemma {:induction false} ThreeFrom(a: nat, b: nat, c: nat)
    requires a < 16 && b < 64 && c < 64
    requires var p := (a * 64 + b) * 64 + c; p >= 0x800 && !(0xD800 <= p <= 0xDFFF)
    ensures var e := [0xE0 + a, 0x80 + b, 0x80 + c];
            CharLength(e) == 3 && LeadOf(e[0]) == Some((2, a, 0x800)) && CodePoint(a, e[1..], 2) == (a * 64 + b) * 64 + c
  {
    hide CodePoint, IsChar3;
    var e := [0xE0 + a, 0x80 + b, 0x80 + c];
    assert e[1..] == [0x80 + b, 0x80 + c];
    CodeSteps(a, e[1..]);
    ThreeBytes(e[0], e[1], e[2]);
  }

  lemma {:induction false} Residues(a: nat, b: nat)
    requires a < 8 && b < 64
    ensures (0x80 + b) % 64 == b && (0xF0 + a) % 8 == a
  {
  }

  lemma {:induction false} LongLead(e: seq<Byte>)
    requires |e| > 0 && e[0] >= 0xF0
    ensures !IsChar1(e) && !IsChar2(e) && !IsChar3(e)
  {
  }

  lemma {:induction false} FourFrom(a: nat, b: nat, c: nat, d: nat)
    requires a < 5 && b < 64 && c < 64 && d < 64
    requires 0x10000 <= ((a * 64 + b) * 64 + c) * 64 + d <= 0x10FFFF
    ensures var e := [0xF0 + a, 0x80 + b, 0x80 + c, 0x80 + d];
            CharLength(e) == 4 && LeadOf(e[0]) == Some((3, a, 0x10000)) &&
            CodePoint(a, e[1..], 3) == ((a * 64 + b) * 64 + c) * 64 + d
  {
    hide CodePoint, IsChar4, IsChar3, IsChar2;
    var e := [0xF0 + a, 0x80 + b, 0x80 + c, 0x80 + d];
    Residues(a, b);
    Residues(a, c);
    Residues(a, d);
    LongLead(e);
    assert e[1..] == [0x80 + b, 0x80 + c, 0x80 + d];
    CodeSteps(a, e[1..]);
    FourBytes(e[0], e[1], e[2], e[3]);
  }

  lemma {:induction false} ThreeEncoded(p: nat)
    requires 0x800 <= p < 0x10000 && !(0xD800 <= p <= 0xDFFF)
    ensures var e := EncodePoint(p);
            CharLength(e) == 3 == |e| && LeadOf(e[0]).Some? && CodePoint(LeadOf(e[0]).value.1, e[1..], 2) == p
  {
    hide CodePoint, CharLength, LeadOf;
    Digits64(p);
    ThreeFrom(p / 4096, p / 64 % 64, p % 64);
  }

  lemma {:induction false} FourEncoded(p: nat)
    requires 0x10000 <= p <= 0x10FFFF
    ensures var e := EncodePoint(p);
            CharLength(e) == 4 == |e| && LeadOf(e[0]).Some? && CodePoint(LeadOf(e[0]).value.1, e[1..], 3) == p
  {
    hide CodePoint, CharLength, LeadOf;
    Digits64(p);
    FourFrom(p / 262144, p / 4096 % 64, p / 64 % 64, p % 64);
  }

  /** A number is made of its digits to the base of 64. */
  lemma {:induction false} Digits64(p: nat)
    requires p <= 0x10FFFF
    ensures p == ((p / 262144 * 64 + p / 4096 % 64) * 64 + p / 64 % 64) * 64 + p % 64
    ensures p / 262144 <= 4
    ensures p < 0x10000 ==> p == (p / 4096 * 64 + p / 64 % 64) * 64 + p % 64 && p / 4096 < 16
  {
    assert p / 64 == p / 4096 * 64 + p / 64 % 64;
    assert p / 4096 == p / 262144 * 64 + p / 4096 % 64;
  }

  /** The number in the tail bytes of a character. */
  lemma {:induction false} CodeSteps(lead: nat, t: seq<Byte>)
    ensures |t| >= 1 ==> CodePoint(lead, t, 1) == lead * 64 + t[0] % 64
    ensures |t| >= 2 ==> CodePoint(lead, t, 2) == (lead * 64 + t[0] % 64) * 64 + t[1] % 64
    ensures |t| >= 3 ==> CodePoint(lead, t, 3) == ((lead * 64 + t[0] % 64) * 64 + t[1] % 64) * 64 + t[2] % 64
  {
    if |t| >= 1 { assert CodePoint(lead, t, 0) == lead; }
    if |t| >= 2 { assert CodePoint(lead, t, 1) == lead * 64 + t[0] % 64; }
    if |t| >= 3 { assert CodePoint(lead, t, 2) == (lead * 64 + t[0] % 64) * 64 + t[1] % 64; }
  }

  // ---------- The printer ----------

  /** The length of a multi-byte character at an index, tested byte by byte. */
  method MultibyteLength(value: seq<Byte>, index: nat) returns (length: nat)
    requires index < |value| && value[index] >= 0x80
    ensures length == CharLength(value[index..])
  {
    var byte := value[index];
    var tail1 := index + 1 < |value| && Tail(value[index + 1]);
    var tail2 := index + 2 < |value| && Tail(value[index + 2]);
    var tail3 := index + 3 < |value| && Tail(value[index + 3]);
    length := 0;
    if 0xC2 <= byte <= 0xDF && tail1 {
      length := 2;
    } else if 0xE0 <= byte <= 0xEF && tail1 && tail2
              && (byte != 0xE0 || value[index + 1] >= 0xA0) && (byte != 0xED || value[index + 1] <= 0x9F) {
      length := 3;
    } else if 0xF0 <= byte <= 0xF4 && tail1 && tail2 && tail3
              && (byte != 0xF0 || value[index + 1] >= 0x90) && (byte != 0xF4 || value[index + 1] <= 0x8F) {
      length := 4;
    }
  }

  /** Prints a string; whatever the bytes, decoding gives them back or shown, in well-formed text. */
  method PrintJsonString(value: seq<Byte>) returns (output: seq<Byte>)
    ensures DecodeString(output) == Some(Replaced(value))
    ensures WellFormed(output)
  {
    hide CharLength, DecodeString, WellFormed, Replaced, Body, AsciiText, InvalidText;
    output := [QUOTE];
    var index := 0;
    assert value[0..] == value;
    while index < |value|
      invariant 0 <= index <= |value| && output + Body(value[index..]) == [QUOTE] + Body(value)
    {
      var byte := value[index];
      ghost var s := value[index..];
      BodyStep(s);
      if byte >= 0x80 {
        var length := MultibyteLength(value, index);
        if length != 0 {
          assert s[length..] == value[index + length..] && s[..length] == value[index..index + length];
          assert output + (s[..length] + Body(s[length..])) == (output + s[..length]) + Body(s[length..]);
          output := output + value[index..index + length];
          index := index + length;
        } else {
          assert s[1..] == value[index + 1..];
          assert output + (InvalidText(byte) + Body(s[1..])) == (output + InvalidText(byte)) + Body(s[1..]);
          output := output + InvalidText(byte);
          index := index + 1;
        }
      } else {
        AsciiLength(s);
        assert s[1..] == value[index + 1..];
        assert output + (AsciiText(byte) + Body(s[1..])) == (output + AsciiText(byte)) + Body(s[1..]);
        output := output + AsciiText(byte);
        index := index + 1;
      }
    }
    BodyEnd();
    assert value[index..] == [] && output + [] == output;
    output := output + [QUOTE];
    PrintedDecodes(value);
    PrintedWellFormed(value);
  }

  lemma {:induction false} BodyEnd()
    ensures Body([]) == []
  {
  }

  lemma {:induction false} BodyStep(s: seq<Byte>)
    requires s != []
    ensures Body(s) == ChunkText(s) + Body(s[ChunkLength(s)..])
  {
    hide CharLength;
  }
}
