/**
 `TextEncoder`: UTF-16 code units to UTF-8 bytes (section 3 of RFC 3629). A surrogate pair is
 one code point of four bytes. An unpaired surrogate is written as U+FFFD, so the encoding is
 faithful only on text without one; JSON quotation leaves none. Decoding reads the bytes back, so on
 such text the encoding is injective.
 */
module Utf8 {
  import opened Wrappers
  import opened JsonText
  import opened Bytes
  import RustText

  type CodePoint = n: nat | n < 0x11_0000

  /** The code point of a surrogate pair. */
  function Pair(h: CodeUnit, l: CodeUnit): CodePoint
    requires IsHigh(h) && IsLow(l)
  {
    0x1_0000 + ((h as int - 0xD800) * 1024 + (l as int - 0xDC00))
  }

  function HeadCodePoint(s: Text): CodePoint
    requires s != []
  {
    if Width(s) == 2 then Pair(s[0], s[1])
    else if IsSurrogate(s[0]) then 0xFFFD
    else s[0]
  }

  function EncodePoint(p: CodePoint): (b: seq<Byte>)
    ensures b != []
  {
    if p < 0x80 then [p]
    else if p < 0x800 then [0xC0 + p / 64, 0x80 + p % 64]
    else if p < 0x1_0000 then [0xE0 + p / 4096, 0x80 + p / 64 % 64, 0x80 + p % 64]
    else [0xF0 + p / 0x4_0000, 0x80 + p / 4096 % 64, 0x80 + p / 64 % 64, 0x80 + p % 64]
  }

  /** A character of the service's text is counted with as many bytes as it is encoded in. */
  lemma SizeIs(c: char)
    ensures RustText.Size(c) == |EncodePoint(c as int)|
  {
  }

  function Encode(s: Text): seq<Byte> {
    if s == [] then [] else EncodePoint(HeadCodePoint(s)) + Encode(s[Width(s)..])
  }

  lemma {:induction false} WellFormedConcat(s: Text, t: Text)
    requires WellFormed(s) && WellFormed(t)
    ensures WellFormed(s + t)
    decreases |s|
  {
    if s == [] {
      assert s + t == t;
    } else {
      WellFormedConcat(s[Width(s)..], t);
      assert Width(s + t) == Width(s);
      assert (s + t)[Width(s)..] == s[Width(s)..] + t;
    }
  }

  lemma {:induction false} AsciiWellFormed(s: Text)
    requires forall i :: 0 <= i < |s| ==> s[i] < 128
    ensures WellFormed(s)
  {
    if s != [] {
      AsciiWellFormed(s[1..]);
    }
  }

  lemma {:induction false} EscapedWellFormed(s: Text)
    ensures WellFormed(Escaped(s))
  {
    if s != [] {
      var h := QuoteHead(s);
      if Width(s) == 2 {
        assert h[Width(h)..] == [];
      } else if s[0] < 128 || IsSurrogate(s[0]) {
        AsciiWellFormed(h);
      } else {
        assert h == [s[0]] && h[1..] == [];
      }
      EscapedWellFormed(s[Width(s)..]);
      WellFormedConcat(h, Escaped(s[Width(s)..]));
    }
  }

  /** JSON quotation leaves no unpaired surrogate, whatever string it quotes. */
  lemma QuoteWellFormed(s: Text)
    ensures WellFormed(Quote(s))
  {
    EscapedWellFormed(s);
    AsciiWellFormed([QUOTE]);
    WellFormedConcat([QUOTE], Escaped(s));
    WellFormedConcat([QUOTE] + Escaped(s), [QUOTE]);
  }

  // ---------- Reading bytes ----------

  predicate IsTail(b: Byte) { 0x80 <= b <= 0xBF }

  /** The code point that the bytes begin with, and how many bytes it takes (section 4 of RFC 3629). */
  function ReadPoint(b: seq<Byte>): (r: Option<(CodePoint, nat)>)
    ensures r.Some? ==> 1 <= r.value.1 <= |b|
  {
    if b == [] then None
    else if b[0] <= 0x7F then Some((b[0], 1))
    else if |b| < 2 || !IsTail(b[1]) then None
    else if 0xC2 <= b[0] <= 0xDF then Some((64 * (b[0] as int - 0xC0) + (b[1] as int - 0x80), 2))
    else if |b| < 3 || !IsTail(b[2]) then None
    else if (b[0] == 0xE0 && b[1] < 0xA0) || (b[0] == 0xED && b[1] > 0x9F) then None
    else if 0xE0 <= b[0] <= 0xEF then
      Some((4096 * (b[0] as int - 0xE0) + 64 * (b[1] as int - 0x80) + (b[2] as int - 0x80), 3))
    else if |b| < 4 || !IsTail(b[3]) || (b[0] == 0xF0 && b[1] < 0x90) || (b[0] == 0xF4 && b[1] > 0x8F) then None
    else if 0xF0 <= b[0] <= 0xF4 then
      Some((0x4_0000 * (b[0] as int - 0xF0) + 4096 * (b[1] as int - 0x80)
            + 64 * (b[2] as int - 0x80) + (b[3] as int - 0x80), 4))
    else None
  }

  /** A code point in UTF-16 (section 2.1 of RFC 2781). */
  function Units(p: CodePoint): Text {
    if p < 0x1_0000 then [p] else [0xD800 + (p - 0x1_0000) / 1024, 0xDC00 + (p - 0x1_0000) % 1024]
  }

  lemma PairUnits(h: CodeUnit, l: CodeUnit)
    requires IsHigh(h) && IsLow(l)
    ensures Units(Pair(h, l)) == [h, l]
  {
  }

  /** Two code units count as a pair if and only if they are some code point in UTF-16. */
  lemma PairIff(h: CodeUnit, l: CodeUnit)
    ensures IsHigh(h) && IsLow(l) <==> exists p: CodePoint :: Units(p) == [h, l]
  {
    if IsHigh(h) && IsLow(l) {
      PairUnits(h, l);
    }
  }

  /** And a code unit is a surrogate if and only if it stands in such a pair. */
  lemma SurrogateIff(c: CodeUnit)
    ensures IsSurrogate(c) <==> exists p: CodePoint :: |Units(p)| == 2 && c in Units(p)
  {
    if IsHigh(c) {
      PairUnits(c, 0xDC00);
      assert c in Units(Pair(c, 0xDC00));
    } else if IsLow(c) {
      PairUnits(0xD800, c);
      assert c in Units(Pair(0xD800, c));
    }
  }

  function Decode(b: seq<Byte>): Option<Text> {
    if b == [] then Some([])
    else
      match ReadPoint(b)
      case None => None
      case Some((p, n)) =>
        match Decode(b[n..])
        case None => None
        case Some(rest) => Some(Units(p) + rest)
  }

  /** The text with U+FFFD for every surrogate that has no partner. */
  function Repaired(s: Text): Text {
    if s == [] then []
    else
      (if Width(s) == 1 && IsSurrogate(s[0]) then [0xFFFD] else s[..Width(s)]) + Repaired(s[Width(s)..])
  }

  lemma Base64Digits(p: nat)
    ensures p == 64 * (p / 64) + p % 64
    ensures p == 4096 * (p / 4096) + 64 * (p / 64 % 64) + p % 64
    ensures p == 0x4_0000 * (p / 0x4_0000) + 4096 * (p / 4096 % 64) + 64 * (p / 64 % 64) + p % 64
  {
    var x, y := p / 64, p / 4096;
    assert y == x / 64 && p / 0x4_0000 == y / 64;
  }

  lemma PointReads(p: CodePoint, x: seq<Byte>)
    requires !(0xD800 <= p < 0xE000)
    ensures ReadPoint(EncodePoint(p) + x) == Some((p, |EncodePoint(p)|))
  {
    var b := EncodePoint(p);
    assert forall i :: 0 <= i < |b| ==> (b + x)[i] == b[i];
    Base64Digits(p);
  }

  lemma HeadUnits(s: Text)
    requires s != []
    ensures !(0xD800 <= HeadCodePoint(s) < 0xE000)
    ensures Units(HeadCodePoint(s)) == if Width(s) == 1 && IsSurrogate(s[0]) then [0xFFFD] else s[..Width(s)]
  {
  }

  /** The bytes read as the text they encode, unpaired surrogates replaced. */
  lemma {:induction false} EncodeDecodes(s: Text)
    ensures Decode(Encode(s)) == Some(Repaired(s))
    decreases |s|
  {
    if s != [] {
      var b, rest := EncodePoint(HeadCodePoint(s)), Encode(s[Width(s)..]);
      HeadUnits(s);
      PointReads(HeadCodePoint(s), rest);
      assert (b + rest)[|b|..] == rest;
      EncodeDecodes(s[Width(s)..]);
    }
  }

  lemma {:induction false} WellFormedNeedsNoRepair(s: Text)
    requires WellFormed(s)
    ensures Repaired(s) == s
  {
    if s != [] {
      WellFormedNeedsNoRepair(s[Width(s)..]);
      assert s == s[..Width(s)] + s[Width(s)..];
    }
  }

  /** On well-formed text the bytes determine the text. */
  lemma EncodeInjective(s: Text, t: Text)
    requires WellFormed(s) && WellFormed(t)
    requires Encode(s) == Encode(t)
    ensures s == t
  {
    EncodeDecodes(s);
    EncodeDecodes(t);
    WellFormedNeedsNoRepair(s);
    WellFormedNeedsNoRepair(t);
  }
}
