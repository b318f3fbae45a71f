/**
 Strings as JavaScript holds them, sequences of UTF-16 code units that may contain unpaired
 surrogates, and their JSON quotation (section 7 of RFC 8259) as `JSON.stringify` writes it:
 the two-character escapes, four-digit escapes for the other controls, and an escape for a
 surrogate that has no partner. The quotation is injective, and it ends where it ends: what
 follows a quoted string can always be told from it.
 */
module JsonText {
  import opened Wrappers

  type CodeUnit = n: nat | n < 0x1_0000
  type Text = seq<CodeUnit>

  const QUOTE: CodeUnit := 34
  const BACKSLASH: CodeUnit := 92

  /** An ASCII literal as code units. */
  function Ascii(s: string): (t: Text)
    ensures |t| == |s|
    ensures forall i :: 0 <= i < |s| && s[i] as int < 128 ==> t[i] == s[i] as int
  {
    seq(|s|, i requires 0 <= i < |s| => if s[i] as int < 128 then s[i] as int else 63)
  }

  predicate IsHigh(c: CodeUnit) { 0xD800 <= c < 0xDC00 }

  predicate IsLow(c: CodeUnit) { 0xDC00 <= c < 0xE000 }

  predicate IsSurrogate(c: CodeUnit) { 0xD800 <= c < 0xE000 }

  /** How many code units the first character of s takes. */
  function Width(s: Text): (w: nat)
    requires s != []
    ensures 1 <= w <= |s| && w <= 2
  {
    if IsHigh(s[0]) && |s| > 1 && IsLow(s[1]) then 2 else 1
  }

  function Hex(d: nat): CodeUnit
    requires d < 16
  {
    if d < 10 then 48 + d else 87 + d
  }

  function UnicodeEscape(c: CodeUnit): Text {
    [BACKSLASH, 117, Hex(c / 4096), Hex(c / 256 % 16), Hex(c / 16 % 16), Hex(c % 16)]
  }

  /** The letter after the backslash of a two-character escape, or 0. */
  function ShortEscape(c: CodeUnit): CodeUnit {
    match c
    case 34 => 34
    case 92 => 92
    case 8 => 98
    case 9 => 116
    case 10 => 110
    case 12 => 102
    case 13 => 114
    case _ => 0
  }

  function QuoteUnit(c: CodeUnit): Text {
    if ShortEscape(c) != 0 then [BACKSLASH, ShortEscape(c)]
    else if c < 32 || IsSurrogate(c) then UnicodeEscape(c)
    else [c]
  }

  function QuoteHead(s: Text): (q: Text)
    requires s != []
    ensures q != [] && q[0] != QUOTE
  {
    if Width(s) == 2 then s[..2] else QuoteUnit(s[0])
  }

  function Escaped(s: Text): Text {
    if s == [] then [] else QuoteHead(s) + Escaped(s[Width(s)..])
  }

  function Quote(s: Text): (q: Text)
    ensures |q| >= 2 && q[0] == QUOTE
  {
    [QUOTE] + Escaped(s) + [QUOTE]
  }

  /** Every surrogate has its partner. */
  predicate WellFormed(s: Text) {
    s == [] || ((Width(s) == 2 || !IsSurrogate(s[0])) && WellFormed(s[Width(s)..]))
  }

  // ---------- Reading a quoted string ----------

  function HexValue(c: CodeUnit): Option<nat> {
    if '0' as int <= c <= '9' as int then Some(c - '0' as int)
    else if 'a' as int <= c <= 'f' as int then Some(c - 'a' as int + 10)
    else if 'A' as int <= c <= 'F' as int then Some(c - 'A' as int + 10)
    else None
  }

  /** What a letter after a backslash stands for. */
  function EscapeValue(c: CodeUnit): Option<CodeUnit> {
    if c == '"' as int then Some(0x22)
    else if c == '\\' as int then Some(0x5C)
    else if c == '/' as int then Some(0x2F)
    else if c == 'b' as int then Some(0x08)
    else if c == 'f' as int then Some(0x0C)
    else if c == 'n' as int then Some(0x0A)
    else if c == 'r' as int then Some(0x0D)
    else if c == 't' as int then Some(0x09)
    else None
  }

  /** One code unit of a string's contents, and how many spell it. */
  datatype Piece = Piece(unit: CodeUnit, width: nat)

  /** The grammar's `char`, at the beginning of t. */
  function ReadUnit(t: Text): (r: Option<Piece>)
    ensures r.Some? ==> 1 <= r.value.width <= |t|
  {
    if t == [] || t[0] < 0x20 || t[0] == '"' as int then None
    else if t[0] != '\\' as int then Some(Piece(t[0], 1))
    else if |t| >= 2 && EscapeValue(t[1]).Some? then Some(Piece(EscapeValue(t[1]).value, 2))
    else if |t| >= 6 && t[1] == 'u' as int then FourDigits(t[2], t[3], t[4], t[5])
    else None
  }

  function FourDigits(a: CodeUnit, b: CodeUnit, c: CodeUnit, d: CodeUnit): (r: Option<Piece>)
    ensures r.Some? ==> r.value.width == 6
  {
    var w, x, y, z := HexValue(a), HexValue(b), HexValue(c), HexValue(d);
    if w.Some? && x.Some? && y.Some? && z.Some? then
      Some(Piece(4096 * w.value + 256 * x.value + 16 * y.value + z.value, 6))
    else None
  }

  /** The contents up to the closing quote, and what comes after it. */
  function ReadUnits(t: Text): (r: Option<(Text, Text)>)
    ensures r.Some? ==> |r.value.1| < |t|
  {
    if t != [] && t[0] == '"' as int then Some(([], t[1..]))
    else
      match ReadUnit(t)
      case None => None
      case Some(Piece(c, w)) =>
        match ReadUnits(t[w..])
        case None => None
        case Some((s, rest)) => Some(([c] + s, rest))
  }

  /** A quoted string at the beginning of t. */
  function ReadString(t: Text): (r: Option<(Text, Text)>)
    ensures r.Some? ==> |r.value.1| < |t|
  {
    if t == [] || t[0] != '"' as int then None else ReadUnits(t[1..])
  }

  lemma HexDigits(c: nat)
    ensures c == 4096 * (c / 4096) + 256 * (c / 256 % 16) + 16 * (c / 16 % 16) + c % 16
  {
    var x, y := c / 16, c / 256;
    assert y == x / 16 && c / 4096 == y / 16;
  }

  lemma UnitReads(c: CodeUnit, u: Text)
    ensures ReadUnit(QuoteUnit(c) + u) == Some(Piece(c, |QuoteUnit(c)|))
  {
    var q := QuoteUnit(c);
    assert forall i :: 0 <= i < |q| ==> (q + u)[i] == q[i];
    HexDigits(c);
  }

  lemma ReadsOne(c: CodeUnit, q: Text, rest: Text, s: Text, u: Text)
    requires q != [] && q[0] != QUOTE && ReadUnit(q + rest) == Some(Piece(c, |q|))
    requires ReadUnits(rest) == Some((s, u))
    ensures ReadUnits(q + rest) == Some(([c] + s, u))
  {
    assert (q + rest)[0] == q[0] && (q + rest)[|q|..] == rest;
  }

  lemma PairReads(h: CodeUnit, l: CodeUnit, rest: Text, s: Text, u: Text)
    requires IsHigh(h) && IsLow(l) && ReadUnits(rest) == Some((s, u))
    ensures ReadUnits([h, l] + rest) == Some(([h, l] + s, u))
  {
    assert ([l] + rest)[0] == l && ([h] + ([l] + rest))[0] == h;
    ReadsOne(l, [l], rest, s, u);
    ReadsOne(h, [h], [l] + rest, [l] + s, u);
    assert [h, l] + rest == [h] + ([l] + rest) && [h] + ([l] + s) == [h, l] + s;
  }

  lemma OneReads(c: CodeUnit, rest: Text, s: Text, u: Text)
    requires ReadUnits(rest) == Some((s, u))
    ensures ReadUnits(QuoteUnit(c) + rest) == Some(([c] + s, u))
  {
    UnitReads(c, rest);
    ReadsOne(c, QuoteUnit(c), rest, s, u);
  }

  lemma HeadReads(s: Text, rest: Text, u: Text)
    requires s != [] && ReadUnits(rest) == Some((s[Width(s)..], u))
    ensures ReadUnits(QuoteHead(s) + rest) == Some((s, u))
  {
    if Width(s) == 2 {
      PairReads(s[0], s[1], rest, s[2..], u);
      assert s[..2] == [s[0], s[1]] && [s[0], s[1]] + s[2..] == s;
    } else {
      OneReads(s[0], rest, s[1..], u);
      assert [s[0]] + s[1..] == s;
    }
  }

  lemma EscapedText(s: Text, u: Text)
    ensures s == [] ==> Escaped(s) + [QUOTE] + u == [QUOTE] + u && ([QUOTE] + u)[1..] == u
    ensures s != [] ==> Escaped(s) + [QUOTE] + u == QuoteHead(s) + (Escaped(s[Width(s)..]) + [QUOTE] + u)
  {
  }

  lemma {:induction false} EscapedReads(s: Text, u: Text)
    ensures ReadUnits(Escaped(s) + [QUOTE] + u) == Some((s, u))
    decreases |s|
  {
    EscapedText(s, u);
    if s != [] {
      EscapedReads(s[Width(s)..], u);
      HeadReads(s, Escaped(s[Width(s)..]) + [QUOTE] + u, u);
    }
  }

  /** A quotation reads as what it quotes, and ends where it ends. */
  lemma QuoteReads(s: Text, u: Text)
    ensures ReadString(Quote(s) + u) == Some((s, u))
  {
    EscapedReads(s, u);
    var rest := Escaped(s) + [QUOTE] + u;
    assert Quote(s) + u == [QUOTE] + rest && ([QUOTE] + rest)[1..] == rest;
  }

  lemma QuoteParses(s: Text, t: Text, u: Text, v: Text)
    requires Quote(s) + u == Quote(t) + v
    ensures s == t && u == v
  {
    QuoteReads(s, u);
    QuoteReads(t, v);
  }

  // ---------- No spelling is shorter ----------

  /** Hexadecimal letters are small. */
  lemma EscapesAreLowerCase(c: CodeUnit, i: nat)
    requires 2 <= i < 6
    ensures '0' as int <= UnicodeEscape(c)[i] <= '9' as int || 'a' as int <= UnicodeEscape(c)[i] <= 'f' as int
  {
  }

  lemma {:induction false} SkipAscii(t: Text, w: nat)
    requires WellFormed(t) && w <= |t| && forall i :: 0 <= i < w ==> t[i] < 128
    ensures WellFormed(t[w..])
  {
    if w > 0 {
      SkipAscii(t[1..], w - 1);
      assert t[1..][w - 1..] == t[w..];
    }
  }

  lemma PieceIsAscii(t: Text)
    requires ReadUnit(t).Some? && ReadUnit(t).value.width > 1
    ensures forall i :: 0 <= i < ReadUnit(t).value.width ==> t[i] < 128
  {
  }

  /** One more unit costs what its own quotation does, and less if it completes a pair. */
  lemma EscapedCons(c: CodeUnit, s: Text)
    ensures |Escaped([c] + s)| <= |QuoteUnit(c)| + |Escaped(s)|
    ensures s != [] && IsHigh(c) && IsLow(s[0]) ==> |Escaped([c] + s)| == 2 + |Escaped(s[1..])|
  {
    var x := [c] + s;
    if Width(x) == 2 {
      assert x[2..] == s[1..];
    } else {
      assert x[1..] == s;
    }
  }

  /** The text reads, and no shorter than the quotation of what it reads as. */
  predicate NotShorter(t: Text) {
    ReadUnits(t).Some? ==> |Escaped(ReadUnits(t).value.0)| + 1 + |ReadUnits(t).value.1| <= |t|
  }

  lemma RawPairCosts(t: Text)
    requires ReadUnits(t).Some? && t[0] != QUOTE && t[0] != BACKSLASH && Width(t) == 2
    requires NotShorter(t[2..])
    ensures NotShorter(t)
  {
    var s := ReadUnits(t[1..]).value.0;
    assert ReadUnit(t[1..]) == Some(Piece(t[1], 1)) && t[1..][1..] == t[2..];
    EscapedCons(t[0], s);
    assert s[1..] == ReadUnits(t[2..]).value.0;
  }

  lemma PieceCosts(t: Text)
    requires ReadUnit(t).Some?
    requires ReadUnit(t).value.width == 1 ==> !IsSurrogate(t[0])
    ensures |QuoteUnit(ReadUnit(t).value.unit)| <= ReadUnit(t).value.width
  {
  }

  lemma ReadsRest(t: Text)
    requires ReadUnits(t).Some? && t[0] != QUOTE
    ensures ReadUnit(t).Some? && ReadUnits(t[ReadUnit(t).value.width..]).Some?
    ensures var (s, rest) := ReadUnits(t[ReadUnit(t).value.width..]).value;
            ReadUnits(t) == Some(([ReadUnit(t).value.unit] + s, rest))
  {
  }

  lemma UnitCosts(t: Text)
    requires ReadUnits(t).Some? && t[0] != QUOTE && ReadUnit(t).Some?
    requires ReadUnit(t).value.width == 1 ==> !IsSurrogate(t[0])
    requires NotShorter(t[ReadUnit(t).value.width..])
    ensures NotShorter(t)
  {
    ReadsRest(t);
    PieceCosts(t);
    EscapedCons(ReadUnit(t).value.unit, ReadUnits(t[ReadUnit(t).value.width..]).value.0);
  }

  lemma {:induction false} UnitsAreShortest(t: Text)
    requires ReadUnits(t).Some? && WellFormed(t)
    ensures NotShorter(t)
    decreases |t|
  {
    if t[0] != QUOTE {
      var w := ReadUnit(t).value.width;
      if w == 1 && Width(t) == 2 {
        assert ReadUnit(t[1..]) == Some(Piece(t[1], 1)) && t[1..][1..] == t[2..];
        UnitsAreShortest(t[2..]);
        RawPairCosts(t);
      } else {
        if w > 1 {
          PieceIsAscii(t);
          SkipAscii(t, w);
        }
        UnitsAreShortest(t[w..]);
        UnitCosts(t);
      }
    }
  }

  /** Of all the texts without unpaired surrogates that read as s, the quotation is a shortest. */
  lemma QuoteIsShortest(s: Text, t: Text)
    requires ReadString(t) == Some((s, [])) && WellFormed(t)
    ensures |Quote(s)| <= |t|
  {
    SkipAscii(t, 1);
    UnitsAreShortest(t[1..]);
  }
}
