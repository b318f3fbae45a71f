/**
 The one secret the login output may carry, `sk-ant-` and at least twenty characters of
 `A-Za-z0-9_-`, found leftmost and as long as possible, and its replacement throughout a text,
 whether the text is there at once or arrives in chunks, each redacted together with what is
 kept of those before it.
 */
module TokenPattern {
  import opened Wrappers
  import opened RustText

  const PREFIX: string := "sk-ant-"
  const MIN_TAIL: nat := 20
  const SHORTEST: nat := 27

  predicate IsTokenChar(c: char) {
    'A' <= c <= 'Z' || 'a' <= c <= 'z' || '0' <= c <= '9' || c == '_' || c == '-'
  }

  /** What the pattern asks of the character at distance d from its start. */
  predicate Fits(c: char, d: nat) {
    if d < SHORTEST - MIN_TAIL then c == PREFIX[d] else IsTokenChar(c)
  }

  /** A match starts at i. */
  predicate TokenAt(s: string, i: nat) {
    i + SHORTEST <= |s| && forall k :: i <= k < i + SHORTEST ==> Fits(s[k], k - i)
  }

  lemma IsTokenCharIff(c: char)
    ensures IsTokenChar(c) <==> c in CAPITALS + SMALL + DIGITS + "_-"
  {
    IsCapital(c);
    IsSmall(c);
    IsDigit(c);
  }

  /** A match starts where the prefix stands with twenty characters of the alphabet after it. */
  lemma TokenAtIff(s: string, i: nat)
    ensures TokenAt(s, i) <==> && i + 27 <= |s| && s[i..i + 7] == "sk-ant-"
                               && forall k :: i + 7 <= k < i + 27 ==> s[k] in CAPITALS + SMALL + DIGITS + "_-"
  {
    forall c: char ensures IsTokenChar(c) <==> c in CAPITALS + SMALL + DIGITS + "_-" {
      IsTokenCharIff(c);
    }
    if i + 27 <= |s| {
      var t := s[i..i + 7];
      assert forall d :: 0 <= d < 7 ==> t[d] == s[i + d];
      if TokenAt(s, i) {
        forall d | 0 <= d < 7 ensures t[d] == PREFIX[d] {
          assert Fits(s[i + d], i + d - i);
        }
      }
    }
  }

  /** What the replacement must be like: too short to hold a match, no token character at
      either end. */
  predicate Closed(mark: string) {
    0 < |mark| < SHORTEST && !IsTokenChar(mark[0]) && !IsTokenChar(mark[|mark| - 1])
  }

  ghost predicate HasToken(s: string) {
    exists i: nat :: TokenAt(s, i)
  }

  /** Where the leftmost match at or after i starts. */
  function FindFrom(s: string, i: nat): (r: Option<nat>)
    requires i <= |s|
    ensures r.Some? ==> i <= r.value <= |s|
    decreases |s| - i
  {
    if TokenAt(s, i) then Some(i) else if i == |s| then None else FindFrom(s, i + 1)
  }

  function Find(s: string): (r: Option<nat>)
    ensures r.Some? ==> r.value <= |s|
  {
    FindFrom(s, 0)
  }

  lemma {:induction false} FindFromIs(s: string, i: nat)
    requires i <= |s|
    ensures var r := FindFrom(s, i);
            && (r.Some? ==> TokenAt(s, r.value) && forall j: nat :: i <= j < r.value ==> !TokenAt(s, j))
            && (r.None? ==> forall j: nat :: i <= j ==> !TokenAt(s, j))
    decreases |s| - i
  {
    if !TokenAt(s, i) && i < |s| {
      FindFromIs(s, i + 1);
    }
  }

  /** The leftmost match. */
  ghost predicate First(s: string, i: nat) {
    TokenAt(s, i) && forall j: nat :: j < i ==> !TokenAt(s, j)
  }

  lemma FindIsLeftmost(s: string)
    ensures Find(s).None? <==> !HasToken(s)
    ensures forall i: nat :: Find(s) == Some(i) <==> First(s, i)
  {
    FindFromIs(s, 0);
    forall i: nat | First(s, i) ensures Find(s) == Some(i) {
      assert Find(s).Some?;
      assert Find(s).value <= i && i <= Find(s).value;
    }
  }

  /** Where the run of token characters that covers position i ends. */
  function RunEnd(s: string, i: nat): (e: nat)
    requires i <= |s|
    ensures i <= e <= |s|
    decreases |s| - i
  {
    if i < |s| && IsTokenChar(s[i]) then RunEnd(s, i + 1) else i
  }

  lemma {:induction false} RunEndStops(s: string, i: nat)
    requires i <= |s|
    ensures forall k :: i <= k < RunEnd(s, i) ==> IsTokenChar(s[k])
    ensures RunEnd(s, i) < |s| ==> !IsTokenChar(s[RunEnd(s, i)])
    decreases |s| - i
  {
    if i < |s| && IsTokenChar(s[i]) {
      RunEndStops(s, i + 1);
    }
  }

  /** `replace_all`: matches from left to right, none overlapping. */
  function Redact(mark: string, s: string): string
    decreases |s|
  {
    match Find(s)
    case None => s
    case Some(i) =>
      var e := RunEnd(s, i);
      FindSpan(s);
      s[..i] + mark + Redact(mark, s[e..])
  }

  lemma MatchSpan(s: string, i: nat)
    requires TokenAt(s, i)
    ensures RunEnd(s, i) >= i + SHORTEST
  {
    var e := RunEnd(s, i);
    RunEndStops(s, i);
    if e < i + SHORTEST {
    }
  }

  lemma FindSpan(s: string)
    ensures Find(s).Some? ==> RunEnd(s, Find(s).value) >= Find(s).value + SHORTEST
  {
    FindFromIs(s, 0);
    if Find(s).Some? {
      MatchSpan(s, Find(s).value);
    }
  }

  // ---------- Matches and concatenation ----------

  lemma TokenInLeft(x: string, y: string, i: nat)
    requires i + SHORTEST <= |x|
    ensures TokenAt(x + y, i) <==> TokenAt(x, i)
  {
    assert forall k :: i <= k < i + SHORTEST ==> (x + y)[k] == x[k];
  }

  lemma TokenInRight(x: string, y: string, i: nat)
    ensures TokenAt(x + y, |x| + i) <==> TokenAt(y, i)
  {
    assert forall k :: 0 <= k < |y| ==> (x + y)[|x| + k] == y[k];
    assert forall k :: |x| <= k < |x + y| ==> (x + y)[k] == y[k - |x|];
  }

  /** No match crosses a character that is not a token character. */
  lemma TokenStops(s: string, i: nat, k: nat)
    requires TokenAt(s, i) && i <= k < |s| && !IsTokenChar(s[k])
    ensures i + SHORTEST <= k
  {
    MatchSpan(s, i);
    RunEndStops(s, i);
  }

  lemma PrefixTokenFree(s: string, k: nat)
    requires k <= |s| && forall j: nat :: j < k ==> !TokenAt(s, j)
    ensures !HasToken(s[..k])
  {
    assert s == s[..k] + s[k..];
    forall j: nat ensures !TokenAt(s[..k], j) {
      if j + SHORTEST <= k { TokenInLeft(s[..k], s[k..], j); }
    }
  }

  lemma FindPrefixFree(s: string)
    ensures Find(s).Some? ==> !HasToken(s[..Find(s).value])
  {
    FindIsLeftmost(s);
    if Find(s).Some? {
      PrefixTokenFree(s, Find(s).value);
    }
  }

  lemma DropTokenFree(s: string, k: nat)
    requires k <= |s| && !HasToken(s)
    ensures !HasToken(s[k..])
  {
    assert s == s[..k] + s[k..];
    forall j: nat ensures !TokenAt(s[k..], j) {
      TokenInRight(s[..k], s[k..], j);
    }
  }

  /** A text free of matches, closed off by the mark, and a text free of matches. */
  lemma MarkSeparates(mark: string, x: string, y: string)
    requires Closed(mark)
    requires !HasToken(x) && !HasToken(y)
    ensures !HasToken(x + mark + y)
  {
    var s := x + mark + y;
    forall j: nat ensures !TokenAt(s, j) {
      var open, close := |x|, |x| + |mark| - 1;
      assert s[open] == mark[0] && s[close] == mark[|mark| - 1];
      if TokenAt(s, j) {
        if j <= open {
          TokenStops(s, j, open);
          assert s == x + (mark + y);
          TokenInLeft(x, mark + y, j);
        } else if j <= close {
          TokenStops(s, j, close);
        } else {
          TokenInRight(x + mark, y, j - |x + mark|);
        }
      }
    }
  }

  /** Redaction leaves no match. */
  lemma {:induction false} RedactLeavesNone(mark: string, s: string)
    requires Closed(mark)
    ensures !HasToken(Redact(mark, s))
    decreases |s|
  {
    FindIsLeftmost(s);
    match Find(s)
    case None =>
    case Some(i) =>
      FindSpan(s);
      RedactLeavesNone(mark, s[RunEnd(s, i)..]);
      PrefixTokenFree(s, i);
      MarkSeparates(mark, s[..i], Redact(mark, s[RunEnd(s, i)..]));
  }

  // ---------- Redaction piece by piece ----------

  lemma SliceRight(x: string, y: string, k: nat)
    requires k <= |y|
    ensures (x + y)[..|x| + k] == x + y[..k] && (x + y)[|x| + k..] == y[k..]
  {
  }

  lemma SliceLeft(x: string, y: string, k: nat)
    requires k <= |x|
    ensures (x + y)[..k] == x[..k] && (x + y)[k..] == x[k..] + y
  {
  }

  lemma Reassociate(a: string, b: string, c: string)
    ensures a + b + c == a + (b + c)
  {
  }

  lemma Regroup(a: string, b: string, m: string, c: string)
    ensures (a + b) + m + c == a + (b + m + c)
  {
  }

  lemma RedactAt(mark: string, s: string, i: nat, before: string, after: string)
    requires Find(s) == Some(i) && before == s[..i] && after == s[RunEnd(s, i)..]
    ensures Redact(mark, s) == before + mark + Redact(mark, after)
  {
  }

  lemma FirstShift(x: string, y: string, i: nat)
    requires (forall j: nat :: j < |x| ==> !TokenAt(x + y, j)) && First(y, i)
    ensures First(x + y, |x| + i)
  {
    TokenInRight(x, y, i);
    forall j: nat | j < |x| + i ensures !TokenAt(x + y, j) {
      if j >= |x| { TokenInRight(x, y, j - |x|); }
    }
  }

  lemma NoneShift(x: string, y: string)
    requires (forall j: nat :: j < |x| ==> !TokenAt(x + y, j)) && !HasToken(y)
    ensures !HasToken(x + y)
  {
    forall j: nat ensures !TokenAt(x + y, j) {
      if j >= |x| { TokenInRight(x, y, j - |x|); }
    }
  }

  lemma FindShift(x: string, y: string)
    requires forall j: nat :: j < |x| ==> !TokenAt(x + y, j)
    ensures Find(x + y) == if Find(y).Some? then Some(|x| + Find(y).value) else None
  {
    FindIsLeftmost(y);
    FindIsLeftmost(x + y);
    if Find(y).Some? {
      FirstShift(x, y, Find(y).value);
    } else {
      NoneShift(x, y);
    }
  }

  lemma {:induction false} RunEndShift(x: string, y: string, i: nat)
    requires i <= |y|
    ensures RunEnd(x + y, |x| + i) == |x| + RunEnd(y, i)
    decreases |y| - i
  {
    if i < |y| && IsTokenChar(y[i]) {
      RunEndShift(x, y, i + 1);
    }
  }

  lemma FirstPasses(mark: string, x: string, y: string, i: nat)
    requires Closed(mark) && Find(y) == Some(i) && Find(x + y) == Some(|x| + i)
    ensures Redact(mark, x + y) == x + Redact(mark, y)
  {
    var e := RunEnd(y, i);
    RunEndShift(x, y, i);
    SliceRight(x, y, i);
    SliceRight(x, y, e);
    RedactAt(mark, y, i, y[..i], y[e..]);
    RedactAt(mark, x + y, |x| + i, x + y[..i], y[e..]);
    Regroup(x, y[..i], mark, Redact(mark, y[e..]));
  }

  /** Text before which no match starts passes through. */
  lemma PassThrough(mark: string, x: string, y: string)
    requires Closed(mark)
    requires forall j: nat :: j < |x| ==> !TokenAt(x + y, j)
    ensures Redact(mark, x + y) == x + Redact(mark, y)
  {
    FindShift(x, y);
    if Find(y).Some? {
      FirstPasses(mark, x, y, Find(y).value);
    }
  }

  /** No match reaches from a text that ends in no token character into the next. */
  lemma ClosedTokenFree(x: string, y: string)
    requires !HasToken(x) && (x == [] || !IsTokenChar(x[|x| - 1]))
    ensures forall j: nat :: j < |x| ==> !TokenAt(x + y, j)
  {
    forall j: nat | j < |x| ensures !TokenAt(x + y, j) {
      if TokenAt(x + y, j) {
        TokenStops(x + y, j, |x| - 1);
        TokenInLeft(x, y, j);
      }
    }
  }

  lemma MarkedPassesThrough(mark: string, x: string, y: string)
    requires Closed(mark)
    requires !HasToken(x)
    ensures Redact(mark, x + mark + y) == x + mark + Redact(mark, y)
  {
    MarkSeparates(mark, x, []);
    assert x + mark + [] == x + mark;
    assert (x + mark)[|x + mark| - 1] == mark[|mark| - 1];
    ClosedTokenFree(x + mark, y);
    PassThrough(mark, x + mark, y);
  }

  /** The text ends inside a match: its last run of token characters holds one. */
  predicate EndsInToken(s: string)
    decreases |s|
  {
    match Find(s)
    case None => false
    case Some(i) =>
      FindSpan(s);
      RunEnd(s, i) == |s| || EndsInToken(s[RunEnd(s, i)..])
  }

  lemma {:induction false} RunEndExtends(x: string, y: string, i: nat)
    requires i <= |x|
    requires RunEnd(x, i) < |x| || y == [] || !IsTokenChar(y[0])
    ensures RunEnd(x + y, i) == RunEnd(x, i)
    decreases |x| - i
  {
    if i < |x| && IsTokenChar(x[i]) {
      RunEndExtends(x, y, i + 1);
    }
  }

  lemma FindExtends(x: string, y: string)
    requires Find(x).Some?
    ensures Find(x + y) == Find(x)
  {
    var i := Find(x).value;
    FindIsLeftmost(x);
    FindIsLeftmost(x + y);
    TokenInLeft(x, y, i);
    forall j: nat | j < i ensures !TokenAt(x + y, j) {
      TokenInLeft(x, y, j);
    }
    assert First(x + y, i);
  }

  /** One step of redacting x + y, when the first match of x does not run on into y. */
  lemma RedactStep(mark: string, x: string, y: string)
    requires Closed(mark)
    requires Find(x).Some?
    requires var e := RunEnd(x, Find(x).value); e < |x| || y == [] || !IsTokenChar(y[0])
    ensures var i := Find(x).value;
            var e := RunEnd(x, i);
            && Redact(mark, x + y) == x[..i] + mark + Redact(mark, x[e..] + y)
            && Redact(mark, Redact(mark, x) + y) == x[..i] + mark + Redact(mark, Redact(mark, x[e..]) + y)
  {
    var i := Find(x).value;
    var e := RunEnd(x, i);
    FindExtends(x, y);
    RunEndExtends(x, y, i);
    SliceLeft(x, y, i);
    SliceLeft(x, y, e);
    RedactAt(mark, x, i, x[..i], x[e..]);
    RedactAt(mark, x + y, i, x[..i], x[e..] + y);
    FindPrefixFree(x);
    MarkedPassesThrough(mark, x[..i], Redact(mark, x[e..]) + y);
    Reassociate(x[..i] + mark, Redact(mark, x[e..]), y);
  }

  lemma {:induction false} ChunkingHarmless(mark: string, x: string, y: string)
    requires Closed(mark)
    requires !EndsInToken(x) || y == [] || !IsTokenChar(y[0])
    ensures Redact(mark, Redact(mark, x) + y) == Redact(mark, x + y)
    decreases |x|
  {
    if Find(x).Some? {
      var e := RunEnd(x, Find(x).value);
      FindSpan(x);
      RedactStep(mark, x, y);
      ChunkingHarmless(mark, x[e..], y);
    }
  }

  /** A nonempty beginning of token characters is not lost by redaction, only marked. */
  lemma BeginningStays(mark: string, y: string)
    requires Closed(mark)
    requires y != [] && IsTokenChar(y[0])
    ensures |Redact(mark, y)| > |Redact(mark, y[RunEnd(y, 0)..])|
  {
    var r := RunEnd(y, 0);
    FindIsLeftmost(y);
    if Find(y).Some? && Find(y).value < r {
      var i := Find(y).value;
      RunCovers(y, 0, i);
      RedactAt(mark, y, i, y[..i], y[r..]);
    } else {
      NoneBefore(y, r);
      PassThrough(mark, y[..r], y[r..]);
    }
  }

  lemma NoneBefore(y: string, r: nat)
    requires r <= |y| && (Find(y).Some? ==> Find(y).value >= r)
    ensures y == y[..r] + y[r..] && forall j: nat :: j < r ==> !TokenAt(y, j)
  {
    FindIsLeftmost(y);
  }

  lemma {:induction false} RunCovers(y: string, i: nat, k: nat)
    requires i <= |y| && i <= k <= RunEnd(y, i)
    ensures RunEnd(y, k) == RunEnd(y, i)
    decreases k - i
  {
    if i < k {
      RunCovers(y, i + 1, k);
    }
  }

  lemma RunsOn(mark: string, x: string, y: string, i: nat)
    requires Closed(mark)
    requires Find(x) == Some(i) && RunEnd(x, i) == |x|
    ensures Redact(mark, x + y) == x[..i] + mark + Redact(mark, y[RunEnd(y, 0)..])
  {
    FindExtends(x, y);
    RunThrough(x, y, i);
    SliceLeft(x, y, i);
    SliceRight(x, y, RunEnd(y, 0));
    RedactAt(mark, x + y, i, x[..i], y[RunEnd(y, 0)..]);
  }

  lemma {:induction false} RunThrough(x: string, y: string, i: nat)
    requires i <= |x| && RunEnd(x, i) == |x|
    ensures RunEnd(x + y, i) == |x| + RunEnd(y, 0)
    decreases |x| - i
  {
    if i < |x| {
      RunThrough(x, y, i + 1);
    } else {
      RunEndShift(x, y, 0);
    }
  }

  // ---------- A whole stream ----------

  /** A text that ends inside a match is redacted to something that ends with the mark. */
  lemma {:induction false} EndingForm(mark: string, x: string) returns (v: string)
    requires Closed(mark) && EndsInToken(x)
    ensures Redact(mark, x) == v + mark && !HasToken(v)
    decreases |x|
  {
    var i := Find(x).value;
    var e := RunEnd(x, i);
    FindSpan(x);
    FindPrefixFree(x);
    RedactAt(mark, x, i, x[..i], x[e..]);
    if e < |x| {
      var w := EndingForm(mark, x[e..]);
      MarkSeparates(mark, x[..i], w);
      v := x[..i] + mark + w;
      Reassociate(x[..i] + mark, w, mark);
    } else {
      v := x[..i];
      assert Redact(mark, []) == [];
    }
  }

  /** What continues a match is swallowed by it. */
  lemma {:induction false} EndingRunsOn(mark: string, x: string, y: string)
    requires Closed(mark) && EndsInToken(x)
    ensures Redact(mark, x + y) == Redact(mark, x) + Redact(mark, y[RunEnd(y, 0)..])
    decreases |x|
  {
    var i := Find(x).value;
    var e := RunEnd(x, i);
    FindSpan(x);
    RedactAt(mark, x, i, x[..i], x[e..]);
    if e < |x| {
      RedactStep(mark, x, y);
      EndingRunsOn(mark, x[e..], y);
      Reassociate(x[..i] + mark, Redact(mark, x[e..]), Redact(mark, y[RunEnd(y, 0)..]));
    } else {
      RunsOn(mark, x, y, i);
      assert Redact(mark, []) == [];
    }
  }

  function Flat(chunks: seq<string>): string {
    if chunks == [] then [] else chunks[0] + Flat(chunks[1..])
  }

  /** Chunk by chunk: append, then redact what is there. */
  function Arriving(mark: string, buffer: string, chunks: seq<string>): string
    decreases |chunks|
  {
    if chunks == [] then buffer else Arriving(mark, Redact(mark, buffer + chunks[0]), chunks[1..])
  }

  /** What lies before a mark stays as it is. */
  lemma {:induction false} ArrivingPasses(mark: string, v: string, buffer: string, chunks: seq<string>)
    requires Closed(mark) && !HasToken(v)
    ensures Arriving(mark, v + mark + buffer, chunks) == v + mark + Arriving(mark, buffer, chunks)
    decreases |chunks|
  {
    if chunks != [] {
      Reassociate(v + mark, buffer, chunks[0]);
      MarkedPassesThrough(mark, v, buffer + chunks[0]);
      ArrivingPasses(mark, v, Redact(mark, buffer + chunks[0]), chunks[1..]);
    }
  }

  /** x ends inside a match and y goes on with it. */
  predicate CutInside(x: string, y: string) {
    EndsInToken(x) && y != [] && IsTokenChar(y[0])
  }

  /** After x, none of the chunks begins inside a match. */
  predicate Uncut(x: string, chunks: seq<string>)
    decreases |chunks|
  {
    chunks == [] || (!CutInside(x, Flat(chunks)) && Uncut(x + chunks[0], chunks[1..]))
  }

  lemma CutShows(mark: string, x: string, chunks: seq<string>)
    requires Closed(mark) && CutInside(x, Flat(chunks))
    requires |Arriving(mark, [], chunks)| >= |Redact(mark, Flat(chunks))|
    ensures |Arriving(mark, Redact(mark, x), chunks)| > |Redact(mark, x + Flat(chunks))|
  {
    var v := EndingForm(mark, x);
    assert v + mark + [] == v + mark;
    ArrivingPasses(mark, v, [], chunks);
    EndingRunsOn(mark, x, Flat(chunks));
    BeginningStays(mark, Flat(chunks));
  }

  /** Redaction as the text arrives never leaves less than redacting it whole, and as much only
      if it is not cut inside a match. */
  lemma {:induction false} ArrivingCompares(mark: string, x: string, chunks: seq<string>)
    requires Closed(mark)
    ensures Uncut(x, chunks) ==> Arriving(mark, Redact(mark, x), chunks) == Redact(mark, x + Flat(chunks))
    ensures !Uncut(x, chunks) ==> |Arriving(mark, Redact(mark, x), chunks)| > |Redact(mark, x + Flat(chunks))|
    decreases |chunks|
  {
    if chunks == [] {
      assert x + [] == x;
    } else {
      var c, rest := chunks[0], chunks[1..];
      if CutInside(x, Flat(chunks)) {
        ArrivingCompares(mark, c, rest);
        assert [] + c == c;
        CutShows(mark, x, chunks);
      } else {
        ChunkingHarmless(mark, x, c);
        ArrivingCompares(mark, x + c, rest);
        Reassociate(x, c, Flat(rest));
      }
    }
  }

  lemma {:induction false} UncutIff(x: string, chunks: seq<string>)
    ensures Uncut(x, chunks)
            <==> forall i :: 0 <= i < |chunks| ==> !CutInside(x + Flat(chunks[..i]), Flat(chunks[i..]))
    decreases |chunks|
  {
    if chunks != [] {
      var c, rest := chunks[0], chunks[1..];
      UncutIff(x + c, rest);
      assert x + Flat(chunks[..0]) == x && chunks[0..] == chunks;
      forall i | 0 < i < |chunks|
        ensures CutInside(x + Flat(chunks[..i]), Flat(chunks[i..]))
           <==> CutInside(x + c + Flat(rest[..i - 1]), Flat(rest[i - 1..]))
      {
        assert chunks[..i][1..] == rest[..i - 1] && chunks[i..] == rest[i - 1..];
        Reassociate(x, c, Flat(rest[..i - 1]));
      }
      if Uncut(x, chunks) {
        forall i | 0 <= i < |chunks| ensures !CutInside(x + Flat(chunks[..i]), Flat(chunks[i..])) {
          assert i > 0 ==> !CutInside(x + c + Flat(rest[..i - 1]), Flat(rest[i - 1..]));
        }
      } else if !CutInside(x, Flat(chunks)) {
        var k :| 0 <= k < |rest| && CutInside(x + c + Flat(rest[..k]), Flat(rest[k..]));
        assert CutInside(x + Flat(chunks[..k + 1]), Flat(chunks[k + 1..]));
      }
    }
  }

  /** For any number of chunks: redacting after each comes to the same as redacting the whole
      text, exactly when no chunk begins inside a match that was already long enough to be one. */
  lemma ChunkingIffNotCutInside(mark: string, chunks: seq<string>)
    requires Closed(mark)
    ensures Arriving(mark, [], chunks) == Redact(mark, Flat(chunks))
            <==> forall i :: 0 <= i < |chunks| ==> !CutInside(Flat(chunks[..i]), Flat(chunks[i..]))
  {
    ArrivingCompares(mark, [], chunks);
    UncutIff([], chunks);
    assert Redact(mark, []) == [] && [] + Flat(chunks) == Flat(chunks);
    assert forall i :: 0 <= i < |chunks| ==> [] + Flat(chunks[..i]) == Flat(chunks[..i]);
  }
}
