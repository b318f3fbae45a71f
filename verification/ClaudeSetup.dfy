/**
 The Claude login's output: chunks absorbed by a reader thread, the exit recorded by a waiter
 thread, and the verdict polled by the browser. The URL and error patterns are parameters;
 the token pattern is `TokenPattern`.
 */
module ClaudeSetup {
  import opened Wrappers
  import opened RustText
  import TokenPattern

  const MAX_OUTPUT_BYTES: nat := 0x20_0000
  const MARK: string := "[REDACTED_CLAUDE_TOKEN]"
  const REJECTED: string :=
    "Claude rejected the authorization code. Copy the full code from the Claude tab, "
    + "including any part after the # character, and try again."
  const NOT_VERIFIED: string := "Claude login was not verified. Reconnect using the official login."

  /** What the patterns find: a login URL, an OAuth error once the escape codes are gone. */
  datatype Patterns = Patterns(url: string -> Option<string>, oauthError: string -> bool)

  // ---------- The accumulator ----------

  datatype Output = Output(
    buffer: string,
    authorizeUrl: Option<string>,
    token: Option<string>,
    authenticated: bool,
    failure: Option<string>,
    readerClosed: bool,
    exitCode: Option<int>)
  {
    predicate Terminal() { readerClosed && exitCode.Some? }
  }

  const FRESH := Output([], None, None, false, None, false, None)

  function FirstSome<T>(a: Option<T>, b: Option<T>): Option<T> { if a.Some? then a else b }

  /** The leftmost token of a text, at full length. */
  function TokenOf(s: string): Option<string> {
    match TokenPattern.Find(s)
    case None => None
    case Some(i) => Some(s[i..TokenPattern.RunEnd(s, i)])
  }

  /** What absorbing a chunk comes to: read, then redact, then keep the end that fits. */
  function Absorb(o: Output, chunk: string, p: Patterns): Output {
    var text := o.buffer + chunk;
    o.(buffer := Fitting(TokenPattern.Redact(MARK, text), MAX_OUTPUT_BYTES),
       authorizeUrl := FirstSome(o.authorizeUrl, p.url(text)),
       token := FirstSome(o.token, TokenOf(text)),
       failure := FirstSome(o.failure, if p.oauthError(text) then Some(REJECTED) else None))
  }

  /** The waiter's one report. */
  function RecordExit(o: Output, code: int, verified: bool): Output {
    o.(buffer := [], authenticated := verified, exitCode := Some(code),
       failure := if verified then o.failure else Some(NOT_VERIFIED))
  }

  datatype Response = Ready(token: Option<string>) | Failed(reason: string) | Pending

  function PollResponse(o: Output): Response {
    if o.Terminal() && o.authenticated then Ready(o.token)
    else if o.failure.Some? then Failed(o.failure.value)
    else if o.Terminal() then Failed("Claude login stopped before sign-in was verified.")
    else Pending
  }

  /** The output behind its lock, changed in place by the reader and the waiter. */
  class ClaudeSetupOutput {
    var buffer: string
    var authorizeUrl: Option<string>
    var token: Option<string>
    var authenticated: bool
    var failure: Option<string>
    var readerClosed: bool
    var exitCode: Option<int>

    ghost function Value(): Output
      reads this
    {
      Output(buffer, authorizeUrl, token, authenticated, failure, readerClosed, exitCode)
    }

    constructor ()
      ensures Value() == FRESH
    {
      buffer, authorizeUrl, token, authenticated, failure, readerClosed, exitCode :=
        [], None, None, false, None, false, None;
    }

    method Push(chunk: string, p: Patterns)
      modifies this
      ensures Value() == Absorb(old(Value()), chunk, p)
    {
      buffer := buffer + chunk;
      if authorizeUrl.None? {
        authorizeUrl := p.url(buffer);
      }
      if failure.None? && p.oauthError(buffer) {
        failure := Some(REJECTED);
      }
      if token.None? {
        match TokenPattern.Find(buffer) {
          case Some(i) => token := Some(buffer[i..TokenPattern.RunEnd(buffer, i)]);
          case None =>
        }
      }
      buffer := TokenPattern.Redact(MARK, buffer);
      buffer := Trim(buffer, MAX_OUTPUT_BYTES);
    }

    /** Drop whole characters in front, looking upwards for a place where one ends. */
    static method Trim(s: string, max: nat) returns (r: string)
      ensures r == Fitting(s, max)
    {
      if Length(s) <= max {
        return s;
      }
      var overflow := Length(s) - max;
      BoundaryIffPrefix(s, Length(s), |s|);
      assert s[..|s|] == s;
      while !IsCharBoundary(s, overflow)
        invariant Length(s) - max <= overflow <= Length(s)
        invariant forall k: nat :: Length(s) - max <= k < overflow ==> !IsCharBoundary(s, k)
        decreases Length(s) - overflow
      {
        overflow := overflow + 1;
      }
      var n := CharsIn(s, overflow).value;
      r := s[n..];
      CutIsFitting(s, max, overflow, n);
    }

    method CloseReader()
      modifies this
      ensures Value() == old(Value()).(readerClosed := true)
    {
      readerClosed := true;
    }

    method Report(code: int, verified: bool)
      modifies this
      ensures Value() == RecordExit(old(Value()), code, verified)
    {
      authenticated := verified;
      exitCode := Some(code);
      buffer := [];
      if !verified {
        failure := Some(NOT_VERIFIED);
      }
    }
  }

  // ---------- Every run of reader and waiter ----------

  datatype Event = Chunk(text: string) | ReaderEnds | Exit(code: int, verified: bool)

  /** The reader stops at the end of its stream; the waiter reports once. */
  predicate MayHappen(o: Output, e: Event) {
    if e.Exit? then o.exitCode.None? else !o.readerClosed
  }

  function Apply(o: Output, e: Event, p: Patterns): Output {
    match e
    case Chunk(text) => Absorb(o, text, p)
    case ReaderEnds => o.(readerClosed := true)
    case Exit(code, verified) => RecordExit(o, code, verified)
  }

  /** Any interleaving, from any state on. */
  ghost predicate Path(states: seq<Output>, events: seq<Event>, p: Patterns) {
    && |states| == |events| + 1
    && forall i {:trigger events[i]} :: 0 <= i < |events| ==>
         MayHappen(states[i], events[i]) && states[i + 1] == Apply(states[i], events[i], p)
  }

  ghost predicate Run(states: seq<Output>, events: seq<Event>, p: Patterns) {
    Path(states, events, p) && states[0] == FRESH
  }

  ghost predicate Inv(o: Output) {
    && !TokenPattern.HasToken(o.buffer)
    && Length(o.buffer) <= MAX_OUTPUT_BYTES
    && (o.exitCode.Some? && !o.authenticated ==> o.failure.Some?)
    && (o.authenticated ==> o.exitCode.Some?)
  }

  lemma MarkIsClosed()
    ensures TokenPattern.Closed(MARK)
  {
  }

  lemma AbsorbInv(o: Output, chunk: string, p: Patterns)
    requires Inv(o)
    ensures Inv(Absorb(o, chunk, p))
  {
    var text := TokenPattern.Redact(MARK, o.buffer + chunk);
    MarkIsClosed();
    TokenPattern.RedactLeavesNone(MARK, o.buffer + chunk);
    FittingFits(text, MAX_OUTPUT_BYTES);
    TokenPattern.DropTokenFree(text, |text| - |Fitting(text, MAX_OUTPUT_BYTES)|);
  }

  /** After any chunks in any cut, before and after the exit: no token in the buffer, and no
      more than the bound. */
  lemma {:induction false} BufferIsCleanAndBounded(states: seq<Output>, events: seq<Event>, p: Patterns, i: nat)
    requires Run(states, events, p) && i < |states|
    ensures Inv(states[i])
  {
    if i == 0 {
      assert forall j: nat :: !TokenPattern.TokenAt([], j);
    } else {
      BufferIsCleanAndBounded(states, events, p, i - 1);
      match events[i - 1]
      case Chunk(text) => AbsorbInv(states[i - 1], text, p);
      case ReaderEnds =>
      case Exit(_, _) => assert forall j: nat :: !TokenPattern.TokenAt([], j);
    }
  }

  // ---------- Which token is captured ----------

  /** `TokenOf` is the leftmost match, as far as its token characters go. */
  lemma TokenOfIsLeftmost(text: string)
    ensures TokenOf(text).Some? <==> TokenPattern.HasToken(text)
    ensures TokenOf(text).Some? ==> exists i: nat, e: nat ::
              && TokenPattern.First(text, i) && i + TokenPattern.SHORTEST <= e <= |text|
              && TokenOf(text) == Some(text[i..e])
              && (forall k :: i <= k < e ==> TokenPattern.IsTokenChar(text[k]))
              && (e < |text| ==> !TokenPattern.IsTokenChar(text[e]))
  {
    TokenPattern.FindIsLeftmost(text);
    TokenPattern.FindSpan(text);
    if TokenPattern.Find(text).Some? {
      TokenPattern.RunEndStops(text, TokenPattern.Find(text).value);
    }
  }

  /** The text read since the start, or since the exit was recorded and the buffer cleared. */
  function Stream(events: seq<Event>): string {
    if events == [] then []
    else
      match events[|events| - 1]
      case Chunk(text) => Stream(events[..|events| - 1]) + text
      case ReaderEnds => Stream(events[..|events| - 1])
      case Exit(_, _) => []
  }

  /** The leftmost token of that stream at the moment it first has one. */
  function Captured(events: seq<Event>): Option<string> {
    if events == [] then None
    else FirstSome(Captured(events[..|events| - 1]), TokenOf(Stream(events)))
  }

  /** The buffer is the stream, or an end of it long enough to hold any unfinished match. */
  predicate IsEnd(buffer: string, stream: string) {
    && |buffer| <= |stream| && buffer == stream[|stream| - |buffer|..]
    && (buffer == stream || |buffer| >= TokenPattern.SHORTEST)
  }

  /** Nothing that trimming has dropped can take part in a match. */
  lemma DroppedIsNoMatch(dropped: string, buffer: string, chunk: string)
    requires !TokenPattern.HasToken(dropped + buffer)
    requires dropped == [] || |buffer| >= TokenPattern.SHORTEST
    ensures TokenOf(dropped + (buffer + chunk)) == TokenOf(buffer + chunk)
  {
    var text := buffer + chunk;
    assert dropped + buffer + chunk == dropped + text;
    forall j: nat | j < |dropped| ensures !TokenPattern.TokenAt(dropped + text, j) {
      TokenPattern.TokenInLeft(dropped + buffer, chunk, j);
    }
    TokenPattern.FindShift(dropped, text);
    if TokenPattern.Find(text).Some? {
      var i := TokenPattern.Find(text).value;
      TokenPattern.RunEndShift(dropped, text, i);
      var e := TokenPattern.RunEnd(text, i);
      assert (dropped + text)[|dropped| + i..|dropped| + e] == text[i..e];
    }
  }

  /** What is kept of a text without a match is an end of the stream. */
  lemma KeptIsEnd(dropped: string, text: string)
    requires dropped == [] || |text| >= TokenPattern.SHORTEST
    ensures IsEnd(Fitting(text, MAX_OUTPUT_BYTES), dropped + text)
  {
    var kept := Fitting(text, MAX_OUTPUT_BYTES);
    FittingFits(text, MAX_OUTPUT_BYTES);
    LengthAtLeast(kept);
    assert (dropped + text)[|dropped + text| - |kept|..] == text[|text| - |kept|..];
    if Length(text) <= MAX_OUTPUT_BYTES {
      assert kept == text;
      assert dropped == [] ==> dropped + text == text;
    }
  }

  /** While no token has been captured the stream has none, and the buffer is an end of it. */
  ghost predicate Waiting(o: Output, events: seq<Event>) {
    && o.token == Captured(events)
    && (o.token.None? ==> !TokenPattern.HasToken(Stream(events)) && IsEnd(o.buffer, Stream(events)))
  }

  lemma ChunkWaits(o: Output, events: seq<Event>, chunk: string, p: Patterns)
    requires Waiting(o, events) && o.token.None?
    ensures Waiting(Absorb(o, chunk, p), events + [Chunk(chunk)])
  {
    var stream, text := Stream(events), o.buffer + chunk;
    var dropped := stream[..|stream| - |o.buffer|];
    assert stream == dropped + o.buffer;
    assert (events + [Chunk(chunk)])[..|events|] == events;
    assert Stream(events + [Chunk(chunk)]) == dropped + text;
    DroppedIsNoMatch(dropped, o.buffer, chunk);
    TokenOfIsLeftmost(text);
    TokenOfIsLeftmost(dropped + text);
    TokenPattern.FindIsLeftmost(text);
    if TokenOf(text).None? {
      KeptIsEnd(dropped, text);
    }
  }

  lemma CapturedStep(events: seq<Event>, e: Event)
    ensures Captured(events + [e]) == FirstSome(Captured(events), TokenOf(Stream(events + [e])))
    ensures !e.Chunk? ==> Stream(events + [e]) == if e.Exit? then [] else Stream(events)
  {
    assert (events + [e])[..|events|] == events;
  }

  lemma NothingInNothing()
    ensures !TokenPattern.HasToken([]) && TokenOf([]) == None && IsEnd([], [])
  {
    TokenOfIsLeftmost([]);
    assert forall j: nat :: !TokenPattern.TokenAt([], j);
  }

  lemma WaitingStep(o: Output, events: seq<Event>, e: Event, p: Patterns)
    requires Waiting(o, events)
    ensures Waiting(Apply(o, e, p), events + [e])
  {
    CapturedStep(events, e);
    NothingInNothing();
    if o.token.None? {
      match e
      case Chunk(text) => ChunkWaits(o, events, text, p);
      case ReaderEnds => TokenOfIsLeftmost(Stream(events));
      case Exit(_, _) =>
    }
  }

  /** Over every run, trimming and redaction make no difference to the capture: the token is the
      leftmost one of the stream, as far as it had come when it first stood there. */
  lemma {:induction false} TokenIsCaptured(states: seq<Output>, events: seq<Event>, p: Patterns, i: nat)
    requires Run(states, events, p) && i < |states|
    ensures Waiting(states[i], events[..i])
  {
    NothingInNothing();
    if i > 0 {
      TokenIsCaptured(states, events, p, i - 1);
      assert states[i - 1 + 1] == Apply(states[i - 1], events[i - 1], p);
      assert events[..i] == events[..i - 1] + [events[i - 1]];
      WaitingStep(states[i - 1], events[..i - 1], events[i - 1], p);
    }
  }

  /** Event j has completed the first match of the stream. */
  ghost predicate Completes(events: seq<Event>, j: nat) {
    j < |events| && Captured(events[..j]).None? && TokenPattern.HasToken(Stream(events[..j + 1]))
  }

  lemma {:induction false} StreamGrows(events: seq<Event>, j: nat, i: nat) returns (more: string)
    requires j <= i <= |events| && forall k :: j <= k < i ==> !events[k].Exit?
    ensures Stream(events[..i]) == Stream(events[..j]) + more
  {
    more := [];
    if j < i {
      more := StreamGrows(events, j, i - 1);
      assert events[..i][..i - 1] == events[..i - 1];
      if events[i - 1].Chunk? {
        assert Stream(events[..j]) + more + events[i - 1].text == Stream(events[..j]) + (more + events[i - 1].text);
        more := more + events[i - 1].text;
      }
    }
  }

  lemma {:induction false} CapturedStays(events: seq<Event>, j: nat, i: nat)
    requires j <= i <= |events| && Captured(events[..j]).Some?
    ensures Captured(events[..i]) == Captured(events[..j])
  {
    if j < i {
      CapturedStays(events, j, i - 1);
      assert events[..i][..i - 1] == events[..i - 1];
    }
  }

  /** More text changes the leftmost token exactly when the token reaches to the end of what was
      there and the text goes on with a token character. */
  lemma TokenOfGrows(x: string, y: string)
    requires TokenPattern.HasToken(x)
    ensures TokenOf(x + y) == TokenOf(x) <==> !(TokenEndsText(x) && y != [] && TokenPattern.IsTokenChar(y[0]))
  {
    TokenPattern.FindIsLeftmost(x);
    TokenPattern.FindExtends(x, y);
    var i := TokenPattern.Find(x).value;
    var e := TokenPattern.RunEnd(x, i);
    if TokenEndsText(x) {
      TokenPattern.RunThrough(x, y, i);
      assert (x + y)[i..e] == x[i..e];
    } else {
      TokenPattern.RunEndExtends(x, y, i);
      assert (x + y)[i..e] == x[i..e];
    }
  }

  predicate TokenEndsText(x: string) {
    TokenPattern.Find(x).Some? && TokenPattern.RunEnd(x, TokenPattern.Find(x).value) == |x|
  }

  lemma CapturedAtCompletion(events: seq<Event>, j: nat, i: nat)
    requires j < i <= |events| && Completes(events, j)
    ensures Captured(events[..i]) == TokenOf(Stream(events[..j + 1]))
  {
    assert events[..j + 1][..j] == events[..j];
    TokenOfIsLeftmost(Stream(events[..j + 1]));
    CapturedStays(events, j + 1, i);
  }

  lemma StreamTokenIff(events: seq<Event>, j: nat, i: nat)
    requires j < i <= |events| && Completes(events, j) && forall k :: j < k < i ==> !events[k].Exit?
    ensures var was, now := Stream(events[..j + 1]), Stream(events[..i]);
            && was <= now
            && (TokenOf(now) == TokenOf(was)
                <==> !(TokenEndsText(was) && |was| < |now| && TokenPattern.IsTokenChar(now[|was|])))
  {
    var more := StreamGrows(events, j + 1, i);
    TokenOfGrows(Stream(events[..j + 1]), more);
  }

  /** The captured token is the stream's leftmost token at full length if and only if the chunk
      that completed the match did not end where the token did so far, a token character coming
      next. Cut there, the token stays short for good. */
  lemma CapturedWholeIff(states: seq<Output>, events: seq<Event>, p: Patterns, j: nat, i: nat)
    requires Run(states, events, p) && j < i < |states| && Completes(events, j)
    requires forall k :: j < k < i ==> !events[k].Exit?
    ensures var was, now := Stream(events[..j + 1]), Stream(events[..i]);
            && states[i].token == TokenOf(was) && was <= now
            && (states[i].token == TokenOf(now)
                <==> !(TokenEndsText(was) && |was| < |now| && TokenPattern.IsTokenChar(now[|was|])))
  {
    TokenIsCaptured(states, events, p, i);
    CapturedAtCompletion(events, j, i);
    StreamTokenIff(events, j, i);
  }

  const SHORT_TOKEN: string := "sk-ant-REDACTED"

  lemma ShortRun(x: string, y: string, p: Patterns) returns (states: seq<Output>, events: seq<Event>)
    requires TokenOf(x).Some?
    ensures Run(states, events, p) && events == [Chunk(x)] + [Chunk(y)]
    ensures states[|states| - 1].token == TokenOf(x)
  {
    var s := Absorb(FRESH, x, p);
    states, events := [FRESH, s, Absorb(s, y, p)], [Chunk(x)] + [Chunk(y)];
    assert [] + x == x;
  }

  /** Every text that ends in its first token, and a token character after it, make a run that
      captures the token short; `SHORT_TOKEN` is such a text. */
  lemma CaptureCanBeShort(x: string, y: string, p: Patterns) returns (states: seq<Output>, events: seq<Event>)
    requires TokenEndsText(x) && y != [] && TokenPattern.IsTokenChar(y[0])
    ensures Run(states, events, p) && Stream(events) == x + y
    ensures states[|states| - 1].token == TokenOf(x) && TokenOf(x).Some? && TokenOf(x) != TokenOf(x + y)
    ensures TokenEndsText(SHORT_TOKEN)
  {
    assert TokenOf(x).Some? && TokenOf(x) != TokenOf(x + y) by {
      TokenPattern.FindIsLeftmost(x);
      TokenOfGrows(x, y);
    }
    states, events := ShortRun(x, y, p);
    TwoChunks(x, y);
    ShortTokenEndsText();
  }

  lemma TwoChunks(x: string, y: string)
    ensures Stream([Chunk(x)] + [Chunk(y)]) == x + y
  {
    assert ([Chunk(x)] + [Chunk(y)])[..1] == [Chunk(x)] && [Chunk(x)][..0] == [];
    assert Stream([Chunk(x)]) == [] + x == x;
  }

  lemma ShortTokenEndsText()
    ensures TokenEndsText(SHORT_TOKEN)
  {
    assert TokenPattern.TokenAt(SHORT_TOKEN, 0);
    assert TokenPattern.First(SHORT_TOKEN, 0);
    TokenPattern.FindIsLeftmost(SHORT_TOKEN);
    TokenPattern.MatchSpan(SHORT_TOKEN, 0);
  }

  /** The first URL and the first token are kept; nothing that has happened is undone. */
  lemma {:induction false} CapturesStay(states: seq<Output>, events: seq<Event>, p: Patterns, i: nat, j: nat)
    requires Path(states, events, p) && i <= j < |states|
    ensures states[i].authorizeUrl.Some? ==> states[j].authorizeUrl == states[i].authorizeUrl
    ensures states[i].token.Some? ==> states[j].token == states[i].token
    ensures states[i].failure.Some? ==> states[j].failure.Some?
    ensures states[i].readerClosed ==> states[j].readerClosed
    ensures states[i].exitCode.Some? ==>
              states[j].exitCode == states[i].exitCode && states[j].authenticated == states[i].authenticated
  {
    if i < j {
      CapturesStay(states, events, p, i, j - 1);
      assert MayHappen(states[j - 1], events[j - 1]) && states[j - 1 + 1] == Apply(states[j - 1], events[j - 1], p);
    }
  }

  /** Once the stream has ended and the exit is recorded, nothing changes any more, the poll's
      answer included. */
  lemma {:induction false} TerminalIsFinal(states: seq<Output>, events: seq<Event>, p: Patterns, i: nat, j: nat)
    requires Path(states, events, p) && i <= j < |states| && states[i].Terminal()
    ensures states[j] == states[i] && PollResponse(states[j]) == PollResponse(states[i])
  {
    if i < j {
      TerminalIsFinal(states, events, p, i, j - 1);
      StopsWhenTerminal(states[j - 1], events[j - 1]);
    }
  }

  lemma StopsWhenTerminal(o: Output, e: Event)
    ensures o.Terminal() ==> !MayHappen(o, e)
  {
  }

  /** A login is ready exactly when its stream has ended and its exit was recorded with the
      sign-in verified, in either order. */
  lemma {:induction false} ReadyIffVerified(states: seq<Output>, events: seq<Event>, p: Patterns, i: nat)
    requires Run(states, events, p) && i < |states|
    ensures PollResponse(states[i]).Ready? <==>
              ReaderEnds in events[..i] && exists code :: Exit(code, true) in events[..i]
    ensures states[i].readerClosed <==> ReaderEnds in events[..i]
    ensures states[i].authenticated <==> exists code :: Exit(code, true) in events[..i]
    ensures states[i].authenticated ==> states[i].exitCode.Some?
  {
    if i > 0 {
      ReadyIffVerified(states, events, p, i - 1);
      var before, e := events[..i - 1], events[i - 1];
      assert MayHappen(states[i - 1], e) && states[i - 1 + 1] == Apply(states[i - 1], e, p);
      assert events[..i] == before + [e];
      assert forall x :: x in events[..i] <==> x in before || x == e;
    }
  }

  // ---------- What is found and what is said ----------

  /** The URL in the text as event j leaves it, before redaction. */
  function ShowsUrl(states: seq<Output>, events: seq<Event>, p: Patterns, j: nat): Option<string>
    requires j < |states| && j < |events|
  {
    if events[j].Chunk? then p.url(states[j].buffer + events[j].text) else None
  }

  predicate ShowsError(states: seq<Output>, events: seq<Event>, p: Patterns, j: nat)
    requires j < |states| && j < |events|
  {
    events[j].Chunk? && p.oauthError(states[j].buffer + events[j].text)
  }

  /** The URL is the first that stood in the text. */
  lemma {:induction false} UrlIsFirst(states: seq<Output>, events: seq<Event>, p: Patterns, i: nat)
    requires Run(states, events, p) && i < |states|
    ensures states[i].authorizeUrl.None? ==> forall j :: 0 <= j < i ==> ShowsUrl(states, events, p, j).None?
    ensures states[i].authorizeUrl.Some? ==>
              exists j :: 0 <= j < i && ShowsUrl(states, events, p, j) == states[i].authorizeUrl
                          && forall k :: 0 <= k < j ==> ShowsUrl(states, events, p, k).None?
  {
    if i > 0 {
      UrlIsFirst(states, events, p, i - 1);
      assert states[i - 1 + 1] == Apply(states[i - 1], events[i - 1], p);
      var url := ShowsUrl(states, events, p, i - 1);
      assert states[i].authorizeUrl == FirstSome(states[i - 1].authorizeUrl, url);
    }
  }

  ghost predicate Unverified(events: seq<Event>) { exists code :: Exit(code, false) in events }

  ghost predicate Rejected(states: seq<Output>, events: seq<Event>, p: Patterns, i: nat)
    requires i <= |states| && i <= |events|
  {
    exists j :: 0 <= j < i && ShowsError(states, events, p, j)
  }

  lemma RejectedStep(states: seq<Output>, events: seq<Event>, p: Patterns, i: nat)
    requires 0 < i <= |states| && i <= |events|
    ensures Rejected(states, events, p, i)
            <==> Rejected(states, events, p, i - 1) || ShowsError(states, events, p, i - 1)
  {
  }

  lemma UnverifiedStep(events: seq<Event>, e: Event)
    ensures Unverified(events + [e]) <==> Unverified(events) || (e.Exit? && !e.verified)
  {
    assert forall x :: x in events + [e] <==> x in events || x == e;
    if e.Exit? && !e.verified {
      assert Exit(e.code, false) in events + [e];
    }
  }

  /** A failure is an exit without a verified sign-in, or else a rejection that stood in the text. */
  lemma {:induction false} FailureIs(states: seq<Output>, events: seq<Event>, p: Patterns, i: nat)
    requires Run(states, events, p) && i < |states|
    ensures states[i].failure == if Unverified(events[..i]) then Some(NOT_VERIFIED)
                                 else if Rejected(states, events, p, i) then Some(REJECTED)
                                 else None
    ensures Unverified(events[..i]) ==> states[i].exitCode.Some? && !states[i].authenticated
    ensures states[i].exitCode.Some? && !states[i].authenticated ==> Unverified(events[..i])
  {
    if i > 0 {
      FailureIs(states, events, p, i - 1);
      var e := events[i - 1];
      assert MayHappen(states[i - 1], e) && states[i - 1 + 1] == Apply(states[i - 1], e, p);
      assert events[..i] == events[..i - 1] + [e];
      UnverifiedStep(events[..i - 1], e);
      RejectedStep(states, events, p, i);
    }
  }

  /** What a poll is told at any time: ready, with the token captured, once the stream has ended and the
      exit was verified; otherwise of an unverified exit, or of a rejection; or to wait. Every failure
      has a reason of its own. */
  lemma PollSays(states: seq<Output>, events: seq<Event>, p: Patterns, i: nat)
    requires Run(states, events, p) && i < |states|
    ensures var verified := exists code :: Exit(code, true) in events[..i];
            PollResponse(states[i])
            == if ReaderEnds in events[..i] && verified then Ready(Captured(events[..i]))
               else if Unverified(events[..i]) then Failed(NOT_VERIFIED)
               else if Rejected(states, events, p, i) then Failed(REJECTED)
               else Pending
  {
    ReadyIffVerified(states, events, p, i);
    FailureIs(states, events, p, i);
    TokenIsCaptured(states, events, p, i);
  }

  /** A rejection polled early is not a verdict: it stands in every continuation exactly when
      the exit was recorded without a verified sign-in. */
  lemma FailureIsFinalIff(o: Output, p: Patterns)
    requires Inv(o) && PollResponse(o).Failed?
    ensures (forall states, events :: Path(states, events, p) && states[0] == o ==>
               PollResponse(states[|states| - 1]).Failed?)
            <==> o.exitCode.Some? && !o.authenticated
  {
    if o.exitCode.Some? && !o.authenticated {
      forall states, events | Path(states, events, p) && states[0] == o
        ensures PollResponse(states[|states| - 1]).Failed?
      {
        CapturesStay(states, events, p, 0, |states| - 1);
      }
    } else {
      var x := if o.exitCode.None? then RecordExit(o, 0, true) else o;
      var events := (if o.exitCode.None? then [Exit(0, true)] else []) + (if o.readerClosed then [] else [ReaderEnds]);
      var y := x.(readerClosed := true);
      var states := (if o.exitCode.None? then [o] else []) + (if o.readerClosed then [] else [x]) + [y];
      assert Path(states, events, p);
      assert states[0] == o && states[|states| - 1] == y && PollResponse(y).Ready?;
    }
  }
}
