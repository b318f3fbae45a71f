/**
 The shared-chat reply workflow: prepare, poll until the execution exits, publish partial
 text now and then, finish or fail, clean up. Every step may throw; the world says which
 do, and after how many polls the deadline passes.
 */
module ReplyWorkflow {
  import opened Wrappers
  import opened Bytes
  import opened JsonText
  import ExecOutput
  import ExecStream

  const MAX_REPLY_BYTES: nat := 4_000_000
  const PARTIAL_PUBLISH_MIN_GROWTH: nat := 120

  datatype Attempt<+T> = Threw | Returned(value: T)

  datatype Done = Done

  datatype Pending = Pending(sessionId: string, credentialId: string)

  /** A chunk is None when its base64 does not decode, which makes `atob` throw. */
  datatype PollReply = PollReply(
    chunks: seq<Option<seq<Byte>>>, nextSequence: nat, exited: bool, exitCode: Option<int>)

  /** One turn of the loop. */
  datatype Tick = Tick(poll: Attempt<PollReply>, publish: Attempt<Done>)

  datatype World = World(
    prepare: Attempt<Option<Pending>>,
    /** The turns the deadline leaves time for. */
    ticks: seq<Tick>,
    /** The text the room would be shown for the bytes so far. */
    partialText: seq<Byte> -> Text,
    finish: Attempt<Done>, fail: Attempt<Done>, cleanup: Attempt<Done>)

  datatype Event =
    | Prepared
    | Polled(after: nat)
    | Published(text: Text)
    | Finished(bytes: seq<Byte>, exitCode: int)
    | Failed
    | CleanedUp

  // ---------- What a run of the loop comes to ----------

  predicate Decodes(t: Tick) {
    t.poll.Returned? && forall i :: 0 <= i < |t.poll.value.chunks| ==> t.poll.value.chunks[i].Some?
  }

  function Values(t: Tick): (vs: seq<seq<Byte>>)
    requires Decodes(t)
  {
    var cs := t.poll.value.chunks;
    seq(|cs|, i requires 0 <= i < |cs| => cs[i].value)
  }

  /** Every chunk the ticks brought, in order. */
  function Payload(ticks: seq<Tick>): seq<seq<Byte>>
    requires forall i :: 0 <= i < |ticks| ==> Decodes(ticks[i])
  {
    if ticks == [] then [] else Payload(ticks[..|ticks| - 1]) + Values(ticks[|ticks| - 1])
  }

  function Received(w: World, n: nat): seq<Byte>
    requires n <= |w.ticks| && forall i :: 0 <= i < n ==> Decodes(w.ticks[i])
  {
    Concat(Payload(w.ticks[..n]))
  }

  /** The texts the room has been shown after n ticks. */
  function Shows(w: World, n: nat): seq<Text>
    requires n <= |w.ticks| && forall i :: 0 <= i < n ==> Decodes(w.ticks[i])
    decreases n, 0
  {
    if n == 0 then []
    else if Due(w, n - 1) then Shows(w, n - 1) + [w.partialText(Received(w, n))]
    else Shows(w, n - 1)
  }

  /** Tick n publishes: it brought something, the turn goes on, and the text has grown enough. */
  predicate Due(w: World, n: nat)
    requires n < |w.ticks| && forall i :: 0 <= i <= n ==> Decodes(w.ticks[i])
    decreases n, 1
  {
    && Decodes(w.ticks[n])
    && !w.ticks[n].poll.value.exited && w.ticks[n].poll.value.chunks != []
    && |w.partialText(Received(w, n + 1))| >= Latest(Shows(w, n)) + PARTIAL_PUBLISH_MIN_GROWTH
  }

  /** The length of the text last shown. */
  function Latest(texts: seq<Text>): nat {
    if texts == [] then 0 else |texts[|texts| - 1]|
  }

  /** Tick i goes by without an exception and without the exit. */
  predicate PassesTick(w: World, i: nat) {
    && i < |w.ticks|
    && (forall k :: 0 <= k <= i ==> Decodes(w.ticks[k]))
    && !w.ticks[i].poll.value.exited
    && |Received(w, i + 1)| <= MAX_REPLY_BYTES
    && (Due(w, i) ==> w.ticks[i].publish.Returned?)
  }

  predicate Passes(w: World, n: nat)
    ensures Passes(w, n) ==> n <= |w.ticks| && forall i :: 0 <= i < n ==> Decodes(w.ticks[i])
  {
    && n <= |w.ticks|
    && (n == 0 || PassesTick(w, n - 1))
    && forall i :: 0 <= i < n ==> PassesTick(w, i)
  }

  /** The turn exits at tick n with its output within the limit. */
  predicate ExitsAt(w: World, n: nat) {
    && n < |w.ticks| && Passes(w, n)
    && Decodes(w.ticks[n]) && w.ticks[n].poll.value.exited
    && |Received(w, n + 1)| <= MAX_REPLY_BYTES
  }

  /** If the loop stops at tick n, no other tick can end the turn. */
  lemma StopsAt(w: World, n: nat)
    requires Passes(w, n) && !PassesTick(w, n)
    ensures forall m: nat :: ExitsAt(w, m) ==> m == n
  {
    forall m: nat | ExitsAt(w, m) ensures m == n {
      assert m < n ==> PassesTick(w, m);
      assert n < m ==> PassesTick(w, n);
    }
  }

  /** What a trace adds up to: the cursors polled, the texts shown, and how often the turn
      finished, failed and cleaned up. */
  datatype Tally = Tally(polls: seq<nat>, shown: seq<Text>, finishes: nat, fails: nat, cleanups: nat)

  function Record(t: Tally, e: Event): Tally {
    match e
    case Prepared => t
    case Polled(after) => t.(polls := t.polls + [after])
    case Published(text) => t.(shown := t.shown + [text])
    case Finished(_, _) => t.(finishes := t.finishes + 1)
    case Failed => t.(fails := t.fails + 1)
    case CleanedUp => t.(cleanups := t.cleanups + 1)
  }

  function Summary(trace: seq<Event>): Tally {
    if trace == [] then Tally([], [], 0, 0, 0)
    else Record(Summary(trace[..|trace| - 1]), trace[|trace| - 1])
  }

  /** `after` is the cursor of poll i: zero, then the previous response's `nextSequence`. */
  predicate IsCursor(w: World, i: nat, after: nat) {
    if i == 0 then after == 0
    else i <= |w.ticks| && w.ticks[i - 1].poll.Returned? && after == w.ticks[i - 1].poll.value.nextSequence
  }

  /** Each poll resumes where the previous response said to. */
  ghost predicate Resumes(w: World, afters: seq<nat>) {
    |afters| <= |w.ticks| && forall i :: 0 <= i < |afters| ==> IsCursor(w, i, afters[i])
  }

  /** What is shown is longer every time by at least the minimum growth, beginning with nothing. */
  predicate Throttled(texts: seq<Text>) {
    texts == []
    || (var before := texts[..|texts| - 1];
        Throttled(before) && Latest(texts) >= Latest(before) + PARTIAL_PUBLISH_MIN_GROWTH)
  }

  /** Publishing is bounded by the text: n publishes need n times the minimum growth. */
  lemma {:induction false} PublishesAreBounded(texts: seq<Text>)
    requires Throttled(texts)
    ensures |texts| * PARTIAL_PUBLISH_MIN_GROWTH <= Latest(texts)
  {
    if texts != [] {
      PublishesAreBounded(texts[..|texts| - 1]);
    }
  }

  lemma {:induction false} ShowsThrottled(w: World, n: nat)
    requires n <= |w.ticks| && forall i :: 0 <= i < n ==> Decodes(w.ticks[i])
    ensures Throttled(Shows(w, n))
  {
    if n > 0 {
      ShowsThrottled(w, n - 1);
      if Due(w, n - 1) {
        var before, text := Shows(w, n - 1), w.partialText(Received(w, n));
        assert (before + [text])[..|before|] == before;
      }
    }
  }

  /** What is shown are the texts of some of the polls, in order, each of everything received by then;
      and after a poll that brought something and did not exit, what the room has been shown is behind
      by less than the minimum growth. */
  lemma {:induction false} ShownKeepsUp(w: World, n: nat)
    requires n <= |w.ticks| && forall i :: 0 <= i < n ==> Decodes(w.ticks[i])
    ensures forall t :: t in Shows(w, n) ==> exists k :: 0 < k <= n && t == w.partialText(Received(w, k))
    ensures n > 0 && Decodes(w.ticks[n - 1])
            && !w.ticks[n - 1].poll.value.exited && w.ticks[n - 1].poll.value.chunks != [] ==>
              |w.partialText(Received(w, n))| < Latest(Shows(w, n)) + PARTIAL_PUBLISH_MIN_GROWTH
  {
    if n > 0 {
      ShownKeepsUp(w, n - 1);
    }
  }

  /** These are the texts of the first n ticks. */
  ghost predicate ShownAre(w: World, texts: seq<Text>, n: nat) {
    n <= |w.ticks| && (forall i :: 0 <= i < n ==> Decodes(w.ticks[i])) && texts == Shows(w, n)
  }

  // ---------- The loop ----------

  /** Decode one poll's chunks onto the parts; stops where `atob` throws. */
  method Decode(chunks: seq<Option<seq<Byte>>>, parts: seq<seq<Byte>>, size: nat)
    returns (parts': seq<seq<Byte>>, size': nat, threw: bool)
    requires size == |Concat(parts)|
    ensures threw <==> exists i :: 0 <= i < |chunks| && chunks[i].None?
    ensures !threw ==> parts' == parts + seq(|chunks|, i requires 0 <= i < |chunks| => chunks[i].value)
                       && size' == |Concat(parts')|
  {
    parts', size', threw := parts, size, false;
    for n := 0 to |chunks|
      invariant forall i :: 0 <= i < n ==> chunks[i].Some?
      invariant parts' == parts + seq(n, i requires 0 <= i < n => chunks[i].value)
      invariant size' == |Concat(parts')|
    {
      if chunks[n].None? {
        return parts', size', true;
      }
      ghost var before := parts';
      size' := size' + |chunks[n].value|;
      parts' := parts' + [chunks[n].value];
      assert parts'[..|parts'| - 1] == before;
      assert seq(n + 1, i requires 0 <= i < n + 1 => chunks[i].value)
          == seq(n, i requires 0 <= i < n => chunks[i].value) + [chunks[n].value];
    }
  }

  lemma PayloadStep(w: World, n: nat)
    requires n < |w.ticks| && forall i :: 0 <= i <= n ==> Decodes(w.ticks[i])
    ensures Payload(w.ticks[..n + 1]) == Payload(w.ticks[..n]) + Values(w.ticks[n])
  {
    assert w.ticks[..n + 1][..n] == w.ticks[..n];
  }

  lemma Snoc(trace: seq<Event>, e: Event)
    ensures Summary(trace + [e]) == Record(Summary(trace), e)
  {
    assert (trace + [e])[..|trace + [e]| - 1] == trace;
  }

  /** What holds of the trace while the loop runs: `shown` ticks have had their say. */
  ghost predicate LoopTrace(w: World, trace: seq<Event>, polls: nat, shown: nat) {
    && |Summary(trace).polls| == polls && Resumes(w, Summary(trace).polls)
    && ShownAre(w, Summary(trace).shown, shown)
    && Summary(trace).finishes == 0 && Summary(trace).fails == 0 && Summary(trace).cleanups == 0
  }

  lemma PolledStep(w: World, trace: seq<Event>, n: nat, after: nat)
    requires LoopTrace(w, trace, n, n) && n < |w.ticks|
    requires IsCursor(w, n, after)
    ensures LoopTrace(w, trace + [Polled(after)], n + 1, n)
  {
    Snoc(trace, Polled(after));
  }

  lemma PublishedStep(w: World, trace: seq<Event>, n: nat)
    requires LoopTrace(w, trace, n + 1, n) && n < |w.ticks| && Decodes(w.ticks[n])
    ensures Due(w, n) ==> LoopTrace(w, trace + [Published(w.partialText(Received(w, n + 1)))], n + 1, n + 1)
    ensures !Due(w, n) ==> LoopTrace(w, trace, n + 1, n + 1)
  {
    Snoc(trace, Published(w.partialText(Received(w, n + 1))));
  }

  lemma ReceivedStep(w: World, n: nat)
    requires Passes(w, n) && n < |w.ticks| && Decodes(w.ticks[n])
    ensures Payload(w.ticks[..n + 1]) == Payload(w.ticks[..n]) + Values(w.ticks[n])
    ensures !w.ticks[n].poll.value.exited && |Received(w, n + 1)| <= MAX_REPLY_BYTES
            && (Due(w, n) ==> w.ticks[n].publish.Returned?) ==>
              Passes(w, n + 1)
  {
    PayloadStep(w, n);
  }

  /** The room has been shown what the polls called for, the last one's text perhaps not. */
  ghost predicate ShownUpTo(w: World, t: Tally) {
    exists n: nat :: |t.polls| - 1 <= n <= |t.polls| && ShownAre(w, t.shown, n)
  }

  /** The trace of a loop that stopped: `exit` names the tick that ended the turn, if any. */
  ghost predicate Conversed(w: World, trace: seq<Event>, exit: Option<nat>) {
    && Resumes(w, Summary(trace).polls) && ShownUpTo(w, Summary(trace))
    && Summary(trace).fails == 0 && Summary(trace).cleanups == 0
    && Summary(trace).finishes == (if exit.Some? then 1 else 0)
    && (forall m: nat :: ExitsAt(w, m) <==> exit == Some(m))
    && (exit.Some? ==>
          && |Summary(trace).polls| == exit.value + 1 && trace != []
          && trace[|trace| - 1]
             == Finished(Received(w, exit.value + 1), w.ticks[exit.value].poll.value.exitCode.GetOr(1)))
  }

  lemma StopsWithoutExit(w: World, trace: seq<Event>, polls: nat, shown: nat, n: nat)
    requires LoopTrace(w, trace, polls, shown) && polls - 1 <= shown <= polls
    requires Passes(w, n) && !PassesTick(w, n) && !ExitsAt(w, n)
    ensures Conversed(w, trace, None)
  {
    StopsAt(w, n);
  }

  lemma StopsAtExit(w: World, trace: seq<Event>, shown: nat, n: nat)
    requires ExitsAt(w, n) && LoopTrace(w, trace, n + 1, shown) && n <= shown <= n + 1
    ensures Conversed(
              w, trace + [Finished(Received(w, n + 1), w.ticks[n].poll.value.exitCode.GetOr(1))], Some(n))
  {
    StopsAt(w, n);
    Snoc(trace, Finished(Received(w, n + 1), w.ticks[n].poll.value.exitCode.GetOr(1)));
  }

  /** Show the room the text so far, if it has grown enough since the last time. */
  method PublishPartial(w: World, n: nat, parts: seq<seq<Byte>>, trace: seq<Event>, publishedLength: nat)
    returns (trace': seq<Event>, publishedLength': nat)
    requires n < |w.ticks| && Passes(w, n) && Decodes(w.ticks[n])
    requires !w.ticks[n].poll.value.exited && w.ticks[n].poll.value.chunks != []
    requires LoopTrace(w, trace, n + 1, n) && publishedLength == Latest(Shows(w, n))
    requires parts == Payload(w.ticks[..n + 1])
    ensures LoopTrace(w, trace', n + 1, n + 1) && publishedLength' == Latest(Shows(w, n + 1))
    ensures trace' != trace <==> Due(w, n)
  {
    trace', publishedLength' := trace, publishedLength;
    PublishedStep(w, trace, n);
    var partial := w.partialText(Concat(parts));
    if |partial| - publishedLength >= PARTIAL_PUBLISH_MIN_GROWTH {
      publishedLength' := |partial|;
      trace' := trace + [Published(partial)];
    }
  }

  /** Take in poll n's chunks. */
  method TakePoll(w: World, n: nat, parts: seq<seq<Byte>>, size: nat)
    returns (parts': seq<seq<Byte>>, size': nat, threw: bool)
    requires n < |w.ticks| && Passes(w, n) && w.ticks[n].poll.Returned?
    requires parts == Payload(w.ticks[..n]) && size == |Concat(parts)|
    ensures threw <==> !Decodes(w.ticks[n])
    ensures !threw ==> parts' == Payload(w.ticks[..n + 1]) && size' == |Concat(parts')| == |Received(w, n + 1)|
  {
    parts', size', threw := Decode(w.ticks[n].poll.value.chunks, parts, size);
    if !threw {
      ReceivedStep(w, n);
    }
  }

  /** Where the loop is before tick n. */
  ghost predicate Going(
    w: World, n: nat, trace: seq<Event>, after: nat, parts: seq<seq<Byte>>, size: nat, publishedLength: nat)
  {
    && Passes(w, n) && LoopTrace(w, trace, n, n) && IsCursor(w, n, after)
    && parts == Payload(w.ticks[..n]) && size == |Concat(parts)|
    && publishedLength == Latest(Shows(w, n))
  }

  datatype Outcome = GoesOn | Stops | Exits

  /** One turn of the loop. */
  method Turn(
    w: World, n: nat, trace: seq<Event>, after: nat, parts: seq<seq<Byte>>, size: nat, publishedLength: nat)
    returns (
      trace': seq<Event>, after': nat, parts': seq<seq<Byte>>, size': nat, publishedLength': nat, outcome: Outcome)
    requires Going(w, n, trace, after, parts, size, publishedLength) && n < |w.ticks|
    ensures outcome.GoesOn? ==> Going(w, n + 1, trace', after', parts', size', publishedLength')
    ensures outcome.Stops? ==> Conversed(w, trace', None)
    ensures outcome.Exits? ==> Conversed(w, trace', Some(n))
  {
    after', parts', size', publishedLength' := after, parts, size, publishedLength;
    PolledStep(w, trace, n, after);
    trace' := trace + [Polled(after)];
    var tick := w.ticks[n];
    if tick.poll.Threw? {
      StopsWithoutExit(w, trace', n + 1, n, n);
      outcome := Stops;
      return;
    }
    var poll := tick.poll.value;
    after' := poll.nextSequence;
    var bad;
    parts', size', bad := TakePoll(w, n, parts, size);
    if bad || size' > MAX_REPLY_BYTES {
      StopsWithoutExit(w, trace', n + 1, n, n);
      outcome := Stops;
      return;
    }
    ReceivedStep(w, n);
    if !poll.exited && poll.chunks != [] {
      trace', publishedLength' := PublishPartial(w, n, parts', trace', publishedLength');
      if Due(w, n) && tick.publish.Threw? {
        StopsWithoutExit(w, trace', n + 1, n + 1, n);
        outcome := Stops;
        return;
      }
    } else {
      PublishedStep(w, trace', n);
    }
    if poll.exited {
      StopsAtExit(w, trace', n + 1, n);
      trace' := trace' + [Finished(Concat(parts'), poll.exitCode.GetOr(1))];
      outcome := Exits;
      return;
    }
    outcome := GoesOn;
  }

  /** The body of the try block once a session is pending. `finish` is called exactly when
      the turn exits in time, with exactly the bytes of every poll, and never with more than
      the limit. */
  method Converse(w: World) returns (trace: seq<Event>, exit: Option<nat>)
    ensures Conversed(w, trace, exit)
  {
    trace := [];
    var after: nat, size: nat, publishedLength: nat := 0, 0, 0;
    var parts: seq<seq<Byte>> := [];
    var n := 0;
    while n < |w.ticks|
      invariant n <= |w.ticks| && Going(w, n, trace, after, parts, size, publishedLength)
    {
      var outcome;
      trace, after, parts, size, publishedLength, outcome := Turn(w, n, trace, after, parts, size, publishedLength);
      if outcome.Stops? {
        return trace, None;
      }
      if outcome.Exits? {
        return trace, Some(n);
      }
      n := n + 1;
    }
    StopsWithoutExit(w, trace, n, n, n);
    return trace, None;
  }

  lemma {:induction false} JoinTraces(body: seq<Event>)
    ensures Summary([Prepared] + body) == Summary(body)
  {
    if body == [] {
      Snoc([], Prepared);
      assert [] + [Prepared] == [Prepared] + body;
    } else {
      var n := |body| - 1;
      JoinTraces(body[..n]);
      Snoc([Prepared] + body[..n], body[n]);
      assert [Prepared] + body == [Prepared] + body[..n] + [body[n]];
    }
  }

  lemma {:induction false} NoFinish(trace: seq<Event>, i: nat)
    requires i < |trace| && Summary(trace).finishes == 0
    ensures !trace[i].Finished?
  {
    if i < |trace| - 1 {
      NoFinish(trace[..|trace| - 1], i);
    }
  }

  /** Every finish is handed exactly the bytes polled, within the limit. */
  ghost predicate FinishesWhole(w: World, trace: seq<Event>) {
    forall i :: 0 <= i < |trace| && trace[i].Finished? ==>
      |trace[i].bytes| <= MAX_REPLY_BYTES
      && exists n: nat :: ExitsAt(w, n) && trace[i].bytes == Received(w, n + 1)
  }

  lemma ConversedFinishesWhole(w: World, trace: seq<Event>, exit: Option<nat>)
    requires Conversed(w, trace, exit)
    ensures FinishesWhole(w, [Prepared] + trace)
  {
    forall i | 0 <= i < |trace| && trace[i].Finished?
      ensures exit.Some? && i == |trace| - 1
    {
      if exit.None? {
        NoFinish(trace, i);
      } else if i < |trace| - 1 {
        NoFinish(trace[..|trace| - 1], i);
      }
    }
    if exit.Some? {
      assert ExitsAt(w, exit.value);
    }
  }

  lemma ConversedThrottled(w: World, trace: seq<Event>, exit: Option<nat>)
    requires Conversed(w, trace, exit)
    ensures Throttled(Summary(trace).shown)
  {
    var t := Summary(trace);
    var n: nat :| |t.polls| - 1 <= n <= |t.polls| && ShownAre(w, t.shown, n);
    ShowsThrottled(w, n);
  }

  lemma ExitIff(w: World, trace: seq<Event>, exit: Option<nat>)
    requires Conversed(w, trace, exit)
    ensures exit.Some? <==> exists n: nat :: ExitsAt(w, n)
  {
    if exit.Some? {
      assert ExitsAt(w, exit.value);
    }
  }

  /** What a trace shows that does not depend on how the turn ended. */
  ghost predicate Orderly(w: World, trace: seq<Event>) {
    && FinishesWhole(w, trace) && Resumes(w, Summary(trace).polls)
    && ShownUpTo(w, Summary(trace)) && Throttled(Summary(trace).shown)
  }

  lemma OrderlySnoc(w: World, trace: seq<Event>, e: Event)
    requires Orderly(w, trace) && (e.Failed? || e.CleanedUp?)
    ensures Orderly(w, trace + [e])
  {
    Snoc(trace, e);
    forall i | 0 <= i < |trace + [e]| && (trace + [e])[i].Finished?
      ensures i < |trace| && (trace + [e])[i] == trace[i]
    {
    }
  }

  lemma OrderlyStart(w: World)
    ensures Orderly(w, [Prepared]) && Summary([Prepared]) == Tally([], [], 0, 0, 0)
  {
    Snoc([], Prepared);
    assert [] + [Prepared] == [Prepared];
    assert ShownAre(w, [], 0);
  }

  lemma OrderlyBody(w: World, body: seq<Event>, exit: Option<nat>)
    requires Conversed(w, body, exit)
    ensures Orderly(w, [Prepared] + body) && Summary([Prepared] + body) == Summary(body)
    ensures exit.Some? <==> exists n: nat :: ExitsAt(w, n)
  {
    JoinTraces(body);
    ConversedFinishesWhole(w, body, exit);
    ConversedThrottled(w, body, exit);
    ExitIff(w, body, exit);
  }

  /** The whole workflow. Cleanup runs exactly once, last, if and only if `prepare` returned
      a session, whatever throws; a failure is recorded exactly when the turn did not finish. */
  method Workflow(w: World) returns (trace: seq<Event>, escaped: bool)
    ensures var pending := w.prepare.Returned? && w.prepare.value.Some?;
            var exits := exists n: nat :: ExitsAt(w, n);
            && Summary(trace).cleanups == (if pending then 1 else 0)
            && (pending ==> trace != [] && trace[|trace| - 1] == CleanedUp)
            && Summary(trace).fails ==
               (if w.prepare.Threw? || (pending && !(exits && w.finish.Returned?)) then 1 else 0)
            && Summary(trace).finishes == (if pending && exits then 1 else 0)
            && (escaped <==> (Summary(trace).fails == 1 && w.fail.Threw?) || (pending && w.cleanup.Threw?))
    ensures Orderly(w, trace)
  {
    OrderlyStart(w);
    trace, escaped := [Prepared], false;
    if w.prepare.Returned? && w.prepare.value.None? {
      return;
    }
    var threw := w.prepare.Threw?;
    if !threw {
      var body, exit := Converse(w);
      OrderlyBody(w, body, exit);
      trace := trace + body;
      threw := exit.None? || w.finish.Threw?;
    }
    if threw {
      Snoc(trace, Failed);
      OrderlySnoc(w, trace, Failed);
      trace := trace + [Failed];
      escaped := w.fail.Threw?;
    }
    if w.prepare.Returned? {
      Snoc(trace, CleanedUp);
      OrderlySnoc(w, trace, CleanedUp);
      trace := trace + [CleanedUp];
      escaped := escaped || w.cleanup.Threw?;
    }
  }

  // ---------- The workflow on a real execution ----------

  /** A poll response as the workflow sees it; base64 is a bijection and drops out. */
  function Seen(r: ExecOutput.Response): PollReply {
    PollReply(seq(|r.chunks|, i requires 0 <= i < |r.chunks| => Some(r.chunks[i].data)),
              r.nextSequence, r.exited, r.exitCode)
  }

  /** The workflow's first polls brought exactly these responses. */
  ghost predicate FedBy(w: World, rs: seq<ExecOutput.Response>) {
    |rs| <= |w.ticks| && forall i :: 0 <= i < |rs| ==> w.ticks[i].poll == Returned(Seen(rs[i]))
  }

  lemma {:induction false} FedPayload(w: World, rs: seq<ExecOutput.Response>)
    requires FedBy(w, rs)
    ensures forall i :: 0 <= i < |rs| ==> Decodes(w.ticks[i])
    ensures Payload(w.ticks[..|rs|]) == ExecStream.AllDatas(rs)
  {
    if rs != [] {
      var n := |rs| - 1;
      FedPayload(w, rs[..n]);
      PayloadStep(w, n);
      assert Values(w.ticks[n]) == ExecStream.Datas(rs[n].chunks);
    }
  }

  /** End to end: when the workflow hands its bytes to `finish`, they are all the bytes the
      execution ever wrote if and only if no response was cut at 128 chunks. */
  lemma ReplyIsWholeOutput(
    states: seq<ExecStream.State>, steps: seq<ExecStream.Step>, i: nat, w: World, n: nat)
    requires ExecStream.Run(states, steps, ExecStream.NextSequence) && i < |states|
    requires |states[i].client.accepted| == n + 1 && FedBy(w, states[i].client.accepted)
    requires ExitsAt(w, n)
    ensures states[i].reader.Finished?
    ensures Received(w, n + 1) == ExecStream.BytesRead(states[i])
       <==> !ExecStream.SomeCut(states[i].client.accepted)
  {
    var c := states[i].client;
    FedPayload(w, c.accepted);
    ExecStream.ReceivedIsAccepted(states, steps, ExecStream.NextSequence, i);
    assert w.ticks[n].poll == Returned(Seen(c.accepted[n]));
    assert ExecStream.SawExit(c);
    ExecStream.NextSequenceLosesExactlyCuts(states, steps, i);
  }
}
