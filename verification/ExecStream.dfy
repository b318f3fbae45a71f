/**
 One Codex execution as a step system: its reader and waiter threads, any number of polls in
 flight, and the end of its place in the session map. The client keeps a cursor and may issue,
 repeat and lose polls as it likes.
 */
module ExecStream {
  import opened Wrappers
  import opened Bytes
  import opened ExecOutput

  datatype Reader = Reading | Holding(data: seq<Byte>) | Finished

  datatype Waiter = Watching | Done

  /** How a client moves its cursor: past the last chunk it received, or to the response's
      `nextSequence` as the reply workflow does. */
  datatype Advance = LastReceived | NextSequence

  datatype Delivery = Delivery(after: nat, response: Response)

  datatype Client = Client(cursor: nat, received: seq<Byte>, accepted: seq<Response>)

  datatype State = State(
    out: Output,
    /** Everything appended to the buffer so far. */
    history: seq<seq<Byte>>,
    reader: Reader,
    waiter: Waiter,
    /** Whether the service still lists the session, so that a new poll can find it. */
    listed: bool,
    /** Cursors of the polls that have found the session and are yet to take its lock. */
    found: multiset<nat>,
    /** Cursors of the polls asleep on the condition variable. */
    waiting: multiset<nat>,
    /** Every response sent; the network may deliver any of them late, or twice, or never. */
    sent: set<Delivery>,
    client: Client)

  datatype Step =
    | ReadBytes(data: seq<Byte>)
    | AppendHeld
    | EndOfFile
    | ChildExits(code: int, authCache: Option<string>)
    | FindSession(after: nat)
    | Poll(after: nat, waitMilliseconds: nat)
    | WakePoll(after: nat)
    | Deliver(delivery: Delivery)
    /** The next start of a run drops the sessions that have ended. */
    | Reclaim
    | Close

  predicate Init(s: State) {
    s == State(FRESH, [], Reading, Watching, true, multiset{}, multiset{}, {}, Client(0, [], []))
  }

  function Datas(cs: seq<Chunk>): (ds: seq<seq<Byte>>)
    ensures |ds| == |cs| && forall i :: 0 <= i < |cs| ==> ds[i] == cs[i].data
  {
    seq(|cs|, i requires 0 <= i < |cs| => cs[i].data)
  }

  /** A response to a poll that is no longer current is dropped. */
  function Accept(c: Client, d: Delivery, advance: Advance): Client {
    if d.after != c.cursor then c
    else
      var r := d.response;
      Client(
        if advance.NextSequence? then r.nextSequence
        else if r.chunks == [] then c.cursor
        else r.chunks[|r.chunks| - 1].sequence + 1,
        c.received + Concat(Datas(r.chunks)),
        c.accepted + [r])
  }

  ghost predicate Next(s: State, s': State, step: Step, advance: Advance) {
    match step
    case ReadBytes(data) =>
      s.reader.Reading? && 0 < |data| <= READ_BYTES && s' == s.(reader := Holding(data))
    case AppendHeld =>
      && s.reader.Holding? && s.out.bufferedBytes < MAX_OUTPUT_BYTES
      && s' == s.(out := Append(s.out, s.reader.data), history := s.history + [s.reader.data], reader := Reading)
    case EndOfFile =>
      s.reader.Reading? && s' == s.(reader := Finished, out := s.out.(readerClosed := true))
    case ChildExits(code, authCache) =>
      && s.waiter.Watching?
      && s' == s.(waiter := Done, out := s.out.(exitCode := Some(code), authCache := authCache))
    case FindSession(after) =>
      s.listed && after <= s.client.cursor && s' == s.(found := s.found + multiset{after})
    case Poll(after, waitMilliseconds) =>
      && after in s.found
      && var out := Discard(s.out, after);
         var t := s.(out := out, found := s.found - multiset{after});
         s' == if MustWait(out, waitMilliseconds)
               then t.(waiting := s.waiting + multiset{after})
               else t.(sent := s.sent + {Delivery(after, Respond(out))})
    case WakePoll(after) =>
      && after in s.waiting
      && s' == s.(waiting := s.waiting - multiset{after}, sent := s.sent + {Delivery(after, Respond(s.out))})
    case Deliver(d) =>
      d in s.sent && s' == s.(client := Accept(s.client, d, advance))
    case Reclaim =>
      s.listed && s.out.Exited() && s' == s.(listed := false)
    case Close =>
      s.listed && s' == s.(listed := false)
  }

  /** A run: states and the steps between them. */
  ghost predicate Run(states: seq<State>, steps: seq<Step>, advance: Advance) {
    && |states| == |steps| + 1 && Init(states[0])
    && forall i {:trigger steps[i]} :: 0 <= i < |steps| ==> Next(states[i], states[i + 1], steps[i], advance)
  }

  // ---------- Invariant ----------

  /** The first sequence a response covers. */
  function First(r: Response): int {
    if r.chunks == [] then r.nextSequence else r.chunks[0].sequence
  }

  /** The response stopped at 128 chunks short of the `nextSequence` it reports. */
  predicate Cut(r: Response) {
    r.chunks != [] && r.chunks[|r.chunks| - 1].sequence + 1 < r.nextSequence
  }

  ghost predicate SomeCut(rs: seq<Response>) {
    exists i :: 0 <= i < |rs| && Cut(rs[i])
  }

  /** A response is a slice of the history: from its first sequence on, 128 chunks or all
      there were. */
  ghost predicate Slice(r: Response, history: seq<seq<Byte>>) {
    && 1 <= First(r) <= First(r) + |r.chunks| <= r.nextSequence <= |history| + 1
    && (|r.chunks| == RESPONSE_CHUNKS || First(r) + |r.chunks| == r.nextSequence)
    && |r.chunks| <= RESPONSE_CHUNKS
    && forall i :: 0 <= i < |r.chunks| ==> r.chunks[i] == Chunk(First(r) + i, history[First(r) + i - 1])
  }

  ghost predicate GoodDelivery(d: Delivery, s: State) {
    && Slice(d.response, s.history)
    && d.after <= s.client.cursor
    && d.after <= First(d.response) <= Max(1, s.client.cursor)
    && (d.response.exited ==> Final(d.response, s))
  }

  /** A response that reports the exit reports everything there will ever be. */
  ghost predicate Final(r: Response, s: State) {
    && s.reader.Finished? && s.waiter.Done?
    && r.nextSequence == |s.history| + 1
    && r.exitCode == s.out.exitCode && r.authCache == s.out.authCache
  }

  predicate SawExit(c: Client) {
    c.accepted != [] && c.accepted[|c.accepted| - 1].exited
  }

  ghost predicate EndOk(s: State, advance: Advance) {
    SawExit(s.client) ==>
      var last := s.client.accepted[|s.client.accepted| - 1];
      Final(last, s) && (advance.NextSequence? || !Cut(last) ==> Passed(s.client) == |s.history|)
  }

  function Max(a: int, b: int): int { if a < b then b else a }

  /** How many chunks lie before the cursor. */
  function Passed(c: Client): int { Max(1, c.cursor) - 1 }

  ghost predicate ClientOk(c: Client, history: seq<seq<Byte>>, advance: Advance) {
    && 0 <= Passed(c) <= |history|
    && var before := Concat(history[..Passed(c)]);
       if advance.NextSequence? && SomeCut(c.accepted) then |c.received| < |before| else c.received == before
  }

  ghost predicate Inv(s: State, advance: Advance) {
    && Buffers(s.out, s.history)
    && (s.reader.Holding? ==> 0 < |s.reader.data| <= READ_BYTES)
    && (s.reader.Finished? <==> s.out.readerClosed)
    && (s.waiter.Done? <==> s.out.exitCode.Some?)
    && s.out.Front() <= Max(1, s.client.cursor)
    && (forall a :: a in s.found ==> a <= s.client.cursor)
    && (forall a :: a in s.waiting ==> a <= s.client.cursor && a <= s.out.Front())
    && (forall d :: d in s.sent ==> GoodDelivery(d, s))
    && ClientOk(s.client, s.history, advance)
    && EndOk(s, advance)
  }

  lemma InitInv(s: State, advance: Advance)
    requires Init(s)
    ensures Inv(s, advance)
  {
  }

  lemma RespondSlice(o: Output, history: seq<seq<Byte>>)
    requires Buffers(o, history)
    ensures Slice(Respond(o), history) && First(Respond(o)) == o.Front()
  {
    var r := Respond(o);
    forall i | 0 <= i < |r.chunks| ensures r.chunks[i] == Chunk(o.Front() + i, history[o.Front() + i - 1]) {
      assert r.chunks[i] == o.chunks[i];
    }
  }

  lemma RespondGood(s: State, after: nat, advance: Advance)
    requires Inv(s, advance) && after <= s.client.cursor && after <= s.out.Front()
    ensures GoodDelivery(Delivery(after, Respond(s.out)), s)
  {
    RespondSlice(s.out, s.history);
  }

  /** A slice the client accepts starts exactly where the client stands. */
  lemma AcceptedSlice(r: Response, history: seq<seq<Byte>>)
    requires Slice(r, history)
    ensures Datas(r.chunks) == history[First(r) - 1..First(r) - 1 + |r.chunks|]
    ensures Cut(r) <==> First(r) + |r.chunks| < r.nextSequence
  {
    var k, n := First(r) - 1, |r.chunks|;
    forall i | 0 <= i < n ensures Datas(r.chunks)[i] == history[k..k + n][i] {
      assert r.chunks[i] == Chunk(First(r) + i, history[First(r) + i - 1]);
    }
  }

  lemma AdvancePastReceived(c: Client, r: Response, history: seq<seq<Byte>>)
    requires ClientOk(c, history, LastReceived) && Slice(r, history) && First(r) == Max(1, c.cursor)
    ensures var c' := Accept(c, Delivery(c.cursor, r), LastReceived);
            ClientOk(c', history, LastReceived) && c.cursor <= c'.cursor
  {
    var k, n := Passed(c), |r.chunks|;
    AcceptedSlice(r, history);
    var c' := Accept(c, Delivery(c.cursor, r), LastReceived);
    assert Passed(c') == k + n by {
      if n > 0 {
        assert r.chunks[n - 1] == Chunk(First(r) + (n - 1), history[First(r) + (n - 1) - 1]);
      }
    }
    assert c'.received == Concat(history[..k + n]) by {
      ConcatSplit(history, k, k + n);
    }
  }

  lemma AdvanceToNext(c: Client, r: Response, history: seq<seq<Byte>>)
    requires ClientOk(c, history, NextSequence) && Slice(r, history) && First(r) == Max(1, c.cursor)
    requires forall i :: 0 <= i < |history| ==> history[i] != []
    ensures var c' := Accept(c, Delivery(c.cursor, r), NextSequence);
            ClientOk(c', history, NextSequence) && c.cursor <= c'.cursor
  {
    var c' := Accept(c, Delivery(c.cursor, r), NextSequence);
    var k, l, m := Passed(c), Passed(c) + |r.chunks|, r.nextSequence - 1;
    AcceptedSlice(r, history);
    BytesPassed(history, k, l, m);
    SomeCutAppend(c.accepted, r);
    assert Passed(c') == m && c'.received == c.received + Concat(history[k..l]);
    assert Cut(r) <==> Concat(history[l..m]) != [];
    if !SomeCut(c'.accepted) {
      assert c'.received == Concat(history[..m]);
    }
  }

  lemma AcceptOk(s: State, d: Delivery, advance: Advance)
    requires Inv(s, advance) && d in s.sent && d.after == s.client.cursor
    ensures ClientOk(Accept(s.client, d, advance), s.history, advance)
    ensures s.client.cursor <= Accept(s.client, d, advance).cursor
    ensures EndOk(s.(client := Accept(s.client, d, advance)), advance)
  {
    assert GoodDelivery(d, s);
    AcceptedSlice(d.response, s.history);
    if advance.NextSequence? {
      AdvanceToNext(s.client, d.response, s.history);
    } else {
      AdvancePastReceived(s.client, d.response, s.history);
    }
  }

  lemma BytesPassed(history: seq<seq<Byte>>, k: nat, l: nat, m: nat)
    requires k <= l <= m <= |history|
    requires forall i :: 0 <= i < |history| ==> history[i] != []
    ensures var missed := Concat(history[l..m]);
            && Concat(history[..m]) == Concat(history[..k]) + Concat(history[k..l]) + missed
            && (missed == [] <==> l == m)
  {
    ConcatSplit(history, k, l);
    ConcatSplit(history, l, m);
    ConcatNonempty(history[l..m]);
  }

  lemma SomeCutAppend(rs: seq<Response>, r: Response)
    ensures SomeCut(rs + [r]) <==> SomeCut(rs) || Cut(r)
  {
    if SomeCut(rs) {
      var i :| 0 <= i < |rs| && Cut(rs[i]);
      assert (rs + [r])[i] == rs[i];
    }
    if Cut(r) {
      assert (rs + [r])[|rs|] == r;
    }
  }

  lemma GrowHistory(history: seq<seq<Byte>>, data: seq<Byte>, c: Client, advance: Advance)
    requires ClientOk(c, history, advance)
    ensures ClientOk(c, history + [data], advance)
  {
    assert (history + [data])[..Passed(c)] == history[..Passed(c)];
  }

  /** A delivery stays good while the history grows and the cursor advances. */
  lemma DeliveriesStay(s: State, s': State)
    requires forall d :: d in s.sent ==> GoodDelivery(d, s)
    requires s.history <= s'.history && s.client.cursor <= s'.client.cursor
    requires s.reader.Finished? ==> s'.reader.Finished? && s'.history == s.history
    requires s.waiter.Done? ==>
               s'.waiter.Done? && s'.out.exitCode == s.out.exitCode && s'.out.authCache == s.out.authCache
    ensures forall d :: d in s.sent ==> GoodDelivery(d, s')
  {
    forall d | d in s.sent ensures GoodDelivery(d, s') {
      assert GoodDelivery(d, s);
    }
  }

  lemma AcknowledgeInv(s: State, after: nat, advance: Advance)
    requires Inv(s, advance) && after <= s.client.cursor
    ensures var t := s.(out := Discard(s.out, after));
            Inv(t, advance) && after <= t.out.Front()
  {
    DiscardBuffers(s.out, s.history, after);
    DeliveriesStay(s, s.(out := Discard(s.out, after)));
  }

  lemma AnswerInv(s: State, after: nat, advance: Advance)
    requires Inv(s, advance) && after <= s.client.cursor && after <= s.out.Front()
    ensures Inv(s.(sent := s.sent + {Delivery(after, Respond(s.out))}), advance)
  {
    var t := s.(sent := s.sent + {Delivery(after, Respond(s.out))});
    RespondGood(s, after, advance);
    forall d | d in t.sent ensures GoodDelivery(d, t) {
      assert GoodDelivery(d, s);
    }
  }

  lemma AppendInv(s: State, s': State, advance: Advance)
    requires Inv(s, advance) && Next(s, s', AppendHeld, advance)
    ensures Inv(s', advance)
  {
    AppendBuffers(s.out, s.history, s.reader.data);
    GrowHistory(s.history, s.reader.data, s.client, advance);
    DeliveriesStay(s, s');
  }

  lemma LeaveFound(s: State, after: nat, advance: Advance)
    requires Inv(s, advance)
    ensures Inv(s.(found := s.found - multiset{after}), advance)
  {
    DeliveriesStay(s, s.(found := s.found - multiset{after}));
  }

  lemma FallAsleep(s: State, after: nat, advance: Advance)
    requires Inv(s, advance) && after <= s.client.cursor && after <= s.out.Front()
    ensures Inv(s.(waiting := s.waiting + multiset{after}), advance)
  {
    DeliveriesStay(s, s.(waiting := s.waiting + multiset{after}));
  }

  lemma PollInv(s: State, s': State, after: nat, waitMilliseconds: nat, advance: Advance)
    requires Inv(s, advance) && Next(s, s', Poll(after, waitMilliseconds), advance)
    ensures Inv(s', advance)
  {
    LeaveFound(s, after, advance);
    var t := s.(found := s.found - multiset{after});
    AcknowledgeInv(t, after, advance);
    var u := t.(out := Discard(t.out, after));
    if MustWait(u.out, waitMilliseconds) {
      FallAsleep(u, after, advance);
    } else {
      AnswerInv(u, after, advance);
    }
  }

  lemma WakeInv(s: State, s': State, after: nat, advance: Advance)
    requires Inv(s, advance) && Next(s, s', WakePoll(after), advance)
    ensures Inv(s', advance)
  {
    var t := s.(waiting := s.waiting - multiset{after});
    DeliveriesStay(s, t);
    AnswerInv(t, after, advance);
  }

  lemma DeliverInv(s: State, s': State, d: Delivery, advance: Advance)
    requires Inv(s, advance) && Next(s, s', Deliver(d), advance)
    ensures Inv(s', advance)
  {
    if d.after == s.client.cursor {
      AcceptOk(s, d, advance);
    }
    DeliveriesStay(s, s');
  }

  lemma ReaderWaiterInv(s: State, s': State, step: Step, advance: Advance)
    requires step.ReadBytes? || step.EndOfFile? || step.ChildExits?
    requires Inv(s, advance) && Next(s, s', step, advance)
    ensures Inv(s', advance)
  {
    DeliveriesStay(s, s');
  }

  lemma ListingInv(s: State, s': State, step: Step, advance: Advance)
    requires step.FindSession? || step.Reclaim? || step.Close?
    requires Inv(s, advance) && Next(s, s', step, advance)
    ensures Inv(s', advance)
  {
    DeliveriesStay(s, s');
  }

  lemma NextInv(s: State, s': State, step: Step, advance: Advance)
    requires Inv(s, advance) && Next(s, s', step, advance)
    ensures Inv(s', advance)
  {
    match step
    case AppendHeld => AppendInv(s, s', advance);
    case Poll(after, waitMilliseconds) => PollInv(s, s', after, waitMilliseconds, advance);
    case WakePoll(after) => WakeInv(s, s', after, advance);
    case Deliver(d) => DeliverInv(s, s', d, advance);
    case _ =>
      if step.ReadBytes? || step.EndOfFile? || step.ChildExits? {
        ReaderWaiterInv(s, s', step, advance);
      } else {
        ListingInv(s, s', step, advance);
      }
  }

  lemma {:induction false} RunInv(states: seq<State>, steps: seq<Step>, advance: Advance, i: nat)
    requires Run(states, steps, advance) && i < |states|
    ensures Inv(states[i], advance)
  {
    if i == 0 {
      InitInv(states[0], advance);
    } else {
      RunInv(states, steps, advance, i - 1);
      NextInv(states[i - 1], states[i], steps[i - 1], advance);
    }
  }

  // ---------- What the client gets ----------

  /** Everything read from the terminal so far, appended or still in the reader's hands. */
  function BytesRead(s: State): seq<Byte> {
    Concat(s.history) + (if s.reader.Holding? then s.reader.data else [])
  }

  /** Over every interleaving, a client that advances past the last chunk it received holds
      a prefix of the bytes read, in order and once each; once it sees the exit in a response
      that was not cut, it holds all of them and there will be no more. */
  lemma ReceivedIsPrefix(states: seq<State>, steps: seq<Step>, i: nat)
    requires Run(states, steps, LastReceived) && i < |states|
    ensures var s := states[i];
            && Passed(s.client) <= |s.history|
            && s.client.received == Concat(s.history[..Passed(s.client)])
            && s.client.received <= BytesRead(s)
            && (SawExit(s.client) && !Cut(s.client.accepted[|s.client.accepted| - 1]) ==>
                  s.reader.Finished? && s.client.received == BytesRead(s))
  {
    RunInv(states, steps, LastReceived, i);
    var s := states[i];
    ConcatSplit(s.history, Passed(s.client), |s.history|);
    assert s.history[..|s.history|] == s.history;
  }

  /** The chunks of the responses a client has accepted, in order. */
  function AllDatas(rs: seq<Response>): seq<seq<Byte>> {
    if rs == [] then [] else AllDatas(rs[..|rs| - 1]) + Datas(rs[|rs| - 1].chunks)
  }

  lemma ClientStays(s: State, s': State, step: Step, advance: Advance)
    requires Next(s, s', step, advance)
    ensures s'.client == if step.Deliver? then Accept(s.client, step.delivery, advance) else s.client
  {
  }

  lemma AcceptAppends(c: Client, d: Delivery, advance: Advance)
    requires c.received == Concat(AllDatas(c.accepted))
    ensures Accept(c, d, advance).received == Concat(AllDatas(Accept(c, d, advance).accepted))
  {
    var c' := Accept(c, d, advance);
    if d.after == c.cursor {
      assert c'.accepted[..|c'.accepted| - 1] == c.accepted;
      ConcatAppend(AllDatas(c.accepted), Datas(d.response.chunks));
    }
  }

  lemma {:induction false} ReceivedIsAccepted(states: seq<State>, steps: seq<Step>, advance: Advance, i: nat)
    requires Run(states, steps, advance) && i < |states|
    ensures states[i].client.received == Concat(AllDatas(states[i].client.accepted))
  {
    if i > 0 {
      ReceivedIsAccepted(states, steps, advance, i - 1);
      ClientStays(states[i - 1], states[i], steps[i - 1], advance);
      if steps[i - 1].Deliver? {
        AcceptAppends(states[i - 1].client, steps[i - 1].delivery, advance);
      }
    }
  }

  /** A client that resumes at `nextSequence` receives the same prefix exactly as long as no
      response it accepted was cut at 128 chunks; one cut response loses bytes for good. */
  lemma NextSequenceLosesExactlyCuts(states: seq<State>, steps: seq<Step>, i: nat)
    requires Run(states, steps, NextSequence) && i < |states|
    ensures var s := states[i];
            && Passed(s.client) <= |s.history|
            && (s.client.received == Concat(s.history[..Passed(s.client)]) <==> !SomeCut(s.client.accepted))
            && (SawExit(s.client) ==>
                  && s.reader.Finished?
                  && (s.client.received == BytesRead(s) <==> !SomeCut(s.client.accepted)))
  {
    RunInv(states, steps, NextSequence, i);
    var s := states[i];
    assert s.history[..|s.history|] == s.history;
  }

  /** The execution after n one-byte writes that nobody polled. */
  function Filled(n: nat): State {
    State(Output(seq(n, i requires 0 <= i < n => Chunk(i + 1, [65])), n, n + 1, false, None, None),
          seq(n, i => [65]), Reading, Watching, true, multiset{}, multiset{}, {}, Client(0, [], []))
  }

  lemma RunSnoc(states: seq<State>, steps: seq<Step>, advance: Advance, s: State, step: Step)
    requires Run(states, steps, advance) && Next(states[|states| - 1], s, step, advance)
    ensures Run(states + [s], steps + [step], advance)
  {
  }

  lemma {:induction false} FilledRun(n: nat, advance: Advance) returns (states: seq<State>, steps: seq<Step>)
    requires n < MAX_OUTPUT_BYTES
    ensures Run(states, steps, advance) && states[|states| - 1] == Filled(n)
  {
    if n == 0 {
      states, steps := [Filled(0)], [];
    } else {
      states, steps := FilledRun(n - 1, advance);
      var s := Filled(n - 1);
      var held := s.(reader := Holding([65]));
      RunSnoc(states, steps, advance, held, ReadBytes([65]));
      assert Filled(n).out.chunks == s.out.chunks + [Chunk(n, [65])];
      assert Filled(n).history == s.history + [[65]];
      RunSnoc(states + [held], steps + [ReadBytes([65])], advance, Filled(n), AppendHeld);
      states, steps := states + [held] + [Filled(n)], steps + [ReadBytes([65])] + [AppendHeld];
    }
  }

  /** The cut is not a hypothetical: after 129 small writes before the first poll, a client
      that resumes at `nextSequence` has passed 129 chunks and holds fewer bytes. */
  lemma NextSequenceCanLoseBytes() returns (states: seq<State>, steps: seq<Step>)
    ensures Run(states, steps, NextSequence)
    ensures var s := states[|states| - 1];
            Passed(s.client) == |s.history| && s.client.received != BytesRead(s)
  {
    states, steps := FilledRun(129, NextSequence);
    var s := Filled(129);
    var d := Delivery(0, Respond(s.out));
    var finding, polled := s.(found := multiset{0}), s.(sent := {d});
    assert s.found + multiset{0} == finding.found;
    RunSnoc(states, steps, NextSequence, finding, FindSession(0));
    states, steps := states + [finding], steps + [FindSession(0)];
    assert s.out.chunks[0].sequence >= 0 && Discard(s.out, 0) == s.out;
    assert polled.sent == s.sent + {d} && polled.found == finding.found - multiset{0};
    RunSnoc(states, steps, NextSequence, polled, Poll(0, 0));
    states, steps := states + [polled], steps + [Poll(0, 0)];
    var delivered := polled.(client := Accept(polled.client, d, NextSequence));
    RunSnoc(states, steps, NextSequence, delivered, Deliver(d));
    states, steps := states + [delivered], steps + [Deliver(d)];
    assert delivered.client.accepted == [d.response];
    assert Cut(delivered.client.accepted[0]);
    NextSequenceLosesExactlyCuts(states, steps, |states| - 1);
    assert delivered.history[..129] == delivered.history;
  }

  /** The buffer in every reachable state: a consecutive run of sequences ending just before
      `nextSequence`, an exact byte count, and less than one read above the limit. */
  lemma BufferBound(states: seq<State>, steps: seq<Step>, advance: Advance, i: nat)
    requires Run(states, steps, advance) && i < |states|
    ensures var o := states[i].out;
            && o.bufferedBytes == ChunkBytes(o.chunks) < MAX_OUTPUT_BYTES + READ_BYTES
            && forall k :: 0 <= k < |o.chunks| ==> o.chunks[k].sequence == o.nextSequence - |o.chunks| + k
  {
    RunInv(states, steps, advance, i);
  }

  /** The exit is final: once a poller can see it, nothing it reports changes again. */
  lemma {:induction false} ExitIsFinal(states: seq<State>, steps: seq<Step>, advance: Advance, i: nat, j: nat)
    requires Run(states, steps, advance) && i <= j < |states| && states[i].out.Exited()
    ensures var o, p := states[i].out, states[j].out;
            && p.Exited() && states[j].history == states[i].history
            && p.nextSequence == o.nextSequence && p.exitCode == o.exitCode && p.authCache == o.authCache
  {
    if i < j {
      ExitIsFinal(states, steps, advance, i, j - 1);
      RunInv(states, steps, advance, j - 1);
      var s := states[j - 1];
      assert Next(s, states[j], steps[j - 1], advance);
      if steps[j - 1].Poll? {
        DiscardBuffers(s.out, s.history, steps[j - 1].after);
      }
    }
  }
}
