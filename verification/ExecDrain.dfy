/**
 What a client can still get of an execution that has ended: a poll at a time while the session is
 listed, and afterwards at most one more answer.
 */
module ExecDrain {
  import opened Wrappers
  import opened Bytes
  import opened ExecOutput
  import opened ExecStream

  function Last(states: seq<State>): State
    requires states != []
  {
    states[|states| - 1]
  }

  /** How many chunks the client has yet to get. */
  function Lacking(s: State): int { |s.history| - Passed(s.client) }

  lemma AcceptedAdvance(s: State, d: Delivery)
    requires Inv(s, LastReceived) && d in s.sent && d.after == s.client.cursor
    ensures var c := Accept(s.client, d, LastReceived);
            && |c.accepted| == |s.client.accepted| + 1 && c.accepted[|s.client.accepted|] == d.response
            && Passed(c) == Passed(s.client) + |d.response.chunks|
            && c.cursor == (if d.response.chunks == [] then s.client.cursor else Passed(c) + 1)
            && (Cut(d.response) <==> Passed(c) < d.response.nextSequence - 1)
  {
    var r := d.response;
    assert GoodDelivery(d, s);
    AcceptedSlice(r, s.history);
    if r.chunks != [] {
      assert r.chunks[|r.chunks| - 1].sequence == First(r) + |r.chunks| - 1;
    }
  }

  lemma NeededStep(s: State, s': State, step: Step)
    requires Inv(s, LastReceived) && Next(s, s', step, LastReceived)
    ensures |s.client.accepted| <= |s'.client.accepted|
    ensures Passed(s'.client) - Passed(s.client)
         <= RESPONSE_CHUNKS * (|s'.client.accepted| - |s.client.accepted|)
  {
    ClientStays(s, s', step, LastReceived);
    if step.Deliver? && step.delivery.after == s.client.cursor {
      assert GoodDelivery(step.delivery, s);
      AcceptedAdvance(s, step.delivery);
    }
  }

  /** Every accepted response takes the client at most 128 chunks further. */
  lemma {:induction false} PollsNeeded(states: seq<State>, steps: seq<Step>, i: nat, j: nat)
    requires Run(states, steps, LastReceived) && i <= j < |states|
    ensures var c, d := states[i].client, states[j].client;
            |c.accepted| <= |d.accepted|
            && Passed(d) - Passed(c) <= RESPONSE_CHUNKS * (|d.accepted| - |c.accepted|)
  {
    if i < j {
      PollsNeeded(states, steps, i, j - 1);
      RunInv(states, steps, LastReceived, j - 1);
      NeededStep(states[j - 1], states[j], steps[j - 1]);
    }
  }

  // ---------- One answer ----------

  /** A poll from where the client stands has found the session. */
  function Finding(s: State): State {
    s.(found := s.found + multiset{s.client.cursor})
  }

  /** Such a poll has been answered. */
  function Polled(s: State): State {
    var out := Discard(s.out, s.client.cursor);
    s.(out := out, found := s.found - multiset{s.client.cursor},
       sent := s.sent + {Delivery(s.client.cursor, Respond(out))})
  }

  /** One that was asleep has been answered. */
  function Woken(s: State): State {
    s.(waiting := s.waiting - multiset{s.client.cursor},
       sent := s.sent + {Delivery(s.client.cursor, Respond(s.out))})
  }

  function Delivered(s: State, d: Delivery): State {
    s.(client := Accept(s.client, d, LastReceived))
  }

  lemma FindingNext(s: State)
    requires s.listed
    ensures Next(s, Finding(s), FindSession(s.client.cursor), LastReceived)
  {
  }

  lemma PolledNext(s: State)
    requires s.out.Exited() && s.client.cursor in s.found
    ensures Next(s, Polled(s), Poll(s.client.cursor, 0), LastReceived)
  {
  }

  lemma WokenNext(s: State)
    requires s.client.cursor in s.waiting
    ensures Next(s, Woken(s), WakePoll(s.client.cursor), LastReceived)
  {
  }

  lemma DeliveredNext(s: State, d: Delivery)
    requires d in s.sent
    ensures Next(s, Delivered(s, d), Deliver(d), LastReceived)
  {
  }

  lemma DiscardKeeps(s: State, after: nat)
    requires Inv(s, LastReceived)
    ensures Buffers(Discard(s.out, after), s.history)
    ensures Discard(s.out, after).Exited() <==> s.out.Exited()
    ensures after == s.client.cursor ==> Discard(s.out, after).Front() == Max(1, after)
  {
    DiscardBuffers(s.out, s.history, after);
  }

  /** An answer from where the client stands brings the next 128 chunks, or all that are left. */
  lemma AnswerBrings(o: Output, history: seq<seq<Byte>>, c: Client)
    requires Buffers(o, history) && o.Front() == Max(1, c.cursor)
    ensures var lacking := |history| - Passed(c);
            && lacking >= 0 && |Respond(o).chunks| == Least(lacking, RESPONSE_CHUNKS)
            && Respond(o).nextSequence == |history| + 1
  {
  }

  function Least(a: int, b: int): int { if a < b then a else b }

  /** What the client needs of a response that is to leave nothing lacking. */
  predicate Completes(d: Delivery, s: State, knowing: bool) {
    && d.after == s.client.cursor && |d.response.chunks| == Lacking(s)
    && (knowing ==> d.response.exited)
  }

  // ---------- Going on while the session is listed ----------

  /** From s to t the client has got the next 128 chunks, or all that were left. */
  ghost predicate Gains(s: State, t: State) {
    && t.out.Exited() && t.listed == s.listed && t.history == s.history && SawExit(t.client)
    && Passed(t.client) == Least(Passed(s.client) + RESPONSE_CHUNKS, |s.history|)
  }

  function Exchanged(s: State): State {
    var t := Polled(Finding(s));
    Delivered(t, Delivery(s.client.cursor, Respond(t.out)))
  }

  lemma PolledInv(s: State)
    requires Inv(s, LastReceived) && s.out.Exited() && s.client.cursor in s.found
    ensures Inv(Polled(s), LastReceived)
  {
    PolledNext(s);
    PollInv(s, Polled(s), s.client.cursor, 0, LastReceived);
  }

  lemma FindingInv(s: State)
    requires Inv(s, LastReceived) && s.listed
    ensures Inv(Finding(s), LastReceived)
  {
    FindingNext(s);
    ListingInv(s, Finding(s), FindSession(s.client.cursor), LastReceived);
  }

  lemma ExchangedGains(s: State)
    requires Inv(s, LastReceived) && s.out.Exited() && s.listed
    ensures Gains(s, Exchanged(s))
  {
    FindingInv(s);
    var f := Finding(s);
    DiscardKeeps(s, s.client.cursor);
    AnswerBrings(Discard(s.out, s.client.cursor), s.history, s.client);
    PolledInv(f);
    AcceptedAdvance(Polled(f), Delivery(s.client.cursor, Respond(Polled(f).out)));
  }

  lemma ExchangeRun(states: seq<State>, steps: seq<Step>) returns (states': seq<State>, steps': seq<Step>)
    requires Run(states, steps, LastReceived) && Last(states).out.Exited() && Last(states).listed
    ensures Run(states', steps', LastReceived) && |steps'| == |steps| + 3 && states <= states' && steps <= steps'
    ensures Last(states') == Exchanged(Last(states))
  {
    var s := Last(states);
    var f := Finding(s);
    var t := Polled(f);
    var d := Delivery(s.client.cursor, Respond(t.out));
    FindingNext(s);
    RunSnoc(states, steps, LastReceived, f, FindSession(s.client.cursor));
    PolledNext(f);
    states', steps' := states + [f], steps + [FindSession(s.client.cursor)];
    RunSnoc(states', steps', LastReceived, t, Poll(s.client.cursor, 0));
    DeliveredNext(t, d);
    states', steps' := states' + [t], steps' + [Poll(s.client.cursor, 0)];
    RunSnoc(states', steps', LastReceived, Delivered(t, d), Deliver(d));
    states', steps' := states' + [Delivered(t, d)], steps' + [Deliver(d)];
  }

  lemma Exchange(states: seq<State>, steps: seq<Step>) returns (states': seq<State>, steps': seq<Step>)
    requires Run(states, steps, LastReceived) && Last(states).out.Exited() && Last(states).listed
    ensures Run(states', steps', LastReceived) && |steps'| == |steps| + 3 && states <= states' && steps <= steps'
    ensures Gains(Last(states), Last(states'))
  {
    states', steps' := ExchangeRun(states, steps);
    RunInv(states, steps, LastReceived, |states| - 1);
    ExchangedGains(Last(states));
  }

  /** One poll for every 128 chunks, the last perhaps not full, and one at least. */
  function PollsFor(lacking: nat): nat {
    if lacking == 0 then 1 else (lacking + RESPONSE_CHUNKS - 1) / RESPONSE_CHUNKS
  }

  lemma PollsForMore(lacking: nat)
    ensures PollsFor(lacking) == if lacking <= RESPONSE_CHUNKS then 1 else 1 + PollsFor(lacking - RESPONSE_CHUNKS)
  {
  }

  /** Nothing is lacking, and the client has been told so. */
  predicate Finished(s: State, knowing: bool) {
    Lacking(s) == 0 && (knowing ==> SawExit(s.client))
  }

  /** Polls in a row until nothing is lacking. */
  lemma {:induction false} PollOn(states: seq<State>, steps: seq<Step>, lacking: nat)
    returns (states': seq<State>, steps': seq<Step>)
    requires Run(states, steps, LastReceived) && Last(states).out.Exited() && Last(states).listed
    requires Lacking(Last(states)) == lacking
    ensures Run(states', steps', LastReceived) && states <= states' && steps <= steps'
    ensures |steps'| == |steps| + 3 * PollsFor(lacking)
    ensures Finished(Last(states'), true) && Last(states').out.Exited()
    decreases lacking
  {
    PollsForMore(lacking);
    states', steps' := Exchange(states, steps);
    if lacking > RESPONSE_CHUNKS {
      states', steps' := PollOn(states', steps', lacking - RESPONSE_CHUNKS);
    }
  }

  // ---------- Once it is not ----------

  /** An answer that leaves nothing lacking has been sent. */
  ghost predicate OnItsWay(s: State, knowing: bool) {
    exists d :: d in s.sent && Completes(d, s, knowing)
  }

  /** A poll from where the client stands is yet to be answered. */
  predicate Pending(s: State) {
    s.client.cursor in s.found || s.client.cursor in s.waiting
  }

  ghost predicate CanFinish(s: State, knowing: bool) {
    || s.listed
    || Finished(s, knowing)
    || OnItsWay(s, knowing)
    || (Pending(s) && Lacking(s) <= RESPONSE_CHUNKS)
  }

  /** The execution has ended and the client can get no further. */
  ghost predicate Stuck(s: State, knowing: bool) { s.out.Exited() && !CanFinish(s, knowing) }

  /** An answer sent changes nothing if it does not complete what the client has. */
  lemma SentStuck(s: State, t: State, d: Delivery, knowing: bool)
    requires Stuck(s, knowing) && t.sent == s.sent + {d} && !Completes(d, s, knowing)
    requires t.client == s.client && t.history == s.history && t.listed == s.listed && t.out.Exited()
    requires Pending(t) ==> Pending(s)
    ensures Stuck(t, knowing)
  {
    forall e | e in t.sent ensures !Completes(e, t, knowing) {
      assert e in s.sent || e == d;
      assert Completes(e, t, knowing) ==> Completes(e, s, knowing);
    }
  }

  lemma PollStuck(s: State, t: State, after: nat, waitMilliseconds: nat, knowing: bool)
    requires Inv(s, LastReceived) && Stuck(s, knowing) && Next(s, t, Poll(after, waitMilliseconds), LastReceived)
    ensures Stuck(t, knowing)
  {
    DiscardKeeps(s, after);
    var out := Discard(s.out, after);
    if after == s.client.cursor {
      AnswerBrings(out, s.history, s.client);
    }
    SentStuck(s, t, Delivery(after, Respond(out)), knowing);
  }

  lemma WakeStuck(s: State, t: State, after: nat, knowing: bool)
    requires Inv(s, LastReceived) && Stuck(s, knowing) && Next(s, t, WakePoll(after), LastReceived)
    ensures Stuck(t, knowing)
  {
    if after == s.client.cursor {
      AnswerBrings(s.out, s.history, s.client);
    }
    SentStuck(s, t, Delivery(after, Respond(s.out)), knowing);
  }

  /** Once the client has advanced, nothing that is under way is for where it stands. */
  lemma AdvancedStuck(s: State, d: Delivery, knowing: bool)
    requires Inv(s, LastReceived) && Stuck(s, knowing) && d in s.sent && d.after == s.client.cursor
    requires d.response.chunks != []
    ensures Stuck(Delivered(s, d), knowing)
  {
    AcceptedAdvance(s, d);
    var t := Delivered(s, d);
    forall e | e in t.sent ensures !Completes(e, t, knowing) {
      assert GoodDelivery(e, s);
    }
    assert !Completes(d, s, knowing);
  }

  lemma DeliverStuck(s: State, d: Delivery, knowing: bool)
    requires Inv(s, LastReceived) && Stuck(s, knowing) && d in s.sent
    ensures Stuck(Delivered(s, d), knowing)
  {
    if d.after == s.client.cursor {
      if d.response.chunks != [] {
        AdvancedStuck(s, d, knowing);
      } else {
        AcceptedAdvance(s, d);
        EmptyStuck(s, d, knowing);
      }
    }
  }

  lemma EmptyStuck(s: State, d: Delivery, knowing: bool)
    requires Stuck(s, knowing) && d in s.sent && d.after == s.client.cursor && d.response.chunks == []
    requires Passed(Delivered(s, d).client) == Passed(s.client)
    ensures Stuck(Delivered(s, d), knowing)
  {
    var t := Delivered(s, d);
    assert !Completes(d, s, knowing);
    forall e | e in t.sent ensures !Completes(e, t, knowing) {
      assert Completes(e, t, knowing) ==> Completes(e, s, knowing);
    }
  }

  lemma StuckStep(s: State, t: State, step: Step, knowing: bool)
    requires Inv(s, LastReceived) && Stuck(s, knowing) && Next(s, t, step, LastReceived)
    ensures Stuck(t, knowing)
  {
    match step
    case Poll(after, waitMilliseconds) => PollStuck(s, t, after, waitMilliseconds, knowing);
    case WakePoll(after) => WakeStuck(s, t, after, knowing);
    case Deliver(d) => DeliverStuck(s, d, knowing);
    case _ =>
  }

  lemma {:induction false} StaysStuck(states: seq<State>, steps: seq<Step>, i: nat, j: nat, knowing: bool)
    requires Run(states, steps, LastReceived) && i <= j < |states| && Stuck(states[i], knowing)
    ensures Stuck(states[j], knowing)
  {
    if i < j {
      StaysStuck(states, steps, i, j - 1, knowing);
      RunInv(states, steps, LastReceived, j - 1);
      StuckStep(states[j - 1], states[j], steps[j - 1], knowing);
    }
  }

  // ---------- In bytes ----------

  /** The client holds all that was ever read, and knows it if it is to know. */
  predicate HasAll(s: State, knowing: bool) {
    s.client.received == BytesRead(s) && (knowing ==> SawExit(s.client))
  }

  lemma HasAllIff(states: seq<State>, steps: seq<Step>, knowing: bool)
    requires Run(states, steps, LastReceived) && Last(states).out.Exited()
    ensures Lacking(Last(states)) >= 0
    ensures HasAll(Last(states), knowing) <==> Finished(Last(states), knowing)
  {
    RunInv(states, steps, LastReceived, |states| - 1);
    var s := Last(states);
    BytesPassed(s.history, Passed(s.client), Passed(s.client), |s.history|);
    assert s.history[..|s.history|] == s.history;
    assert s.history[Passed(s.client)..Passed(s.client)] == [];
  }

  /** Some continuation of the run ends with the client holding everything. */
  ghost predicate CanGetAll(states: seq<State>, steps: seq<Step>, knowing: bool)
    requires states != []
  {
    exists states', steps' ::
      && Run(states', steps', LastReceived) && states <= states' && steps <= steps'
      && HasAll(Last(states'), knowing)
  }

  /** While the session is listed, one poll for every 128 chunks the client lacks, or one if it lacks
      none, is enough to get everything and to know it. */
  lemma ListedDrains(states: seq<State>, steps: seq<Step>) returns (states': seq<State>, steps': seq<Step>)
    requires Run(states, steps, LastReceived) && Last(states).out.Exited() && Last(states).listed
    ensures Run(states', steps', LastReceived) && states <= states' && steps <= steps'
    ensures Lacking(Last(states)) >= 0 && |steps'| == |steps| + 3 * PollsFor(Lacking(Last(states)))
    ensures HasAll(Last(states'), true)
  {
    HasAllIff(states, steps, true);
    states', steps' := PollOn(states, steps, Lacking(Last(states)));
    HasAllIff(states', steps', true);
  }

  /** One more delivery. */
  lemma DeliverOne(states: seq<State>, steps: seq<Step>, d: Delivery, knowing: bool)
    requires Run(states, steps, LastReceived) && Last(states).out.Exited()
    requires d in Last(states).sent && Completes(d, Last(states), knowing)
    ensures CanGetAll(states, steps, knowing)
  {
    var s := Last(states);
    DeliveredNext(s, d);
    RunSnoc(states, steps, LastReceived, Delivered(s, d), Deliver(d));
    RunInv(states, steps, LastReceived, |states| - 1);
    AcceptedAdvance(s, d);
    HasAllIff(states + [Delivered(s, d)], steps + [Deliver(d)], knowing);
    assert HasAll(Last(states + [Delivered(s, d)]), knowing);
  }

  /** The state in which a pending poll has been answered. */
  lemma AnswerOne(states: seq<State>, steps: seq<Step>) returns (t: State, step: Step, d: Delivery)
    requires Run(states, steps, LastReceived) && Last(states).out.Exited() && Pending(Last(states))
    requires Lacking(Last(states)) <= RESPONSE_CHUNKS
    ensures Run(states + [t], steps + [step], LastReceived) && t.out.Exited()
    ensures d in t.sent && Completes(d, t, true)
  {
    var s := Last(states);
    RunInv(states, steps, LastReceived, |states| - 1);
    if s.client.cursor in s.found {
      DiscardKeeps(s, s.client.cursor);
      t, step := Polled(s), Poll(s.client.cursor, 0);
      PolledNext(s);
    } else {
      t, step := Woken(s), WakePoll(s.client.cursor);
      WokenNext(s);
    }
    AnswerBrings(t.out, s.history, s.client);
    d := Delivery(s.client.cursor, Respond(t.out));
    RunSnoc(states, steps, LastReceived, t, step);
  }

  lemma Extends(states: seq<State>, steps: seq<Step>, t: State, step: Step, knowing: bool)
    requires states != [] && CanGetAll(states + [t], steps + [step], knowing)
    ensures CanGetAll(states, steps, knowing)
  {
    var states', steps' :|
      && Run(states', steps', LastReceived) && states + [t] <= states' && steps + [step] <= steps'
      && HasAll(Last(states'), knowing);
    assert states <= states' && steps <= steps';
  }

  lemma CanGetIfCanFinish(states: seq<State>, steps: seq<Step>, knowing: bool)
    requires Run(states, steps, LastReceived) && Last(states).out.Exited() && CanFinish(Last(states), knowing)
    ensures CanGetAll(states, steps, knowing)
  {
    var s := Last(states);
    HasAllIff(states, steps, knowing);
    if s.listed {
      var states', steps' := ListedDrains(states, steps);
      assert HasAll(Last(states'), knowing);
    } else if OnItsWay(s, knowing) {
      var d :| d in s.sent && Completes(d, s, knowing);
      DeliverOne(states, steps, d, knowing);
    } else if Finished(s, knowing) {
      assert HasAll(Last(states), knowing);
    } else {
      var t, step, d := AnswerOne(states, steps);
      DeliverOne(states + [t], steps + [step], d, knowing);
      Extends(states, steps, t, step, knowing);
    }
  }

  /** An execution has ended. The client can still get all of its output, and know that it has, if
      and only if the session is listed, or nothing is lacking, or the answer that brings what is
      lacking has been sent or is due to a poll that has found the session. */
  lemma PollsDrain(states: seq<State>, steps: seq<Step>, knowing: bool)
    requires Run(states, steps, LastReceived) && Last(states).out.Exited()
    ensures CanGetAll(states, steps, knowing) <==> CanFinish(Last(states), knowing)
  {
    if CanFinish(Last(states), knowing) {
      CanGetIfCanFinish(states, steps, knowing);
    } else if CanGetAll(states, steps, knowing) {
      var states', steps' :|
        && Run(states', steps', LastReceived) && states <= states' && steps <= steps'
        && HasAll(Last(states'), knowing);
      StaysStuck(states', steps', |states| - 1, |states'| - 1, knowing);
      HasAllIff(states', steps', knowing);
    }
  }

  // ---------- Lost to the next start ----------

  function Ended(n: nat): State {
    var s := Filled(n);
    s.(reader := ExecStream.Reader.Finished, waiter := Done, out := s.out.(readerClosed := true, exitCode := Some(0)))
  }

  lemma EndedRun(n: nat) returns (states: seq<State>, steps: seq<Step>)
    requires n < MAX_OUTPUT_BYTES
    ensures Run(states, steps, LastReceived) && Last(states) == Ended(n)
  {
    states, steps := FilledRun(n, LastReceived);
    var s := Filled(n);
    var t := s.(reader := ExecStream.Reader.Finished, out := s.out.(readerClosed := true));
    RunSnoc(states, steps, LastReceived, t, EndOfFile);
    RunSnoc(states + [t], steps + [EndOfFile], LastReceived, Ended(n), ChildExits(0, None));
    states, steps := states + [t] + [Ended(n)], steps + [EndOfFile] + [ChildExits(0, None)];
  }

  /** A run whose output, however much, could be had until the next start dropped the session, and
      cannot be had since. */
  lemma ReclaimLosesBytes(n: nat) returns (states: seq<State>, steps: seq<Step>)
    requires 0 < n < MAX_OUTPUT_BYTES
    ensures Run(states, steps, LastReceived) && |steps| > 0 && steps[|steps| - 1] == Reclaim
    ensures CanGetAll(states[..|steps|], steps[..|steps| - 1], true)
    ensures Last(states).client.received == [] && |BytesRead(Last(states))| >= n
    ensures !CanGetAll(states, steps, false)
  {
    states, steps := EndedRun(n);
    PollsDrain(states, steps, true);
    var s := Ended(n).(listed := false);
    RunSnoc(states, steps, LastReceived, s, Reclaim);
    ConcatNonempty(s.history);
    assert (states + [s])[..|steps| + 1] == states && (steps + [Reclaim])[..|steps|] == steps;
    states, steps := states + [s], steps + [Reclaim];
    PollsDrain(states, steps, false);
  }
}
