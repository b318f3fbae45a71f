/**
 What the steps of one execution add up to: every byte read is in the history or in the reader's
 hands, every poll that has found the session is about to run, asleep or answered, once, and the
 two ends and the listing are what the steps made of them.
 */
module ExecEvents {
  import opened Wrappers
  import opened Bytes
  import opened ExecOutput
  import opened ExecStream

  // ---------- Bytes ----------

  function Incoming(step: Step): seq<Byte> { if step.ReadBytes? then step.data else [] }

  /** The bytes that the steps have read. */
  function AllRead(steps: seq<Step>): seq<Byte> {
    if steps == [] then [] else AllRead(steps[..|steps| - 1]) + Incoming(steps[|steps| - 1])
  }

  lemma BytesMove(s: State, s': State, step: Step, advance: Advance)
    requires Next(s, s', step, advance)
    ensures BytesRead(s') == BytesRead(s) + Incoming(step)
  {
    if step.AppendHeld? {
      ConcatAppend(s.history, [s.reader.data]);
      assert Concat([s.reader.data]) == s.reader.data;
    }
  }

  /** Nothing read is lost, doubled or reordered on its way into the history. */
  lemma {:induction false} BytesAreRead(states: seq<State>, steps: seq<Step>, advance: Advance, i: nat)
    requires Run(states, steps, advance) && i < |states|
    ensures BytesRead(states[i]) == AllRead(steps[..i])
  {
    if i > 0 {
      BytesAreRead(states, steps, advance, i - 1);
      BytesMove(states[i - 1], states[i], steps[i - 1], advance);
      assert steps[..i][..i - 1] == steps[..i - 1];
    }
  }

  // ---------- Polls ----------

  /** The step answers a poll that came with this cursor. */
  predicate Answers(s: State, step: Step, after: nat) {
    match step
    case WakePoll(a) => a == after
    case Poll(a, waitMilliseconds) =>
      a == after && !MustWait(Discard(s.out, a), waitMilliseconds)
    case _ => false
  }

  /** How many polls with this cursor have found the session. */
  function Arrivals(steps: seq<Step>, i: nat, after: nat): nat
    requires i <= |steps|
  {
    if i == 0 then 0 else Arrivals(steps, i - 1, after) + if steps[i - 1] == FindSession(after) then 1 else 0
  }

  function Answered(states: seq<State>, steps: seq<Step>, i: nat, after: nat): nat
    requires i <= |steps| && i <= |states|
  {
    if i == 0 then 0
    else Answered(states, steps, i - 1, after) + if Answers(states[i - 1], steps[i - 1], after) then 1 else 0
  }

  lemma PollsMove(s: State, s': State, step: Step, advance: Advance, after: nat)
    requires Next(s, s', step, advance)
    ensures s'.found[after] + s'.waiting[after] + (if Answers(s, step, after) then 1 else 0)
         == s.found[after] + s.waiting[after] + (if step == FindSession(after) then 1 else 0)
    ensures Answers(s, step, after) ==> Delivery(after, Respond(s'.out)) in s'.sent
    ensures !Answers(s, step, after) ==> forall d :: d in s'.sent && d.after == after ==> d in s.sent
  {
  }

  /** Every poll that has found the session is answered at most once, and until then is on its way
      or asleep. */
  lemma {:induction false} EveryPollIsKept(
    states: seq<State>, steps: seq<Step>, advance: Advance, i: nat, after: nat)
    requires Run(states, steps, advance) && i < |states|
    ensures states[i].found[after] + states[i].waiting[after] + Answered(states, steps, i, after)
         == Arrivals(steps, i, after)
  {
    if i > 0 {
      EveryPollIsKept(states, steps, advance, i - 1, after);
      PollsMove(states[i - 1], states[i], steps[i - 1], advance, after);
    }
  }

  // ---------- Ends ----------

  ghost predicate Happened(steps: seq<Step>, i: nat, step: Step)
    requires i <= |steps|
  {
    exists k :: 0 <= k < i && steps[k] == step
  }

  lemma HappenedStep(steps: seq<Step>, i: nat, step: Step)
    requires 0 < i <= |steps|
    ensures Happened(steps, i, step) <==> Happened(steps, i - 1, step) || steps[i - 1] == step
  {
  }

  lemma EndsMove(s: State, s': State, step: Step, advance: Advance)
    requires Inv(s, advance) && Next(s, s', step, advance)
    ensures s'.listed == (s.listed && step != Close && step != Reclaim)
    ensures s'.out.readerClosed == (s.out.readerClosed || step == EndOfFile)
    ensures if step.ChildExits?
            then s.out.exitCode == None && s'.out.exitCode == Some(step.code) && s'.out.authCache == step.authCache
            else s'.out.exitCode == s.out.exitCode && s'.out.authCache == s.out.authCache
  {
    if step.Poll? {
      DiscardBuffers(s.out, s.history, step.after);
    }
  }

  /** A session is listed until it is closed or reclaimed, its output ends with the end of file, and
      the exit code and auth cache reported are those with which the process exited. */
  lemma {:induction false} EndsAre(states: seq<State>, steps: seq<Step>, advance: Advance, i: nat)
    requires Run(states, steps, advance) && i < |states|
    ensures var s := states[i];
            && (s.listed <==> !Happened(steps, i, Close) && !Happened(steps, i, Reclaim))
            && (s.out.readerClosed <==> Happened(steps, i, EndOfFile))
    ensures ExitsAre(states[i], steps, i)
  {
    if i > 0 {
      EndsAre(states, steps, advance, i - 1);
      RunInv(states, steps, advance, i - 1);
      EndsMove(states[i - 1], states[i], steps[i - 1], advance);
      HappenedStep(steps, i, Close);
      HappenedStep(steps, i, Reclaim);
      HappenedStep(steps, i, EndOfFile);
      ExitsMove(states[i - 1], states[i], steps, i);
    }
  }

  ghost predicate ExitsAre(s: State, steps: seq<Step>, i: nat)
    requires i <= |steps|
  {
    forall code, authCache ::
      Happened(steps, i, ChildExits(code, authCache)) <==> s.out.exitCode == Some(code) && s.out.authCache == authCache
  }

  lemma ExitsMove(s: State, s': State, steps: seq<Step>, i: nat)
    requires 0 < i <= |steps| && ExitsAre(s, steps, i - 1)
    requires var step := steps[i - 1];
             if step.ChildExits?
             then s.out.exitCode == None && s'.out.exitCode == Some(step.code) && s'.out.authCache == step.authCache
             else s'.out.exitCode == s.out.exitCode && s'.out.authCache == s.out.authCache
    ensures ExitsAre(s', steps, i)
  {
    forall code, authCache
      ensures Happened(steps, i, ChildExits(code, authCache))
         <==> s'.out.exitCode == Some(code) && s'.out.authCache == authCache
    {
      HappenedStep(steps, i, ChildExits(code, authCache));
    }
  }
}
