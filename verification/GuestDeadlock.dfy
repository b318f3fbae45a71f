/**
 The threads of `GuestLocks` run by any interleaving: no cycle of waits, no lost wake-up,
 and a raised busy flag can always be brought down by threads that are already there.
 */
module GuestDeadlock {
  import opened GuestLocks
  import opened Wrappers

  type ThreadId = nat

  // ---------- The machine ----------

  datatype Thread = Thread(rest: seq<Op>, held: set<Lock>)

  datatype State = State(
    threads: map<ThreadId, Thread>, owner: map<Lock, ThreadId>, busy: bool, parked: set<ThreadId>)

  datatype Step =
    /** A request arrives. */
    | Arrive(t: ThreadId, job: Job)
    /** Thread t performs its next operation; `child` names the thread a spawn creates. */
    | Perform(t: ThreadId, child: ThreadId)
    /** A condition variable may wake a thread for no reason. */
    | Spurious(t: ThreadId)

  predicate Init(s: State) {
    s == State(map[], map[], false, {})
  }

  predicate Running(s: State, t: ThreadId) {
    t in s.threads && s.threads[t].rest != []
  }

  predicate Enabled(s: State, t: ThreadId) {
    && Running(s, t)
    && match s.threads[t].rest[0]
       case Acquire(l) => l !in s.owner
       case Parked => t !in s.parked
       case _ => true
  }

  function Advance(s: State, t: ThreadId, held: set<Lock>): State
    requires Running(s, t)
  {
    s.(threads := s.threads[t := Thread(s.threads[t].rest[1..], held)])
  }

  function Perform'(s: State, t: ThreadId, child: ThreadId): State
    requires Running(s, t)
  {
    var th := s.threads[t];
    match th.rest[0]
    case Acquire(l) => Advance(s, t, th.held + {l}).(owner := s.owner[l := t])
    case Release(l) => Advance(s, t, th.held - {l}).(owner := s.owner - {l})
    case CheckIdle =>
      if s.busy
      then s.(threads := s.threads[t := Thread([Parked, Acquire(Busy), CheckIdle] + th.rest[1..], th.held - {Busy})],
              owner := s.owner - {Busy}, parked := s.parked + {t})
      else Advance(s, t, th.held)
    case SetBusy => Advance(s, t, th.held).(busy := true)
    case ClearBusy => Advance(s, t, th.held).(busy := false)
    case NotifyIdle => Advance(s, t, th.held).(parked := {})
    case Spawn(job) =>
      var s' := Advance(s, t, th.held);
      s'.(threads := s'.threads[child := Thread(Program(job), {})])
    case _ => Advance(s, t, th.held)
  }

  ghost predicate Next(s: State, s': State, step: Step) {
    match step
    case Arrive(t, job) =>
      && t !in s.threads && !IsBackground(job)
      && s' == s.(threads := s.threads[t := Thread(Program(job), {})])
    case Perform(t, child) =>
      Enabled(s, t) && child !in s.threads && s' == Perform'(s, t, child)
    case Spurious(t) =>
      s' == s.(parked := s.parked - {t})
  }

  ghost predicate Run(states: seq<State>, steps: seq<Step>) {
    && |states| == |steps| + 1 && Init(states[0])
    && forall i {:trigger steps[i]} :: 0 <= i < |steps| ==> Next(states[i], states[i + 1], steps[i])
  }

  /** A thread that finds the flag up falls asleep without the flag's lock. */
  lemma CheckSleeps(s: State, t: ThreadId, child: ThreadId)
    requires Running(s, t) && s.threads[t].rest[0].CheckIdle? && s.busy
    ensures var s' := Perform'(s, t, child);
            && t in s'.parked && Running(s', t) && !Enabled(s', t)
            && Busy !in s'.owner && Busy !in s'.threads[t].held
  {
  }

  predicate Notifies(s: State, step: Step) {
    step.Perform? && Running(s, step.t) && s.threads[step.t].rest[0].NotifyIdle?
  }

  predicate Asleep(s: State, t: ThreadId) { t in s.parked && Running(s, t) && s.threads[t].rest[0].Parked? }

  lemma SleepsOn(s: State, s': State, step: Step, t: ThreadId)
    requires Next(s, s', step) && Asleep(s, t) && step != Spurious(t) && !Notifies(s, step)
    ensures Asleep(s', t) && s'.threads[t] == s.threads[t]
  {
  }

  /** And it does not move until it is notified, or woken by chance. */
  lemma {:induction false} SleepsUntilWoken(states: seq<State>, steps: seq<Step>, i: nat, j: nat, t: ThreadId)
    requires Run(states, steps) && i <= j < |states| && Asleep(states[i], t)
    requires forall k :: i <= k < j ==> steps[k] != Spurious(t) && !Notifies(states[k], steps[k])
    ensures Asleep(states[j], t) && states[j].threads[t] == states[i].threads[t]
  {
    if i < j {
      SleepsUntilWoken(states, steps, i, j - 1, t);
      var s, s', step := states[j - 1], states[j], steps[j - 1];
      assert Next(s, s', step);
      assert step != Spurious(t) && !Notifies(s, step);
      SleepsOn(s, s', step, t);
    }
  }

  // ---------- Invariants ----------

  ghost predicate Orderly(s: State) {
    && (forall t :: t in s.threads ==> Disciplined(s.threads[t].rest, s.threads[t].held))
    && OwnersOk(s)
  }

  lemma ParkingDisciplined(ops: seq<Op>)
    requires Disciplined(ops, {Mutations, Busy})
    ensures Disciplined([Parked, Acquire(Busy), CheckIdle] + ops, {Mutations})
  {
    DisciplinedCons(CheckIdle, ops, {Mutations, Busy});
    assert {Mutations} + {Busy} == {Mutations, Busy};
    DisciplinedCons(Acquire(Busy), [CheckIdle] + ops, {Mutations});
    assert [Acquire(Busy)] + ([CheckIdle] + ops) == [Acquire(Busy), CheckIdle] + ops;
    DisciplinedCons(Parked, [Acquire(Busy), CheckIdle] + ops, {Mutations});
    assert [Parked] + ([Acquire(Busy), CheckIdle] + ops) == [Parked, Acquire(Busy), CheckIdle] + ops;
  }

  /** The thread that moves stays disciplined. */
  lemma MoverDisciplined(s: State, t: ThreadId, child: ThreadId)
    requires Orderly(s) && Running(s, t) && child !in s.threads
    ensures var th := Perform'(s, t, child).threads[t]; Disciplined(th.rest, th.held)
  {
    var th := s.threads[t];
    assert Disciplined(th.rest, th.held) && Allowed(th.rest[0], th.held);
    if th.rest[0].CheckIdle? && s.busy {
      assert {Mutations, Busy} - {Busy} == {Mutations};
      ParkingDisciplined(th.rest[1..]);
    }
  }

  /** Each lock has the owner its holder thinks it has. */
  ghost predicate OwnersOk(s: State) {
    && (forall t, l :: t in s.threads && l in s.threads[t].held ==> l in s.owner && s.owner[l] == t)
    && (forall l :: l in s.owner ==> s.owner[l] in s.threads && l in s.threads[s.owner[l]].held)
  }

  lemma OwnersAcquire(s: State, t: ThreadId, l: Lock, rest: seq<Op>)
    requires OwnersOk(s) && t in s.threads && l !in s.owner
    ensures OwnersOk(s.(threads := s.threads[t := Thread(rest, s.threads[t].held + {l})], owner := s.owner[l := t]))
  {
  }

  lemma OwnersRelease(s: State, t: ThreadId, l: Lock, rest: seq<Op>)
    requires OwnersOk(s) && t in s.threads && l in s.threads[t].held
    ensures OwnersOk(s.(threads := s.threads[t := Thread(rest, s.threads[t].held - {l})], owner := s.owner - {l}))
  {
    var s' := s.(threads := s.threads[t := Thread(rest, s.threads[t].held - {l})], owner := s.owner - {l});
    forall k | k in s'.owner ensures s'.owner[k] in s'.threads && k in s'.threads[s'.owner[k]].held {
      assert k in s.owner && k in s.threads[s.owner[k]].held;
    }
    forall u, k | u in s'.threads && k in s'.threads[u].held ensures k in s'.owner && s'.owner[k] == u {
      if u != t {
        assert k in s.threads[u].held && s.owner[k] == u && s.owner[l] == t;
      }
    }
  }

  lemma OwnersStep(s: State, t: ThreadId, child: ThreadId)
    requires OwnersOk(s) && Enabled(s, t) && child !in s.threads
    requires Allowed(s.threads[t].rest[0], s.threads[t].held)
    ensures OwnersOk(Perform'(s, t, child))
  {
    var th := s.threads[t];
    match th.rest[0]
    case Acquire(l) => OwnersAcquire(s, t, l, th.rest[1..]);
    case Release(l) => OwnersRelease(s, t, l, th.rest[1..]);
    case CheckIdle =>
      if s.busy {
        OwnersRelease(s, t, Busy, [Parked, Acquire(Busy), CheckIdle] + th.rest[1..]);
      }
    case _ =>
  }

  lemma OthersUnchanged(s: State, t: ThreadId, child: ThreadId, u: ThreadId)
    requires Running(s, t) && child !in s.threads && u in Perform'(s, t, child).threads && u != t
    ensures if u in s.threads then Perform'(s, t, child).threads[u] == s.threads[u]
            else u == child && s.threads[t].rest[0].Spawn?
                 && Perform'(s, t, child).threads[u] == Thread(Program(s.threads[t].rest[0].job), {})
  {
  }

  lemma DisciplineStep(s: State, t: ThreadId, child: ThreadId)
    requires Orderly(s) && Enabled(s, t) && child !in s.threads
    ensures var s' := Perform'(s, t, child);
            forall u :: u in s'.threads ==> Disciplined(s'.threads[u].rest, s'.threads[u].held)
  {
    var s' := Perform'(s, t, child);
    MoverDisciplined(s, t, child);
    forall u | u in s'.threads ensures Disciplined(s'.threads[u].rest, s'.threads[u].held) {
      if u != t {
        OthersUnchanged(s, t, child, u);
        if u !in s.threads {
          ProgramsAreDisciplined(s.threads[t].rest[0].job);
        }
      }
    }
  }

  lemma OrderlyStep(s: State, s': State, step: Step)
    requires Orderly(s) && Next(s, s', step)
    ensures Orderly(s')
  {
    match step
    case Arrive(t, job) => ProgramsAreDisciplined(job);
    case Perform(t, child) =>
      assert Disciplined(s.threads[t].rest, s.threads[t].held);
      DisciplineStep(s, t, child);
      OwnersStep(s, t, child);
    case Spurious(t) =>
  }

  // ---------- What every thread still owes ----------

  predicate SpawnsWaiter(ops: seq<Op>) {
    exists op :: op in ops && op.Spawn? && op.job.CodexWaiter?
  }

  /** The thread still has to clear the flag: it is a run's waiter, or its starter that has
      raised the flag and not yet spawned the waiter. */
  predicate WillClear(ops: seq<Op>) {
    ClearBusy in ops || (SetBusy !in ops && SpawnsWaiter(ops))
  }

  /** No operation that could wait for the flag or for `Mutations`. */
  predicate Harmless(ops: seq<Op>) {
    Acquire(Mutations) !in ops && CheckIdle !in ops && Parked !in ops
  }

  predicate MustFinish(ops: seq<Op>) { WillClear(ops) || NotifyIdle in ops }

  /** Whoever has to lower the flag or wake the sleepers waits for neither; raising the flag
      is followed by spawning the waiter, lowering it by the wake-up. */
  predicate Keeps(ops: seq<Op>) {
    ops == []
    || (&& Keeps(ops[1..])
        && (MustFinish(ops) ==> Harmless(ops))
        && (ops[0].SetBusy? ==> WillClear(ops[1..]))
        && (ops[0].ClearBusy? ==> NotifyIdle in ops[1..]))
  }

  /** A quiet beginning, itself harmless if the end must finish, changes nothing. */
  lemma {:induction false} LeadsKeeps(x: seq<Op>, y: seq<Op>, a: set<Lock>, b: set<Lock>)
    requires Leads(x, a, b) && Keeps(y) && (MustFinish(y) ==> Harmless(x))
    ensures Keeps(x + y)
    ensures MustFinish(x + y) ==> MustFinish(y)
  {
    if x == [] {
      assert x + y == y;
    } else {
      LeadsKeeps(x[1..], y, After(x[0], a), b);
      assert (x + y)[1..] == x[1..] + y;
      MustFinishCons(x[0], x[1..] + y);
      assert x + y == [x[0]] + (x[1..] + y);
      assert forall op :: op in x + y ==> op in x || op in y;
    }
  }

  lemma MustFinishCons(op: Op, rest: seq<Op>)
    requires Quiet(op)
    ensures MustFinish([op] + rest) ==> MustFinish(rest)
  {
    assert forall o :: o in [op] + rest <==> o == op || o in rest;
  }

  lemma KeepsCons(op: Op, rest: seq<Op>)
    requires Keeps(rest)
    requires MustFinish([op] + rest) ==> Harmless([op] + rest)
    requires op.SetBusy? ==> WillClear(rest)
    requires op.ClearBusy? ==> NotifyIdle in rest
    ensures Keeps([op] + rest)
  {
    assert ([op] + rest)[1..] == rest;
  }

  lemma SpawnKeeps(id: nat)
    ensures var w := [Spawn(CodexWaiter(id)), Release(Mutations)]; Keeps(w) && SpawnsWaiter(w)
  {
    var w := [Spawn(CodexWaiter(id)), Release(Mutations)];
    KeepsCons(Release(Mutations), []);
    assert [Release(Mutations)] + [] == [Release(Mutations)];
    KeepsCons(Spawn(CodexWaiter(id)), [Release(Mutations)]);
    assert [Spawn(CodexWaiter(id))] + [Release(Mutations)] == w;
    assert w[0] == Spawn(CodexWaiter(id)) && w[0] in w;
  }

  lemma SpawnsWaiterCons(op: Op, rest: seq<Op>)
    requires SpawnsWaiter(rest) && SetBusy !in rest && op != SetBusy
    ensures WillClear([op] + rest) && SetBusy !in [op] + rest && SpawnsWaiter([op] + rest)
  {
    var spawn :| spawn in rest && spawn.Spawn? && spawn.job.CodexWaiter?;
    assert spawn in [op] + rest;
  }

  lemma ReaderKeeps(reader: Job, id: nat)
    requires !reader.CodexWaiter?
    ensures var x := [Spawn(reader)] + [Spawn(CodexWaiter(id)), Release(Mutations)];
            Keeps(x) && WillClear(x) && SetBusy !in x && SpawnsWaiter(x)
  {
    SpawnKeeps(id);
    var w := [Spawn(CodexWaiter(id)), Release(Mutations)];
    SpawnsWaiterCons(Spawn(reader), w);
    KeepsCons(Spawn(reader), w);
  }

  lemma RaisedKeeps(reader: Job, id: nat)
    requires !reader.CodexWaiter?
    ensures var x := [Release(Busy), Spawn(reader), Spawn(CodexWaiter(id)), Release(Mutations)];
            Keeps(x) && WillClear(x)
  {
    ReaderKeeps(reader, id);
    var w := [Spawn(CodexWaiter(id)), Release(Mutations)];
    SpawnsWaiterCons(Release(Busy), [Spawn(reader)] + w);
    KeepsCons(Release(Busy), [Spawn(reader)] + w);
    assert [Release(Busy)] + ([Spawn(reader)] + w)
        == [Release(Busy), Spawn(reader), Spawn(CodexWaiter(id)), Release(Mutations)];
  }

  lemma RaiseKeeps(reader: Job, id: nat)
    requires !reader.CodexWaiter?
    ensures var y := RaiseAndSpawn(reader, CodexWaiter(id)); Keeps(y) && !MustFinish(y)
  {
    RaisedKeeps(reader, id);
    var x := [Release(Busy), Spawn(reader), Spawn(CodexWaiter(id)), Release(Mutations)];
    assert [SetBusy] + x == RaiseAndSpawn(reader, CodexWaiter(id));
    assert SetBusy in [SetBusy] + x;
    KeepsCons(SetBusy, x);
  }

  lemma LowerKeeps()
    ensures Keeps(LOWER_AND_WAKE)
  {
    KeepsCons(NotifyIdle, []);
    KeepsCons(Release(Busy), [NotifyIdle] + []);
    var x := [Release(Busy)] + ([NotifyIdle] + []);
    assert x[1] == NotifyIdle;
    KeepsCons(ClearBusy, x);
    LiteralThree(ClearBusy, Release(Busy), NotifyIdle);
  }

  lemma StartCodexKeeps(peeked: seq<nat>, closed: Option<seq<nat>>, id: nat, pauses: seq<nat>)
    ensures Keeps(EnterCodex(peeked, closed) + RaiseAndSpawn(CodexReader(id, pauses), CodexWaiter(id)))
  {
    EnterCodexLeads(peeked, closed);
    RaiseKeeps(CodexReader(id, pauses), id);
    LeadsKeeps(
      EnterCodex(peeked, closed), RaiseAndSpawn(CodexReader(id, pauses), CodexWaiter(id)), {}, {Mutations, Busy});
  }

  lemma CodexWaiterKeeps(id: nat)
    ensures Keeps(ReportExit(id) + LOWER_AND_WAKE)
  {
    CodexWaiterLeads(id);
    LowerKeeps();
    assert Harmless(ReportExit(id)) by {
      assert ReportExit(id) == [Work, Acquire(ExecOutput(id)), Release(ExecOutput(id)), Acquire(Busy)];
    }
    LeadsKeeps(ReportExit(id), LOWER_AND_WAKE, {}, {Busy});
  }

  lemma QuietKeeps(ops: seq<Op>)
    requires Leads(ops, {}, {})
    ensures Keeps(ops)
  {
    LeadsKeeps(ops, [], {}, {});
    assert ops + [] == ops;
  }

  lemma ProgramsKeep(job: Job)
    ensures Keeps(Program(job))
  {
    match job
    case StartCodex(peeked, closed, id, pauses) => StartCodexKeeps(peeked, closed, id, pauses);
    case CodexWaiter(id) => CodexWaiterKeeps(id);
    case _ =>
      JobsLead(job);
      QuietKeeps(Program(job));
  }

  // ---------- Over every run ----------

  ghost predicate KeepsOk(s: State) {
    forall t :: t in s.threads ==> Keeps(s.threads[t].rest)
  }

  /** Sleepers sit at their wake-up point. */
  ghost predicate ParkedOk(s: State) {
    forall t :: t in s.parked ==> Running(s, t) && s.threads[t].rest[0].Parked?
  }

  /** A raised flag has a thread that will lower it; sleepers beside a lowered flag have one
      that will wake them. */
  ghost predicate Promised(s: State) {
    && (s.busy ==> exists t :: t in s.threads && WillClear(s.threads[t].rest))
    && (!s.busy && s.parked != {} ==> exists t :: t in s.threads && NotifyIdle in s.threads[t].rest)
  }

  ghost predicate Inv(s: State) {
    Orderly(s) && KeepsOk(s) && ParkedOk(s) && Promised(s)
  }

  lemma ParkingKeeps(ops: seq<Op>)
    requires Keeps([CheckIdle] + ops)
    ensures Keeps([Parked, Acquire(Busy), CheckIdle] + ops)
  {
    var x := [CheckIdle] + ops;
    assert CheckIdle in x && !MustFinish(x);
    MustFinishCons(Acquire(Busy), x);
    KeepsCons(Acquire(Busy), x);
    MustFinishCons(Parked, [Acquire(Busy)] + x);
    KeepsCons(Parked, [Acquire(Busy)] + x);
    assert [Parked] + ([Acquire(Busy)] + x) == [Parked, Acquire(Busy), CheckIdle] + ops;
  }

  lemma KeepsStep(s: State, s': State, step: Step)
    requires KeepsOk(s) && Next(s, s', step)
    ensures KeepsOk(s')
  {
    match step
    case Arrive(_, job) => ProgramsKeep(job);
    case Spurious(_) =>
    case Perform(t, child) =>
      var ops := s.threads[t].rest;
      assert Keeps(ops) && ops == [ops[0]] + ops[1..];
      match ops[0] {
        case CheckIdle => if s.busy { ParkingKeeps(ops[1..]); }
        case Spawn(job) => ProgramsKeep(job);
        case _ =>
      }
  }

  lemma ParkedStep(s: State, s': State, step: Step)
    requires ParkedOk(s) && Next(s, s', step)
    ensures ParkedOk(s')
  {
  }

  /** What is still to come stays to come, unless it comes now. */
  lemma StillToCome(ops: seq<Op>)
    requires ops != []
    ensures WillClear(ops) ==> WillClear(ops[1..]) || ops[0].ClearBusy? || (ops[0].Spawn? && ops[0].job.CodexWaiter?)
    ensures NotifyIdle in ops ==> NotifyIdle in ops[1..] || ops[0].NotifyIdle?
  {
    assert ops == [ops[0]] + ops[1..];
    assert forall op :: op in ops <==> op == ops[0] || op in ops[1..];
  }

  lemma WaiterClears(id: nat)
    ensures WillClear(Program(CodexWaiter(id)))
  {
    assert ClearBusy in LOWER_AND_WAKE;
    assert Program(CodexWaiter(id)) == ReportExit(id) + LOWER_AND_WAKE;
  }

  /** The flag's guardian survives any step. */
  lemma ClearPromised(s: State, s': State, t: ThreadId, child: ThreadId)
    requires KeepsOk(s) && Promised(s) && Next(s, s', Perform(t, child)) && s'.busy
    ensures exists u :: u in s'.threads && WillClear(s'.threads[u].rest)
  {
    var ops := s.threads[t].rest;
    assert Keeps(ops);
    StillToCome(ops);
    if ops[0].SetBusy? {
      assert WillClear(s'.threads[t].rest);
    } else {
      var u :| u in s.threads && WillClear(s.threads[u].rest);
      if u != t {
        assert s'.threads[u] == s.threads[u];
      } else if ops[0].Spawn? && ops[0].job.CodexWaiter? {
        WaiterClears(ops[0].job.session);
        assert WillClear(s'.threads[child].rest);
      } else {
        assert Harmless(ops) && ops[0] in ops;
        assert s'.threads[t].rest == ops[1..];
      }
    }
  }

  lemma WakePromised(s: State, s': State, t: ThreadId, child: ThreadId)
    requires KeepsOk(s) && Promised(s) && Next(s, s', Perform(t, child)) && !s'.busy && s'.parked != {}
    ensures exists u :: u in s'.threads && NotifyIdle in s'.threads[u].rest
  {
    var ops := s.threads[t].rest;
    assert Keeps(ops);
    StillToCome(ops);
    if ops[0].ClearBusy? {
      assert NotifyIdle in s'.threads[t].rest;
    } else {
      var u :| u in s.threads && NotifyIdle in s.threads[u].rest;
      assert s'.threads[u].rest == if u == t then ops[1..] else s.threads[u].rest;
    }
  }

  lemma InvStep(s: State, s': State, step: Step)
    requires Inv(s) && Next(s, s', step)
    ensures Inv(s')
  {
    OrderlyStep(s, s', step);
    KeepsStep(s, s', step);
    ParkedStep(s, s', step);
    match step
    case Perform(t, child) =>
      if s'.busy { ClearPromised(s, s', t, child); }
      if !s'.busy && s'.parked != {} { WakePromised(s, s', t, child); }
    case _ =>
      assert forall u :: u in s.threads ==> u in s'.threads && s'.threads[u] == s.threads[u];
  }

  /** In particular no wake-up is ever lost: whenever threads sleep on the flag, some thread
      has yet to lower it or to notify them. */
  lemma {:induction false} Reachable(states: seq<State>, steps: seq<Step>, i: nat)
    requires Run(states, steps) && i < |states|
    ensures Inv(states[i])
  {
    if i > 0 {
      Reachable(states, steps, i - 1);
      InvStep(states[i - 1], states[i], steps[i - 1]);
    }
  }

  // ---------- No cycle of waits ----------

  /** t cannot move until u does: u owns the lock t asks for, or t sleeps and u is the one to
      lower the flag, or to wake the sleepers once it is down. */
  predicate Waits(s: State, t: ThreadId, u: ThreadId) {
    && Running(s, t) && u in s.threads
    && match s.threads[t].rest[0]
       case Acquire(l) => l in s.owner && s.owner[l] == u
       case Parked =>
         t in s.parked && (if s.busy then WillClear(s.threads[u].rest) else NotifyIdle in s.threads[u].rest)
       case _ => false
  }

  function Rank(s: State, t: ThreadId): (r: nat)
    ensures r <= 4
  {
    if !Running(s, t) || Enabled(s, t) then 0
    else if Mutations in s.threads[t].held then (if s.threads[t].rest[0].Parked? then 3 else 1)
    else if s.threads[t].rest[0] == Acquire(Mutations) then 4
    else 2
  }

  lemma LockWaitsDescend(s: State, t: ThreadId, u: ThreadId, l: Lock)
    requires Inv(s) && Waits(s, t, u) && s.threads[t].rest[0] == Acquire(l)
    ensures Rank(s, u) < Rank(s, t) && Running(s, u)
  {
    assert Disciplined(s.threads[t].rest, s.threads[t].held);
    assert Disciplined(s.threads[u].rest, s.threads[u].held);
    assert l in s.threads[u].held;
    assert Allowed(s.threads[t].rest[0], s.threads[t].held) && Allowed(s.threads[u].rest[0], s.threads[u].held);
    if Mutations in s.threads[t].held {
      assert s.owner[Mutations] == t;
    }
  }

  lemma SleepWaitsDescend(s: State, t: ThreadId, u: ThreadId)
    requires Inv(s) && Waits(s, t, u) && s.threads[t].rest[0].Parked?
    ensures Rank(s, u) < Rank(s, t) && Running(s, u)
  {
    assert Disciplined(s.threads[t].rest, s.threads[t].held) && Disciplined(s.threads[u].rest, s.threads[u].held);
    assert Allowed(s.threads[t].rest[0], s.threads[t].held);
    assert s.owner[Mutations] == t;
    assert Keeps(s.threads[u].rest) && MustFinish(s.threads[u].rest);
    assert s.threads[u].rest[0] in s.threads[u].rest;
  }

  lemma WaitsDescend(s: State, t: ThreadId, u: ThreadId)
    requires Inv(s) && Waits(s, t, u)
    ensures Rank(s, u) < Rank(s, t) && Running(s, u)
  {
    match s.threads[t].rest[0]
    case Acquire(l) => LockWaitsDescend(s, t, u, l);
    case Parked => SleepWaitsDescend(s, t, u);
  }

  ghost predicate WaitPath(s: State, path: seq<ThreadId>) {
    && path != [] && path[0] in s.threads
    && forall i {:trigger path[i]} :: 0 <= i < |path| - 1 ==> Waits(s, path[i], path[i + 1])
  }

  ghost predicate Descends(s: State) {
    forall t, u {:trigger Waits(s, t, u)} :: Waits(s, t, u) ==> Rank(s, u) < Rank(s, t)
  }

  lemma {:induction false} PathDescends(s: State, path: seq<ThreadId>, i: nat)
    requires Descends(s) && WaitPath(s, path) && i < |path|
    ensures Rank(s, path[i]) + i <= Rank(s, path[0]) <= 4
  {
    if i > 0 {
      PathDescends(s, path, i - 1);
      assert Waits(s, path[i - 1], path[i - 1 + 1]);
    }
  }

  lemma {:induction false} PathTail(s: State, path: seq<ThreadId>, j: nat)
    requires WaitPath(s, path) && j < |path|
    ensures WaitPath(s, path[j..])
  {
    if j > 0 {
      PathTail(s, path, j - 1);
      var tail := path[j - 1..];
      assert Waits(s, tail[0], tail[0 + 1]);
      assert path[j..] == tail[1..];
      forall i | 0 <= i < |tail[1..]| - 1 ensures Waits(s, tail[1..][i], tail[1..][i + 1]) {
        assert Waits(s, tail[i + 1], tail[i + 1 + 1]);
      }
    }
  }

  lemma ChainsAreShort(s: State, path: seq<ThreadId>)
    requires Descends(s) && WaitPath(s, path)
    ensures |path| <= 5 && forall j, k :: 0 <= j < k < |path| ==> path[j] != path[k]
  {
    PathDescends(s, path, |path| - 1);
    forall j, k | 0 <= j < k < |path| ensures path[j] != path[k] {
      PathTail(s, path, j);
      PathDescends(s, path[j..], k - j);
    }
  }

  /** Deadlock freedom. In every reachable state, locks and condition variables together: a
      chain of waits has at most four links, so none closes into a cycle; and every thread
      that cannot move is at the start of a chain to one that can. */
  lemma NoDeadlock(states: seq<State>, steps: seq<Step>, i: nat)
    requires Run(states, steps) && i < |states|
    ensures forall path :: WaitPath(states[i], path) ==>
              |path| <= 5 && forall j, k :: 0 <= j < k < |path| ==> path[j] != path[k]
    ensures forall t :: Running(states[i], t) ==>
              exists path :: WaitPath(states[i], path) && path[0] == t && Enabled(states[i], path[|path| - 1])
  {
    var s := states[i];
    Reachable(states, steps, i);
    InvDescends(s);
    forall path | WaitPath(s, path)
      ensures |path| <= 5 && forall j, k :: 0 <= j < k < |path| ==> path[j] != path[k]
    {
      ChainsAreShort(s, path);
    }
    forall t | Running(s, t)
      ensures exists path :: WaitPath(s, path) && path[0] == t && Enabled(s, path[|path| - 1])
    {
      var path := ChainToMover(s, t);
    }
  }

  lemma InvDescends(s: State)
    requires Inv(s)
    ensures Descends(s)
  {
    forall t, u | Waits(s, t, u) ensures Rank(s, u) < Rank(s, t) {
      WaitsDescend(s, t, u);
    }
  }

  /** Whoever is stuck waits for someone. */
  lemma StuckWaits(s: State, t: ThreadId) returns (u: ThreadId)
    requires Inv(s) && Running(s, t) && !Enabled(s, t)
    ensures Waits(s, t, u)
  {
    match s.threads[t].rest[0]
    case Acquire(l) => u := s.owner[l];
    case Parked =>
      if s.busy {
        u :| u in s.threads && WillClear(s.threads[u].rest);
      } else {
        u :| u in s.threads && NotifyIdle in s.threads[u].rest;
      }
  }

  lemma {:induction false} ChainToMover(s: State, t: ThreadId) returns (path: seq<ThreadId>)
    requires Inv(s) && Running(s, t)
    ensures WaitPath(s, path) && path[0] == t && Enabled(s, path[|path| - 1])
    decreases Rank(s, t)
  {
    path := [t];
    if !Enabled(s, t) {
      var u := StuckWaits(s, t);
      WaitsDescend(s, t, u);
      var rest := ChainToMover(s, u);
      path := [t] + rest;
      forall i | 0 <= i < |path| - 1 ensures Waits(s, path[i], path[i + 1]) {
        if i > 0 { assert Waits(s, rest[i - 1], rest[i - 1 + 1]); }
      }
    }
  }

  // ---------- A raised flag can be lowered ----------

  /** A continuation by threads already there: no request arrives, no chance wake-up helps. */
  ghost predicate Path(states: seq<State>, steps: seq<Step>) {
    && |states| == |steps| + 1
    && forall i {:trigger steps[i]} :: 0 <= i < |steps| ==>
         steps[i].Perform? && Next(states[i], states[i + 1], steps[i])
  }

  lemma PathCons(s: State, step: Step, states: seq<State>, steps: seq<Step>)
    requires Path(states, steps) && step.Perform? && Next(s, states[0], step)
    ensures Path([s] + states, [step] + steps)
  {
    var xs, ys := [s] + states, [step] + steps;
    forall i | 0 <= i < |ys| ensures ys[i].Perform? && Next(xs[i], xs[i + 1], ys[i]) {
      if i > 0 { assert ys[i] == steps[i - 1]; }
    }
  }

  lemma FreshThread(s: State) returns (child: ThreadId)
    ensures child !in s.threads
  {
    child := Bound(s.threads.Keys);
  }

  lemma {:induction false} Bound(ids: set<nat>) returns (n: nat)
    ensures forall i :: i in ids ==> i < n
  {
    if ids == {} {
      n := 0;
    } else {
      var i :| i in ids;
      var m := Bound(ids - {i});
      n := if i < m then m else i + 1;
      assert forall j :: j in ids ==> j == i || j in ids - {i};
    }
  }

  /** How much the guardian has left, its waiter's program included if it has yet to spawn it. */
  function ToClear(ops: seq<Op>): nat {
    |ops| + if ClearBusy in ops then 0 else 8
  }

  /** The owner of the lock that t asks for, or t itself. */
  function OwnerOf(s: State, t: ThreadId): ThreadId {
    if Running(s, t) && s.threads[t].rest[0].Acquire? && s.threads[t].rest[0].lock in s.owner
    then s.owner[s.threads[t].rest[0].lock] else t
  }

  /** How much that owner has left; nothing once the lock is free. */
  function OwnerLeft(s: State, t: ThreadId): nat {
    if OwnerOf(s, t) != t && OwnerOf(s, t) in s.threads then |s.threads[OwnerOf(s, t)].rest| + 1 else 0
  }

  ghost predicate Guardian(s: State, w: ThreadId) {
    w in s.threads && WillClear(s.threads[w].rest)
  }

  /** The guardian moves: nearer to the flag. */
  lemma GuardianMoves(s: State, w: ThreadId, child: ThreadId) returns (w': ThreadId)
    requires Inv(s) && Guardian(s, w) && Enabled(s, w) && child !in s.threads
    ensures var s' := Perform'(s, w, child);
            s'.busy ==> Guardian(s', w') && ToClear(s'.threads[w'].rest) < ToClear(s.threads[w].rest)
  {
    var ops := s.threads[w].rest;
    w' := w;
    assert Keeps(ops) && ops[0] in ops;
    StillToCome(ops);
    assert ClearBusy in ops && !ops[0].ClearBusy? ==> ClearBusy in ops[1..] by {
      assert forall op :: op in ops <==> op == ops[0] || op in ops[1..];
    }
    if ops[0].Spawn? && ops[0].job.CodexWaiter? && ClearBusy !in ops {
      w' := child;
      WaiterClears(ops[0].job.session);
      WaiterLength(ops[0].job.session);
    }
  }

  lemma WaiterLength(id: nat)
    ensures ToClear(Program(CodexWaiter(id))) == 7
  {
    assert ClearBusy in LOWER_AND_WAKE;
    assert Program(CodexWaiter(id)) == ReportExit(id) + LOWER_AND_WAKE;
  }

  /** A thread that owns a lock others may wait for without sleeping moves: it lets the lock
      go, or comes nearer to that; nobody else changes. */
  lemma OwnerMoves(s: State, u: ThreadId, child: ThreadId, l: Lock)
    requires Inv(s) && Enabled(s, u) && child !in s.threads && l != Mutations && l in s.owner && s.owner[l] == u
    ensures var s' := Perform'(s, u, child);
            && u in s'.threads
            && (l in s'.owner ==> s'.owner[l] == u && |s'.threads[u].rest| < |s.threads[u].rest|)
            && forall t :: t in s.threads && t != u ==> t in s'.threads && s'.threads[t] == s.threads[t]
  {
    assert Disciplined(s.threads[u].rest, s.threads[u].held);
    assert Allowed(s.threads[u].rest[0], s.threads[u].held);
    assert l in s.threads[u].held;
  }

  /** Moving the owner of the lock that t asks for shortens what it has left. */
  lemma OwnerLeftFalls(s: State, t: ThreadId, child: ThreadId)
    requires Inv(s) && Running(s, t) && s.threads[t].rest[0].Acquire? && s.threads[t].rest[0].lock != Mutations
    requires OwnerOf(s, t) != t && Enabled(s, OwnerOf(s, t)) && child !in s.threads
    ensures var s' := Perform'(s, OwnerOf(s, t), child);
            t in s'.threads && s'.threads[t] == s.threads[t] && OwnerLeft(s', t) < OwnerLeft(s, t)
  {
    OwnerMoves(s, OwnerOf(s, t), child, s.threads[t].rest[0].lock);
  }

  /** A stuck guardian asks for a lock, never `Mutations`; a stuck owner of that lock asks for
      another, whose owner is not stuck. */
  lemma StuckGuardian(s: State, w: ThreadId)
    requires Inv(s) && s.busy && Guardian(s, w) && !Enabled(s, w)
    ensures var u := OwnerOf(s, w);
            && Running(s, w) && s.threads[w].rest[0].Acquire? && s.threads[w].rest[0].lock != Mutations
            && u != w && Running(s, u)
            && (!Enabled(s, u) ==>
                  && s.threads[u].rest[0].Acquire? && s.threads[u].rest[0].lock != Mutations
                  && OwnerOf(s, u) != u && OwnerOf(s, u) != w && Enabled(s, OwnerOf(s, u)))
  {
    var ops := s.threads[w].rest;
    assert Keeps(ops) && MustFinish(ops) && ops[0] in ops;
    var u := OwnerOf(s, w);
    assert Waits(s, w, u);
    WaitsDescend(s, w, u);
    if !Enabled(s, u) {
      assert Disciplined(s.threads[u].rest, s.threads[u].held);
      var v := OwnerOf(s, u);
      assert s.threads[w].rest[0].lock in s.threads[u].held;
      assert Waits(s, u, v);
      WaitsDescend(s, u, v);
      assert Mutations in s.threads[u].held;
    }
  }

  lemma ThirdMoves(s: State, w: ThreadId, child: ThreadId)
    requires Inv(s) && s.busy && Guardian(s, w) && !Enabled(s, w) && !Enabled(s, OwnerOf(s, w)) && child !in s.threads
    ensures var u := OwnerOf(s, w);
            var v := OwnerOf(s, u);
            && Enabled(s, v) && v != w
            && var s' := Perform'(s, v, child);
               && w in s'.threads && s'.threads[w] == s.threads[w]
               && OwnerOf(s', w) == u && OwnerLeft(s', w) == OwnerLeft(s, w)
               && OwnerLeft(s', u) < OwnerLeft(s, u)
  {
    StuckGuardian(s, w);
    var u := OwnerOf(s, w);
    OwnerLeftFalls(s, u, child);
    var l := s.threads[w].rest[0].lock;
    assert l in s.threads[u].held;
    OwnerKeeps(s, OwnerOf(s, u), child, l);
  }

  /** A lock stays with its owner while another thread moves. */
  lemma OwnerKeeps(s: State, v: ThreadId, child: ThreadId, l: Lock)
    requires Inv(s) && Enabled(s, v) && child !in s.threads && l in s.owner && s.owner[l] != v
    ensures l in Perform'(s, v, child).owner && Perform'(s, v, child).owner[l] == s.owner[l]
    ensures forall t :: t in s.threads && t != v ==>
              t in Perform'(s, v, child).threads && Perform'(s, v, child).threads[t] == s.threads[t]
  {
    assert Disciplined(s.threads[v].rest, s.threads[v].held);
    assert Allowed(s.threads[v].rest[0], s.threads[v].held);
  }

  /** From every state with the flag up, threads that are already there can bring it down:
      the guardian, or whoever stands between it and its next lock, is always able to move. */
  lemma {:induction false} FlagFalls(s: State, w: ThreadId) returns (states: seq<State>, steps: seq<Step>)
    requires Inv(s) && (s.busy ==> Guardian(s, w))
    ensures Path(states, steps) && states[0] == s && !states[|states| - 1].busy
    decreases if s.busy then 1 else 0,
              if w in s.threads then ToClear(s.threads[w].rest) else 0, OwnerLeft(s, w), OwnerLeft(s, OwnerOf(s, w))
  {
    if !s.busy {
      states, steps := [s], [];
    } else {
      var child := FreshThread(s);
      var mover, w' := w, w;
      if Enabled(s, w) {
        w' := GuardianMoves(s, w, child);
      } else {
        StuckGuardian(s, w);
        mover := OwnerOf(s, w);
        if Enabled(s, mover) {
          OwnerLeftFalls(s, w, child);
        } else {
          mover := OwnerOf(s, mover);
          ThirdMoves(s, w, child);
        }
      }
      var s' := Perform'(s, mover, child);
      InvStep(s, s', Perform(mover, child));
      states, steps := FlagFalls(s', w');
      PathCons(s, Perform(mover, child), states, steps);
      states, steps := [s] + states, [Perform(mover, child)] + steps;
    }
  }

  /** From every reachable state there is a way on, by the present threads alone, to a state
      with the flag down. */
  lemma BusyEnds(states: seq<State>, steps: seq<Step>, i: nat)
    returns (more: seq<State>, moves: seq<Step>)
    requires Run(states, steps) && i < |states|
    ensures Path(more, moves) && more[0] == states[i] && !more[|more| - 1].busy
  {
    Reachable(states, steps, i);
    var w: nat := 0;
    if states[i].busy {
      w :| w in states[i].threads && WillClear(states[i].threads[w].rest);
    }
    more, moves := FlagFalls(states[i], w);
  }
}
