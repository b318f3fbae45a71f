/**
 The guest service's locking, lock by lock: every request and background thread as the
 sequence of lock operations it performs, for any sessions it walks over and any number of
 repeated waits. A condition-variable wait with a timeout is a release, a pause and a new
 acquisition; waiting for the busy flag parks the thread until it is notified. Every program
 keeps one discipline, stated and proved here; the machine that interleaves the programs, and
 what follows for it, is `GuestDeadlock`.
 */
module GuestLocks {
  import opened Wrappers

  type ThreadId = nat

  datatype Lock =
    | Mutations | Busy
    | CodexIdempotency | CodexExecs | ExecOutput(session: nat)
    | Terminals | TerminalMaster(session: nat) | TerminalWriter(session: nat) | TerminalOutput(session: nat)
    | ClaudeIdempotency | ClaudeSetups | SetupWriter(session: nat) | SetupOutput(session: nat)

  datatype Op =
    | Acquire(lock: Lock)
    | Release(lock: Lock)
    /** Under `Busy`: go on if the flag is down, else give the lock back and park. */
    | CheckIdle
    /** Parked on `codex_busy_changed`. */
    | Parked
    | SetBusy
    | ClearBusy
    | NotifyIdle
    | Spawn(job: Job)
    /** Computation, I/O or a timed pause, with no lock operation. */
    | Work

  /** One turn of the terminal pool's reclaim loop: sessions looked at, one closed. */
  datatype Round = Round(peeked: seq<nat>, closed: nat)

  /** The service's threads. The sequences name the sessions a loop walks over; `waits` is
      how often a timed wait repeats; `pauses` how often a reader waits for room, chunk by chunk. */
  datatype Job =
    | Flush | WriteFile
    | ExecCommand(closed: Option<seq<nat>>)
    | FailTerminal(retained: seq<nat>, rounds: seq<Round>)
    | StartTerminal(retained: seq<nat>, rounds: seq<Round>, session: nat, pauses: seq<nat>)
    | CloseTerminal(session: nat) | InputTerminal(session: nat) | ResizeTerminal(session: nat)
    | PollTerminal(session: nat, waits: nat)
    | TerminalReader(session: nat, pauses: seq<nat>) | TerminalWaiter(session: nat)
    | RetryCodex | FailCodex(peeked: seq<nat>, closed: Option<seq<nat>>)
    | StartCodex(peeked: seq<nat>, closed: Option<seq<nat>>, session: nat, pauses: seq<nat>)
    | PollCodex(session: nat, waits: nat) | CloseCodex
    | CodexReader(session: nat, pauses: seq<nat>) | CodexWaiter(session: nat)
    | ReattachClaude(session: nat) | FailClaude(stale: seq<nat>, peeked: seq<nat>)
    | StartClaude(stale: seq<nat>, peeked: seq<nat>, session: nat, waits: nat, urlSeen: bool, pauses: seq<nat>)
    | InputClaude(session: nat) | PollClaude(session: nat, waits: nat) | CloseClaude(session: nat, waits: nat)
    | ClaudeReader(session: nat, pauses: seq<nat>) | ClaudeWaiter(session: nat)
    | RuntimeActivity | TerminalNotFound | ClaudeNotFound

  // ---------- The programs ----------

  function Touch(l: Lock): seq<Op> { [Acquire(l), Release(l)] }

  function TouchAll(ids: seq<nat>, lock: nat -> Lock): seq<Op> {
    if ids == [] then [] else Touch(lock(ids[0])) + TouchAll(ids[1..], lock)
  }

  /** A timed wait on a lock's condition variable, repeated. */
  function TimedWaits(l: Lock, n: nat): seq<Op> {
    if n == 0 then [] else [Release(l), Work, Acquire(l)] + TimedWaits(l, n - 1)
  }

  function ForceClose(id: nat): seq<Op> {
    [Acquire(TerminalWriter(id)), Work, Release(TerminalWriter(id))] + Touch(TerminalOutput(id))
  }

  function ForceCloseAll(ids: seq<nat>): seq<Op> {
    if ids == [] then [] else ForceClose(ids[0]) + ForceCloseAll(ids[1..])
  }

  function Reclaim(rounds: seq<Round>): seq<Op> {
    if rounds == [] then []
    else TouchAll(rounds[0].peeked, TERMINAL_OUTPUT) + ForceClose(rounds[0].closed) + Reclaim(rounds[1..])
  }

  /** One section per chunk, each waiting for room as often as it must. */
  function Reads(l: Lock, pauses: seq<nat>): seq<Op> {
    if pauses == [] then []
    else [Work, Acquire(l)] + TimedWaits(l, pauses[0]) + [Release(l)] + Reads(l, pauses[1..])
  }

  const GATE: seq<Op> := [Acquire(Busy), CheckIdle, Release(Busy)]

  const EXEC_OUTPUT: nat -> Lock := (id: nat) => ExecOutput(id)
  const TERMINAL_OUTPUT: nat -> Lock := (id: nat) => TerminalOutput(id)
  const SETUP_OUTPUT: nat -> Lock := (id: nat) => SetupOutput(id)

  /** Before provider auth is materialized where shells could read it: drain the terminals and
      close them one by one. An `exec` without auth, and a start where shells are isolated, skip
      this. */
  function CloseTerminals(closed: Option<seq<nat>>): seq<Op> {
    if closed.None? then [] else Touch(Terminals) + ForceCloseAll(closed.value)
  }

  /** Drop what has ended, then make room. */
  function MakeRoom(retained: seq<nat>, rounds: seq<Round>): seq<Op> {
    GATE + [Acquire(Terminals)] + TouchAll(retained, TERMINAL_OUTPUT) + Reclaim(rounds) + [Release(Terminals), Work]
  }

  /** What `start_codex_exec` does between its gate and its registration. */
  function PrepareCodex(peeked: seq<nat>, closed: Option<seq<nat>>): seq<Op> {
    [Acquire(CodexExecs)] + TouchAll(peeked, EXEC_OUTPUT) + [Release(CodexExecs)]
    + CloseTerminals(closed) + [Work]
  }

  /** From the gate to the busy flag: list the session, record its key, take the flag's lock. */
  function EnterCodex(peeked: seq<nat>, closed: Option<seq<nat>>): seq<Op> {
    [Acquire(Mutations)] + (Touch(CodexIdempotency) + GATE + PrepareCodex(peeked, closed))
    + Touch(CodexExecs) + Touch(CodexIdempotency) + [Acquire(Busy)]
  }

  function RaiseAndSpawn(reader: Job, waiter: Job): seq<Op> {
    [SetBusy, Release(Busy), Spawn(reader), Spawn(waiter), Release(Mutations)]
  }

  /** The waiter: watch the child, record its exit, then see to the flag. */
  function ReportExit(id: nat): seq<Op> {
    [Work] + Touch(ExecOutput(id)) + [Acquire(Busy)]
  }

  const LOWER_AND_WAKE: seq<Op> := [ClearBusy, Release(Busy), NotifyIdle]

  /** Under the idempotency lock, find the key's session and see whether it has its URL. */
  function LookUpClaude(found: seq<nat>): seq<Op> {
    [Acquire(ClaudeIdempotency)] + Touch(ClaudeSetups) + TouchAll(found, SETUP_OUTPUT) + [Release(ClaudeIdempotency)]
  }

  /** Reap the finished logins and spawn the new one. */
  function ReapClaude(peeked: seq<nat>): seq<Op> {
    [Acquire(ClaudeSetups)] + TouchAll(peeked, SETUP_OUTPUT) + [Release(ClaudeSetups)] + Touch(ClaudeIdempotency)
    + [Work]
  }

  /** Then register it. */
  function PrepareClaude(peeked: seq<nat>): seq<Op> {
    ReapClaude(peeked) + Touch(ClaudeSetups) + Touch(ClaudeIdempotency)
  }

  /** Wait for the login URL under the session's output lock; without one, unlist the session. */
  function AwaitUrl(id: nat, waits: nat, urlSeen: bool): seq<Op> {
    [Acquire(SetupOutput(id))] + TimedWaits(SetupOutput(id), waits)
    + (if urlSeen then [] else Touch(ClaudeSetups)) + [Release(SetupOutput(id))]
  }

  function UnderMutations(body: seq<Op>): seq<Op> {
    [Acquire(Mutations)] + body + [Release(Mutations)]
  }

  function Program(job: Job): seq<Op> {
    match job
    case Flush => UnderMutations(GATE + [Work])
    case WriteFile => UnderMutations(GATE + [Work])
    case ExecCommand(closed) => UnderMutations(GATE + CloseTerminals(closed) + [Work])
    case FailTerminal(retained, rounds) => UnderMutations(MakeRoom(retained, rounds))
    case StartTerminal(retained, rounds, id, pauses) =>
      UnderMutations(
        MakeRoom(retained, rounds) + Touch(Terminals)
        + [Spawn(TerminalReader(id, pauses)), Spawn(TerminalWaiter(id))])
    case CloseTerminal(id) => Touch(Terminals) + ForceClose(id)
    case InputTerminal(id) => Touch(Terminals) + [Acquire(TerminalWriter(id)), Work, Release(TerminalWriter(id))]
    case ResizeTerminal(id) => Touch(Terminals) + [Acquire(TerminalMaster(id)), Work, Release(TerminalMaster(id))]
    case PollTerminal(id, waits) =>
      Touch(Terminals)
      + [Acquire(TerminalOutput(id))] + TimedWaits(TerminalOutput(id), waits) + [Release(TerminalOutput(id))]
    case TerminalReader(id, pauses) => Reads(TerminalOutput(id), pauses) + Touch(TerminalOutput(id))
    case TerminalWaiter(id) => [Work] + Touch(TerminalOutput(id))
    case RetryCodex => UnderMutations(Touch(CodexIdempotency))
    case FailCodex(peeked, closed) =>
      UnderMutations(Touch(CodexIdempotency) + GATE + PrepareCodex(peeked, closed))
    case StartCodex(peeked, closed, id, pauses) =>
      EnterCodex(peeked, closed) + RaiseAndSpawn(CodexReader(id, pauses), CodexWaiter(id))
    case PollCodex(id, waits) =>
      Touch(CodexExecs) + [Acquire(ExecOutput(id))] + TimedWaits(ExecOutput(id), waits) + [Release(ExecOutput(id))]
    case CloseCodex => Touch(CodexExecs)
    case CodexReader(id, pauses) => Reads(ExecOutput(id), pauses) + Touch(ExecOutput(id))
    case CodexWaiter(id) => ReportExit(id) + LOWER_AND_WAKE
    case ReattachClaude(id) =>
      UnderMutations(LookUpClaude([id]))
    case FailClaude(stale, peeked) => UnderMutations(LookUpClaude(stale) + GATE + ReapClaude(peeked))
    case StartClaude(stale, peeked, id, waits, urlSeen, pauses) =>
      UnderMutations(
        LookUpClaude(stale) + GATE + PrepareClaude(peeked)
        + [Spawn(ClaudeReader(id, pauses)), Spawn(ClaudeWaiter(id))] + AwaitUrl(id, waits, urlSeen))
    case InputClaude(id) => Touch(ClaudeSetups) + [Acquire(SetupWriter(id)), Work, Release(SetupWriter(id))]
    case PollClaude(id, waits) =>
      Touch(ClaudeSetups) + [Acquire(SetupOutput(id))] + TimedWaits(SetupOutput(id), waits) + [Release(SetupOutput(id))]
    case CloseClaude(id, waits) =>
      Touch(ClaudeSetups) + [Acquire(SetupOutput(id))] + TimedWaits(SetupOutput(id), waits)
      + [Release(SetupOutput(id)), Work] + Touch(ClaudeSetups)
    case ClaudeReader(id, pauses) => Reads(SetupOutput(id), pauses) + Touch(SetupOutput(id))
    case ClaudeWaiter(id) => [Work] + Touch(SetupOutput(id))
    case RuntimeActivity => Touch(Busy)
    case TerminalNotFound => Touch(Terminals)
    case ClaudeNotFound => Touch(ClaudeSetups)
  }

  // ---------- The discipline ----------

  /** The locks held after one operation, if the discipline allows it: a thread takes a lock
      while holding others only under `Mutations`, which it takes first; it never takes a
      lock it holds; it parks holding only `Mutations`. */
  predicate Allowed(op: Op, held: set<Lock>) {
    match op
    case Acquire(l) => l !in held && (held != {} ==> Mutations in held)
    case Release(l) => l in held
    case CheckIdle => held == {Mutations, Busy}
    case Parked => held == {Mutations}
    case SetBusy => held == {Mutations, Busy}
    case ClearBusy => held == {Busy}
    case _ => true
  }

  function After(op: Op, held: set<Lock>): set<Lock> {
    match op
    case Acquire(l) => held + {l}
    case Release(l) => held - {l}
    case _ => held
  }

  predicate Disciplined(ops: seq<Op>, held: set<Lock>) {
    if ops == [] then held == {}
    else Allowed(ops[0], held) && Disciplined(ops[1..], After(ops[0], held))
  }

  /** Nothing about the busy flag but looking at it. */
  predicate Quiet(op: Op) {
    !op.SetBusy? && !op.ClearBusy? && !op.NotifyIdle? && !(op.Spawn? && op.job.CodexWaiter?)
  }

  /** `ops` leads quietly from holding `a` to holding `b`. */
  predicate Leads(ops: seq<Op>, a: set<Lock>, b: set<Lock>) {
    if ops == [] then a == b
    else Quiet(ops[0]) && Allowed(ops[0], a) && Leads(ops[1..], After(ops[0], a), b)
  }

  lemma {:induction false} LeadsConcat(x: seq<Op>, y: seq<Op>, a: set<Lock>, b: set<Lock>, c: set<Lock>)
    requires Leads(x, a, b) && Leads(y, b, c)
    ensures Leads(x + y, a, c)
  {
    if x == [] {
      assert x + y == y;
    } else {
      LeadsConcat(x[1..], y, After(x[0], a), b, c);
      assert (x + y)[1..] == x[1..] + y;
    }
  }

  lemma LeadsCons(op: Op, rest: seq<Op>, a: set<Lock>, b: set<Lock>)
    ensures Leads([op] + rest, a, b) <==> Quiet(op) && Allowed(op, a) && Leads(rest, After(op, a), b)
  {
    assert ([op] + rest)[1..] == rest;
  }

  lemma Leads2(x: Op, y: Op, a: set<Lock>)
    requires Quiet(x) && Quiet(y) && Allowed(x, a) && Allowed(y, After(x, a))
    ensures Leads([x, y], a, After(y, After(x, a)))
  {
    LeadsCons(x, [y], a, After(y, After(x, a)));
    assert [x] + [y] == [x, y];
  }

  lemma Leads3(x: Op, y: Op, z: Op, a: set<Lock>)
    requires Quiet(x) && Quiet(y) && Quiet(z)
    requires Allowed(x, a) && Allowed(y, After(x, a)) && Allowed(z, After(y, After(x, a)))
    ensures Leads([x, y, z], a, After(z, After(y, After(x, a))))
  {
    Leads2(y, z, After(x, a));
    LeadsCons(x, [y, z], a, After(z, After(y, After(x, a))));
    assert [x] + [y, z] == [x, y, z];
  }

  lemma {:induction false} TouchAllLeads(ids: seq<nat>, lock: nat -> Lock, held: set<Lock>)
    requires held != {} ==> Mutations in held
    requires forall id :: lock(id) !in held && lock(id) != Mutations
    ensures Leads(TouchAll(ids, lock), held, held)
  {
    if ids != [] {
      TouchAllLeads(ids[1..], lock, held);
      TouchLeads(lock(ids[0]), held);
      LeadsConcat(Touch(lock(ids[0])), TouchAll(ids[1..], lock), held, held, held);
    }
  }

  lemma TouchLeads(l: Lock, held: set<Lock>)
    requires l !in held && (held != {} ==> Mutations in held)
    ensures Leads(Touch(l), held, held)
  {
    Leads2(Acquire(l), Release(l), held);
    assert held + {l} - {l} == held;
  }

  lemma SectionLeads(l: Lock, held: set<Lock>)
    requires l !in held && (held != {} ==> Mutations in held)
    ensures Leads([Acquire(l), Work, Release(l)], held, held)
  {
    Leads3(Acquire(l), Work, Release(l), held);
    assert held + {l} - {l} == held;
  }

  lemma {:induction false} TimedWaitsLead(l: Lock, n: nat, held: set<Lock>)
    requires l in held && (held - {l} != {} ==> Mutations in held - {l})
    ensures Leads(TimedWaits(l, n), held, held)
  {
    if n > 0 {
      TimedWaitsLead(l, n - 1, held);
      assert held - {l} + {l} == held;
      Leads3(Release(l), Work, Acquire(l), held);
      LeadsConcat([Release(l), Work, Acquire(l)], TimedWaits(l, n - 1), held, held, held);
    }
  }

  lemma ForceCloseLeads(id: nat, held: set<Lock>)
    requires TerminalWriter(id) !in held && TerminalOutput(id) !in held && (held != {} ==> Mutations in held)
    ensures Leads(ForceClose(id), held, held)
  {
    SectionLeads(TerminalWriter(id), held);
    TouchLeads(TerminalOutput(id), held);
    LeadsConcat(
      [Acquire(TerminalWriter(id)), Work, Release(TerminalWriter(id))], Touch(TerminalOutput(id)), held, held, held);
  }

  lemma {:induction false} ForceCloseAllLeads(ids: seq<nat>, held: set<Lock>)
    requires held == {Mutations}
    ensures Leads(ForceCloseAll(ids), held, held)
  {
    if ids != [] {
      ForceCloseLeads(ids[0], held);
      ForceCloseAllLeads(ids[1..], held);
      LeadsConcat(ForceClose(ids[0]), ForceCloseAll(ids[1..]), held, held, held);
    }
  }

  lemma {:induction false} ReclaimLeads(rounds: seq<Round>)
    ensures Leads(Reclaim(rounds), {Mutations, Terminals}, {Mutations, Terminals})
  {
    if rounds != [] {
      var held := {Mutations, Terminals};
      TouchAllLeads(rounds[0].peeked, TERMINAL_OUTPUT, held);
      ForceCloseLeads(rounds[0].closed, held);
      ReclaimLeads(rounds[1..]);
      var x, y := TouchAll(rounds[0].peeked, TERMINAL_OUTPUT), ForceClose(rounds[0].closed);
      LeadsConcat(x, y, held, held, held);
      LeadsConcat(x + y, Reclaim(rounds[1..]), held, held, held);
    }
  }

  lemma {:induction false} ReadsLead(l: Lock, pauses: seq<nat>)
    requires l != Mutations
    ensures Leads(Reads(l, pauses), {}, {})
  {
    if pauses != [] {
      TimedWaitsLead(l, pauses[0], {l});
      ReadsLead(l, pauses[1..]);
      var x := [Work, Acquire(l)];
      assert {} + {l} == {l} && {l} - {l} == {};
      Leads2(Work, Acquire(l), {});
      LeadsConcat(x, TimedWaits(l, pauses[0]), {}, {l}, {l});
      LeadsConcat(x + TimedWaits(l, pauses[0]), [Release(l)], {}, {l}, {});
      LeadsConcat(x + TimedWaits(l, pauses[0]) + [Release(l)], Reads(l, pauses[1..]), {}, {}, {});
    }
  }

  lemma GateLeads()
    ensures Leads(GATE, {Mutations}, {Mutations})
  {
    assert {Mutations} + {Busy} == {Mutations, Busy} && {Mutations, Busy} - {Busy} == {Mutations};
    Leads3(Acquire(Busy), CheckIdle, Release(Busy), {Mutations});
  }

  lemma UnderMutationsDisciplined(body: seq<Op>)
    requires Leads(body, {Mutations}, {Mutations})
    ensures Leads(UnderMutations(body), {}, {})
  {
    var x, z := [Acquire(Mutations)], [Release(Mutations)];
    assert {} + {Mutations} == {Mutations} && {Mutations} - {Mutations} == {};
    LeadsConcat(x, body, {}, {Mutations}, {Mutations});
    LeadsConcat(x + body, z, {}, {Mutations}, {});
  }

  lemma {:induction false} LeadsDisciplined(ops: seq<Op>, held: set<Lock>)
    requires Leads(ops, held, {})
    ensures Disciplined(ops, held)
  {
    if ops != [] {
      LeadsDisciplined(ops[1..], After(ops[0], held));
    }
  }

  lemma CloseTerminalsLeads(closed: Option<seq<nat>>)
    ensures Leads(CloseTerminals(closed), {Mutations}, {Mutations})
  {
    if closed.Some? {
      TouchLeads(Terminals, {Mutations});
      ForceCloseAllLeads(closed.value, {Mutations});
      LeadsConcat(Touch(Terminals), ForceCloseAll(closed.value), {Mutations}, {Mutations}, {Mutations});
    }
  }

  lemma PrepareCodexLeads(peeked: seq<nat>, closed: Option<seq<nat>>)
    ensures Leads(PrepareCodex(peeked, closed), {Mutations}, {Mutations})
  {
    var m, e := {Mutations}, {Mutations, CodexExecs};
    assert m + {CodexExecs} == e && e - {CodexExecs} == m;
    TouchAllLeads(peeked, EXEC_OUTPUT, e);
    CloseTerminalsLeads(closed);
    var x, y := [Acquire(CodexExecs)], TouchAll(peeked, EXEC_OUTPUT);
    LeadsConcat(x, y, m, e, e);
    LeadsConcat(x + y, [Release(CodexExecs)], m, e, m);
    LeadsConcat(x + y + [Release(CodexExecs)], CloseTerminals(closed), m, m, m);
    LeadsConcat(x + y + [Release(CodexExecs)] + CloseTerminals(closed), [Work], m, m, m);
  }

  /** Open a section on l, wait in it, close it. */
  lemma WaitingSectionLeads(l: Lock, waits: nat)
    requires l != Mutations
    ensures Leads([Acquire(l)] + TimedWaits(l, waits) + [Release(l)], {}, {})
  {
    assert {} + {l} == {l} && {l} - {l} == {};
    TimedWaitsLead(l, waits, {l});
    LeadsConcat([Acquire(l)], TimedWaits(l, waits), {}, {l}, {l});
    LeadsConcat([Acquire(l)] + TimedWaits(l, waits), [Release(l)], {}, {l}, {});
  }

  lemma TouchThenWait(first: Lock, l: Lock, waits: nat)
    requires l != Mutations && first != Mutations
    ensures Leads(Touch(first) + [Acquire(l)] + TimedWaits(l, waits) + [Release(l)], {}, {})
  {
    TouchLeads(first, {});
    WaitingSectionLeads(l, waits);
    LeadsConcat(Touch(first), [Acquire(l)] + TimedWaits(l, waits) + [Release(l)], {}, {}, {});
    assert Touch(first) + [Acquire(l)] + TimedWaits(l, waits) + [Release(l)]
        == Touch(first) + ([Acquire(l)] + TimedWaits(l, waits) + [Release(l)]);
  }

  lemma TouchThenSection(first: Lock, l: Lock)
    requires l != Mutations && first != Mutations
    ensures Leads(Touch(first) + [Acquire(l), Work, Release(l)], {}, {})
  {
    TouchLeads(first, {});
    SectionLeads(l, {});
    LeadsConcat(Touch(first), [Acquire(l), Work, Release(l)], {}, {}, {});
  }

  lemma CommandLeads(closed: Option<seq<nat>>)
    ensures Leads(Program(ExecCommand(closed)), {}, {})
  {
    var m := {Mutations};
    GateLeads();
    CloseTerminalsLeads(closed);
    LeadsConcat(GATE, CloseTerminals(closed), m, m, m);
    LeadsConcat(GATE + CloseTerminals(closed), [Work], m, m, m);
    UnderMutationsDisciplined(GATE + CloseTerminals(closed) + [Work]);
  }

  lemma MakeRoomLeads(retained: seq<nat>, rounds: seq<Round>)
    ensures Leads(MakeRoom(retained, rounds), {Mutations}, {Mutations})
  {
    var m, t := {Mutations}, {Mutations, Terminals};
    assert m + {Terminals} == t && t - {Terminals} == m;
    GateLeads();
    TouchAllLeads(retained, TERMINAL_OUTPUT, t);
    ReclaimLeads(rounds);
    Leads2(Release(Terminals), Work, t);
    var p1 := GATE + [Acquire(Terminals)];
    var p2 := p1 + TouchAll(retained, TERMINAL_OUTPUT);
    LeadsConcat(GATE, [Acquire(Terminals)], m, m, t);
    LeadsConcat(p1, TouchAll(retained, TERMINAL_OUTPUT), m, t, t);
    LeadsConcat(p2, Reclaim(rounds), m, t, t);
    LeadsConcat(p2 + Reclaim(rounds), [Release(Terminals), Work], m, t, m);
  }

  lemma StartTerminalLeads(retained: seq<nat>, rounds: seq<Round>, id: nat, pauses: seq<nat>)
    ensures Leads(Program(StartTerminal(retained, rounds, id, pauses)), {}, {})
  {
    var m := {Mutations};
    var p, spawn := MakeRoom(retained, rounds), [Spawn(TerminalReader(id, pauses)), Spawn(TerminalWaiter(id))];
    MakeRoomLeads(retained, rounds);
    TouchLeads(Terminals, m);
    Leads2(Spawn(TerminalReader(id, pauses)), Spawn(TerminalWaiter(id)), m);
    LeadsConcat(p, Touch(Terminals), m, m, m);
    LeadsConcat(p + Touch(Terminals), spawn, m, m, m);
    UnderMutationsDisciplined(p + Touch(Terminals) + spawn);
  }

  lemma FailCodexLeads(peeked: seq<nat>, closed: Option<seq<nat>>)
    ensures Leads(Touch(CodexIdempotency) + GATE + PrepareCodex(peeked, closed), {Mutations}, {Mutations})
  {
    var m := {Mutations};
    GateLeads();
    TouchLeads(CodexIdempotency, m);
    PrepareCodexLeads(peeked, closed);
    LeadsConcat(Touch(CodexIdempotency), GATE, m, m, m);
    LeadsConcat(Touch(CodexIdempotency) + GATE, PrepareCodex(peeked, closed), m, m, m);
  }

  lemma EnterCodexLeads(peeked: seq<nat>, closed: Option<seq<nat>>)
    ensures Leads(EnterCodex(peeked, closed), {}, {Mutations, Busy})
  {
    var m := {Mutations};
    assert {} + {Mutations} == m && m + {Busy} == {Mutations, Busy};
    FailCodexLeads(peeked, closed);
    TouchLeads(CodexExecs, m);
    TouchLeads(CodexIdempotency, m);
    var body := Touch(CodexIdempotency) + GATE + PrepareCodex(peeked, closed);
    var p := [Acquire(Mutations)] + body;
    LeadsConcat([Acquire(Mutations)], body, {}, m, m);
    LeadsConcat(p, Touch(CodexExecs), {}, m, m);
    LeadsConcat(p + Touch(CodexExecs), Touch(CodexIdempotency), {}, m, m);
    LeadsConcat(p + Touch(CodexExecs) + Touch(CodexIdempotency), [Acquire(Busy)], {}, m, {Mutations, Busy});
  }

  lemma LookUpClaudeLeads(found: seq<nat>)
    ensures Leads(LookUpClaude(found), {Mutations}, {Mutations})
  {
    var m, c := {Mutations}, {Mutations, ClaudeIdempotency};
    assert m + {ClaudeIdempotency} == c && c - {ClaudeIdempotency} == m;
    TouchLeads(ClaudeSetups, c);
    TouchAllLeads(found, SETUP_OUTPUT, c);
    var p := [Acquire(ClaudeIdempotency)];
    LeadsConcat(p, Touch(ClaudeSetups), m, c, c);
    LeadsConcat(p + Touch(ClaudeSetups), TouchAll(found, SETUP_OUTPUT), m, c, c);
    LeadsConcat(p + Touch(ClaudeSetups) + TouchAll(found, SETUP_OUTPUT), [Release(ClaudeIdempotency)], m, c, m);
  }

  lemma ReapClaudeLeads(peeked: seq<nat>)
    ensures Leads(ReapClaude(peeked), {Mutations}, {Mutations})
  {
    var m, c := {Mutations}, {Mutations, ClaudeSetups};
    assert m + {ClaudeSetups} == c && c - {ClaudeSetups} == m;
    TouchLeads(ClaudeIdempotency, m);
    TouchAllLeads(peeked, SETUP_OUTPUT, c);
    var p2 := [Acquire(ClaudeSetups)];
    var p3 := p2 + TouchAll(peeked, SETUP_OUTPUT);
    var p4 := p3 + [Release(ClaudeSetups)];
    LeadsConcat(p2, TouchAll(peeked, SETUP_OUTPUT), m, c, c);
    LeadsConcat(p3, [Release(ClaudeSetups)], m, c, m);
    LeadsConcat(p4, Touch(ClaudeIdempotency), m, m, m);
    LeadsConcat(p4 + Touch(ClaudeIdempotency), [Work], m, m, m);
  }

  lemma PrepareClaudeLeads(peeked: seq<nat>)
    ensures Leads(PrepareClaude(peeked), {Mutations}, {Mutations})
  {
    var m := {Mutations};
    ReapClaudeLeads(peeked);
    TouchLeads(ClaudeSetups, m);
    TouchLeads(ClaudeIdempotency, m);
    LeadsConcat(ReapClaude(peeked), Touch(ClaudeSetups), m, m, m);
    LeadsConcat(ReapClaude(peeked) + Touch(ClaudeSetups), Touch(ClaudeIdempotency), m, m, m);
  }

  lemma FailClaudeLeads(stale: seq<nat>, peeked: seq<nat>)
    ensures Leads(Program(FailClaude(stale, peeked)), {}, {})
  {
    var m := {Mutations};
    LookUpClaudeLeads(stale);
    GateLeads();
    ReapClaudeLeads(peeked);
    LeadsConcat(LookUpClaude(stale), GATE, m, m, m);
    LeadsConcat(LookUpClaude(stale) + GATE, ReapClaude(peeked), m, m, m);
    UnderMutationsDisciplined(LookUpClaude(stale) + GATE + ReapClaude(peeked));
  }

  lemma AwaitUrlLeads(id: nat, waits: nat, urlSeen: bool)
    ensures Leads(AwaitUrl(id, waits, urlSeen), {Mutations}, {Mutations})
  {
    var m, o, l := {Mutations}, {Mutations, SetupOutput(id)}, SetupOutput(id);
    assert m + {l} == o && o - {l} == m;
    TimedWaitsLead(l, waits, o);
    TouchLeads(ClaudeSetups, o);
    var last := if urlSeen then [] else Touch(ClaudeSetups);
    LeadsConcat([Acquire(l)], TimedWaits(l, waits), m, o, o);
    LeadsConcat([Acquire(l)] + TimedWaits(l, waits), last, m, o, o);
    LeadsConcat([Acquire(l)] + TimedWaits(l, waits) + last, [Release(l)], m, o, m);
  }

  lemma FourLead(p: seq<Op>, q: seq<Op>, r: seq<Op>, s: seq<Op>, m: set<Lock>)
    requires Leads(p, m, m) && Leads(q, m, m) && Leads(r, m, m) && Leads(s, m, m)
    ensures Leads(p + q + r + s, m, m)
  {
    LeadsConcat(p, q, m, m, m);
    LeadsConcat(p + q, r, m, m, m);
    LeadsConcat(p + q + r, s, m, m, m);
  }

  /** The login start takes the setup map before an output lock, and an output lock before
      the setup map; both only under `Mutations`. */
  lemma StartClaudeLeads(stale: seq<nat>, peeked: seq<nat>, id: nat, waits: nat, urlSeen: bool, pauses: seq<nat>)
    ensures Leads(Program(StartClaude(stale, peeked, id, waits, urlSeen, pauses)), {}, {})
  {
    var m := {Mutations};
    var spawn := [Spawn(ClaudeReader(id, pauses)), Spawn(ClaudeWaiter(id))];
    GateLeads();
    LookUpClaudeLeads(stale);
    PrepareClaudeLeads(peeked);
    Leads2(Spawn(ClaudeReader(id, pauses)), Spawn(ClaudeWaiter(id)), m);
    AwaitUrlLeads(id, waits, urlSeen);
    var p := LookUpClaude(stale) + GATE;
    LeadsConcat(LookUpClaude(stale), GATE, m, m, m);
    FourLead(p, PrepareClaude(peeked), spawn, AwaitUrl(id, waits, urlSeen), m);
    UnderMutationsDisciplined(p + PrepareClaude(peeked) + spawn + AwaitUrl(id, waits, urlSeen));
  }

  lemma CloseClaudeLeads(id: nat, waits: nat)
    ensures Leads(Program(CloseClaude(id, waits)), {}, {})
  {
    var l := SetupOutput(id);
    TouchLeads(ClaudeSetups, {});
    WaitingSectionLeads(l, waits);
    var x, y := Touch(ClaudeSetups), [Acquire(l)] + TimedWaits(l, waits) + [Release(l)];
    LeadsConcat(x, y, {}, {}, {});
    LeadsConcat(x + y, [Work], {}, {}, {});
    LeadsConcat(x + y + [Work], Touch(ClaudeSetups), {}, {}, {});
    assert Program(CloseClaude(id, waits)) == x + y + [Work] + Touch(ClaudeSetups);
  }

  lemma CodexWaiterLeads(id: nat)
    ensures Leads(ReportExit(id), {}, {Busy})
  {
    assert {} + {Busy} == {Busy};
    TouchLeads(ExecOutput(id), {});
    LeadsConcat([Work], Touch(ExecOutput(id)), {}, {}, {});
    LeadsConcat([Work] + Touch(ExecOutput(id)), [Acquire(Busy)], {}, {}, {Busy});
  }

  lemma BackgroundLeads(l: Lock, pauses: seq<nat>)
    requires l != Mutations
    ensures Leads(Reads(l, pauses) + Touch(l), {}, {}) && Leads([Work] + Touch(l), {}, {})
  {
    ReadsLead(l, pauses);
    TouchLeads(l, {});
    LeadsConcat(Reads(l, pauses), Touch(l), {}, {}, {});
    LeadsConcat([Work], Touch(l), {}, {}, {});
  }

  predicate IsBackground(job: Job) {
    job.TerminalReader? || job.TerminalWaiter? || job.CodexReader? || job.CodexWaiter?
    || job.ClaudeReader? || job.ClaudeWaiter?
  }

  /** The requests that take `Mutations`. */
  predicate Mutates(job: Job) {
    job.Flush? || job.WriteFile? || job.ExecCommand? || job.FailTerminal? || job.StartTerminal? || job.RetryCodex?
    || job.FailCodex? || job.StartCodex? || job.ReattachClaude? || job.FailClaude? || job.StartClaude?
  }

  lemma BackgroundJobsLead(job: Job)
    requires IsBackground(job) && !job.CodexWaiter?
    ensures Leads(Program(job), {}, {})
  {
    var l := if job.TerminalReader? || job.TerminalWaiter? then TerminalOutput(job.session)
             else if job.CodexReader? then ExecOutput(job.session) else SetupOutput(job.session);
    BackgroundLeads(l, if job.TerminalWaiter? || job.ClaudeWaiter? then [] else job.pauses);
  }

  lemma SessionRequestsLead(job: Job)
    requires !IsBackground(job) && !Mutates(job)
    ensures Leads(Program(job), {}, {})
  {
    match job
    case CloseTerminal(id) =>
      TouchLeads(Terminals, {});
      ForceCloseLeads(id, {});
      LeadsConcat(Touch(Terminals), ForceClose(id), {}, {}, {});
    case InputTerminal(id) => TouchThenSection(Terminals, TerminalWriter(id));
    case ResizeTerminal(id) => TouchThenSection(Terminals, TerminalMaster(id));
    case PollTerminal(id, waits) => TouchThenWait(Terminals, TerminalOutput(id), waits);
    case PollCodex(id, waits) => TouchThenWait(CodexExecs, ExecOutput(id), waits);
    case CloseCodex => TouchLeads(CodexExecs, {});
    case InputClaude(id) => TouchThenSection(ClaudeSetups, SetupWriter(id));
    case PollClaude(id, waits) => TouchThenWait(ClaudeSetups, SetupOutput(id), waits);
    case CloseClaude(id, waits) => CloseClaudeLeads(id, waits);
    case RuntimeActivity => TouchLeads(Busy, {});
    case TerminalNotFound => TouchLeads(Terminals, {});
    case ClaudeNotFound => TouchLeads(ClaudeSetups, {});
  }

  lemma MutationsLead(job: Job)
    requires Mutates(job) && !job.StartCodex?
    ensures Leads(Program(job), {}, {})
  {
    match job
    case ExecCommand(closed) => CommandLeads(closed);
    case FailTerminal(retained, rounds) =>
      MakeRoomLeads(retained, rounds);
      UnderMutationsDisciplined(MakeRoom(retained, rounds));
    case FailClaude(stale, peeked) => FailClaudeLeads(stale, peeked);
    case StartTerminal(retained, rounds, id, pauses) => StartTerminalLeads(retained, rounds, id, pauses);
    case RetryCodex =>
      TouchLeads(CodexIdempotency, {Mutations});
      UnderMutationsDisciplined(Touch(CodexIdempotency));
    case FailCodex(peeked, closed) =>
      FailCodexLeads(peeked, closed);
      UnderMutationsDisciplined(Touch(CodexIdempotency) + GATE + PrepareCodex(peeked, closed));
    case ReattachClaude(id) =>
      LookUpClaudeLeads([id]);
      UnderMutationsDisciplined(LookUpClaude([id]));
    case StartClaude(stale, peeked, id, waits, urlSeen, pauses) =>
      StartClaudeLeads(stale, peeked, id, waits, urlSeen, pauses);
    case _ =>
      GateLeads();
      LeadsConcat(GATE, [Work], {Mutations}, {Mutations}, {Mutations});
      UnderMutationsDisciplined(GATE + [Work]);
  }

  lemma JobsLead(job: Job)
    requires !job.StartCodex? && !job.CodexWaiter?
    ensures Leads(Program(job), {}, {})
  {
    if IsBackground(job) {
      BackgroundJobsLead(job);
    } else if Mutates(job) {
      MutationsLead(job);
    } else {
      SessionRequestsLead(job);
    }
  }

  lemma {:induction false} LeadsThen(x: seq<Op>, y: seq<Op>, a: set<Lock>, b: set<Lock>)
    requires Leads(x, a, b) && Disciplined(y, b)
    ensures Disciplined(x + y, a)
  {
    if x == [] {
      assert x + y == y;
    } else {
      LeadsThen(x[1..], y, After(x[0], a), b);
      assert (x + y)[1..] == x[1..] + y;
    }
  }

  lemma DisciplinedCons(op: Op, rest: seq<Op>, held: set<Lock>)
    ensures Disciplined([op] + rest, held) <==> Allowed(op, held) && Disciplined(rest, After(op, held))
  {
    assert ([op] + rest)[1..] == rest;
  }

  lemma LiteralFive(a: Op, b: Op, c: Op, d: Op, e: Op)
    ensures [a, b, c, d, e] == [a] + ([b] + ([c] + ([d] + ([e] + []))))
  {
  }

  lemma LiteralThree(a: Op, b: Op, c: Op)
    ensures [a, b, c] == [a] + ([b] + ([c] + []))
  {
  }

  lemma RaiseDisciplined(reader: Job, waiter: Job)
    ensures Disciplined(RaiseAndSpawn(reader, waiter), {Mutations, Busy})
  {
    assert {Mutations, Busy} - {Busy} == {Mutations} && {Mutations} - {Mutations} == {};
    DisciplinedCons(Release(Mutations), [], {Mutations});
    DisciplinedCons(Spawn(waiter), [Release(Mutations)] + [], {Mutations});
    DisciplinedCons(Spawn(reader), [Spawn(waiter)] + ([Release(Mutations)] + []), {Mutations});
    var z := [Spawn(reader)] + ([Spawn(waiter)] + ([Release(Mutations)] + []));
    DisciplinedCons(Release(Busy), z, {Mutations, Busy});
    DisciplinedCons(SetBusy, [Release(Busy)] + z, {Mutations, Busy});
    LiteralFive(SetBusy, Release(Busy), Spawn(reader), Spawn(waiter), Release(Mutations));
  }

  lemma LowerDisciplined()
    ensures Disciplined(LOWER_AND_WAKE, {Busy})
  {
    assert {Busy} - {Busy} == {};
    DisciplinedCons(NotifyIdle, [], {});
    DisciplinedCons(Release(Busy), [NotifyIdle] + [], {Busy});
    DisciplinedCons(ClearBusy, [Release(Busy)] + ([NotifyIdle] + []), {Busy});
    LiteralThree(ClearBusy, Release(Busy), NotifyIdle);
  }

  /** Every thread of the service keeps to the discipline, for any sessions it walks over. */
  lemma ProgramsAreDisciplined(job: Job)
    ensures Disciplined(Program(job), {})
  {
    match job
    case StartCodex(peeked, closed, id, pauses) =>
      EnterCodexLeads(peeked, closed);
      RaiseDisciplined(CodexReader(id, pauses), CodexWaiter(id));
      LeadsThen(
        EnterCodex(peeked, closed), RaiseAndSpawn(CodexReader(id, pauses), CodexWaiter(id)), {}, {Mutations, Busy});
    case CodexWaiter(id) =>
      CodexWaiterLeads(id);
      LowerDisciplined();
      LeadsThen(ReportExit(id), LOWER_AND_WAKE, {}, {Busy});
    case _ =>
      JobsLead(job);
      LeadsDisciplined(Program(job), {});
  }
}
