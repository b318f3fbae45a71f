/**
 The exclusive gate as a step system: request threads competing for `mutations`, the busy
 flag that a Codex run holds, the idempotency table, and revision-checked writes. One step
 is one critical section.
 */
module GuestGate {
  import opened Wrappers
  import opened Bytes
  import Decimal

  type ThreadId = nat
  type Path = string
  type Key = string

  /** `codex-<millis>-<sequence>`; the sequence comes from one atomic counter. */
  datatype SessionId = SessionId(millis: nat, sequence: nat)

  datatype Request =
    | StartCodex(key: Key)
    | WriteFile(path: Path, expected: string, contents: seq<Byte>)
    /** `exec`, `start_terminal`, `flush_workspace`, `start_claude_setup`. */
    | OtherMutation

  datatype Reply =
    | Session(id: SessionId)
    | Wrote(revision: string)
    | RevisionMismatch(current: string)
    | Ended

  /** Where a request stands. */
  datatype Pc =
    | Arrived
    | Locked
    | AtGate
    | Inside
    | Matched
    | Reclaimed
    | Listed(id: SessionId)
    | Keyed(id: SessionId)
    | Marked(id: SessionId)
    | Spawned(id: SessionId)
    | Replied(reply: Reply)

  datatype Thread = Thread(request: Request, pc: Pc)

  /** The life of a run, from the busy flag being set for it. */
  datatype Phase = Starting | Running | ExitRecorded | Cleared

  datatype Author = ByRequest(expected: string) | ByRun(id: SessionId) | ByCommand(t: ThreadId)

  /** A path given new contents, or removed. */
  datatype Write = Write(path: Path, author: Author, contents: Option<seq<Byte>>)

  datatype State = State(
    threads: map<ThreadId, Thread>,
    mutations: Option<ThreadId>,
    busy: bool,
    runs: map<SessionId, Phase>,
    /** The sessions the service lists; a poll for another id is refused. */
    execs: set<SessionId>,
    readersClosed: set<SessionId>,
    idempotency: map<Key, SessionId>,
    nextSequence: nat,
    /** Every process spawned for a registered run, with the key it was spawned for. */
    spawns: seq<(Key, SessionId)>,
    files: map<Path, seq<Byte>>,
    log: seq<Write>)

  /** What can fail on the way in (validation, resolving a path, spawning) is `Leave`; a run
      counts from its registration on. */
  datatype Step =
    | Arrive(t: ThreadId, request: Request)
    | Lock(t: ThreadId)
    | LookUp(t: ThreadId)
    | PassGate(t: ThreadId)
    | Leave(t: ThreadId)
    | Reclaim(t: ThreadId)
    | List(t: ThreadId, millis: nat)
    | RecordKey(t: ThreadId)
    | MarkBusy(t: ThreadId)
    | SpawnWaiter(t: ThreadId)
    | Return(t: ThreadId)
    | Compare(t: ThreadId)
    | Commit(t: ThreadId)
    | CloseReader(id: SessionId)
    | RecordExit(id: SessionId)
    | ClearBusy(id: SessionId)
    | RunWrites(id: SessionId, path: Path, contents: Option<seq<Byte>>)
    /** What a request inside the gate has started writes: an `exec` command, or a run's
        process before its waiter is there. */
    | CommandWrites(t: ThreadId, path: Path, contents: Option<seq<Byte>>)
    | Close(id: SessionId)

  predicate Init(s: State) {
    && s.threads == map[] && s.mutations.None? && !s.busy
    && s.runs == map[] && s.execs == {} && s.readersClosed == {} && s.idempotency == map[]
    && s.spawns == [] && s.log == []
  }

  /** The revision of a path: its contents' digest, or "missing". */
  function RevisionOf(files: map<Path, seq<Byte>>, path: Path, rev: seq<Byte> -> string): string {
    if path in files then rev(files[path]) else "missing"
  }

  function Applied(files: map<Path, seq<Byte>>, w: Write): map<Path, seq<Byte>> {
    if w.contents.Some? then files[w.path := w.contents.value] else files - {w.path}
  }

  /** A write happens and is remembered. */
  function Logged(s: State, w: Write): State {
    s.(files := Applied(s.files, w), log := s.log + [w])
  }

  function Move(s: State, t: ThreadId, pc: Pc): State
    requires t in s.threads
  {
    s.(threads := s.threads[t := s.threads[t].(pc := pc)])
  }

  /** Reply and drop the mutation guard. */
  function Finish(s: State, t: ThreadId, reply: Reply): State
    requires t in s.threads
  {
    Move(s, t, Replied(reply)).(mutations := None)
  }

  predicate At(s: State, t: ThreadId, pc: Pc) {
    t in s.threads && s.threads[t].pc == pc
  }

  /** Who writes when a request's process does: the run, once it has its id. */
  function WriterOf(t: ThreadId, pc: Pc): Author {
    if HasId(pc) then ByRun(pc.id) else ByCommand(t)
  }

  /** Both ends of the session have closed. */
  predicate Over(s: State, id: SessionId) {
    id in s.readersClosed && id in s.runs && (s.runs[id].ExitRecorded? || s.runs[id].Cleared?)
  }

  ghost predicate Next(s: State, s': State, step: Step, rev: seq<Byte> -> string) {
    match step
    case Arrive(t, request) =>
      t !in s.threads && s' == s.(threads := s.threads[t := Thread(request, Arrived)])
    case Lock(t) =>
      At(s, t, Arrived) && s.mutations.None? && s' == Move(s, t, Locked).(mutations := Some(t))
    case LookUp(t) =>
      && At(s, t, Locked)
      && var r := s.threads[t].request;
         s' == if r.StartCodex? && r.key in s.idempotency
               then Finish(s, t, Session(s.idempotency[r.key])) else Move(s, t, AtGate)
    case PassGate(t) =>
      At(s, t, AtGate) && !s.busy && s' == Move(s, t, Inside)
    case Leave(t) =>
      (At(s, t, Inside) || At(s, t, Matched) || At(s, t, Reclaimed)) && s' == Finish(s, t, Ended)
    case Reclaim(t) =>
      && At(s, t, Inside) && s.threads[t].request.StartCodex?
      && s' == Move(s, t, Reclaimed).(execs := set e | e in s.execs && !Over(s, e))
    case List(t, millis) =>
      && At(s, t, Reclaimed) && s.threads[t].request.StartCodex?
      && var id := SessionId(millis, s.nextSequence);
         s' == Move(s, t, Listed(id)).(
                 nextSequence := s.nextSequence + 1,
                 spawns := s.spawns + [(s.threads[t].request.key, id)],
                 execs := s.execs + {id})
    case RecordKey(t) =>
      && t in s.threads && s.threads[t].pc.Listed? && s.threads[t].request.StartCodex?
      && var id := s.threads[t].pc.id;
         s' == Move(s, t, Keyed(id)).(idempotency := s.idempotency[s.threads[t].request.key := id])
    case MarkBusy(t) =>
      && t in s.threads && s.threads[t].pc.Keyed?
      && var id := s.threads[t].pc.id;
         s' == Move(s, t, Marked(id)).(busy := true, runs := s.runs[id := Starting])
    case SpawnWaiter(t) =>
      && t in s.threads && s.threads[t].pc.Marked?
      && var id := s.threads[t].pc.id;
         s' == Move(s, t, Spawned(id)).(runs := s.runs[id := Running])
    case Return(t) =>
      t in s.threads && s.threads[t].pc.Spawned? && s' == Finish(s, t, Session(s.threads[t].pc.id))
    case Compare(t) =>
      && At(s, t, Inside) && s.threads[t].request.WriteFile?
      && var r := s.threads[t].request;
         var current := RevisionOf(s.files, r.path, rev);
         s' == if current != r.expected then Finish(s, t, RevisionMismatch(current)) else Move(s, t, Matched)
    case Commit(t) =>
      && At(s, t, Matched) && s.threads[t].request.WriteFile?
      && var r := s.threads[t].request;
         s' == Logged(Finish(s, t, Wrote(rev(r.contents))), Write(r.path, ByRequest(r.expected), Some(r.contents)))
    case CloseReader(id) =>
      id in s.runs && s' == s.(readersClosed := s.readersClosed + {id})
    case RecordExit(id) =>
      id in s.runs && s.runs[id].Running? && s' == s.(runs := s.runs[id := ExitRecorded])
    case ClearBusy(id) =>
      id in s.runs && s.runs[id].ExitRecorded? && s' == s.(runs := s.runs[id := Cleared], busy := false)
    case RunWrites(id, path, contents) =>
      id in s.runs && s.runs[id].Running? && s' == Logged(s, Write(path, ByRun(id), contents))
    case CommandWrites(t, path, contents) =>
      && t in s.threads && !s.threads[t].request.WriteFile?
      && (PastGate(s.threads[t].pc) || s.threads[t].pc.Marked?)
      && s' == Logged(s, Write(path, WriterOf(t, s.threads[t].pc), contents))
    case Close(id) =>
      s' == s.(execs := s.execs - {id})
  }

  ghost predicate Run(states: seq<State>, steps: seq<Step>, rev: seq<Byte> -> string) {
    && |states| == |steps| + 1 && Init(states[0])
    && forall i {:trigger steps[i]} :: 0 <= i < |steps| ==> Next(states[i], states[i + 1], steps[i], rev)
  }

  // ---------- Who is inside ----------

  predicate Holds(pc: Pc) { !pc.Arrived? && !pc.Replied? }

  /** Past the gate, with nothing started yet. */
  predicate PastGate(pc: Pc) { pc.Inside? || pc.Matched? || pc.Reclaimed? || pc.Listed? || pc.Keyed? }

  predicate Live(s: State, id: SessionId) { id in s.runs && !s.runs[id].Cleared? }

  /** Exactly the holder of `mutations` is between locking and replying. */
  ghost predicate HolderOk(s: State) {
    && (forall t :: t in s.threads ==> (Holds(s.threads[t].pc) <==> s.mutations == Some(t)))
    && (s.mutations.Some? ==> s.mutations.value in s.threads)
  }

  /** The busy flag is up exactly while one run is live. */
  ghost predicate BusyOk(s: State) {
    && (s.busy <==> exists id :: Live(s, id))
    && (forall i, j :: Live(s, i) && Live(s, j) ==> i == j)
  }

  /** While the flag is up nobody is past the gate, except the starter that raised it. */
  ghost predicate PastOk(s: State) {
    forall t :: t in s.threads && PastGate(s.threads[t].pc) ==> !s.busy
  }

  /** A run whose waiter is not spawned yet belongs to the holder of `mutations`. */
  ghost predicate StarterOk(s: State) {
    && (forall t :: t in s.threads && s.threads[t].pc.Marked? ==>
          s.threads[t].pc.id in s.runs && s.runs[s.threads[t].pc.id].Starting?)
    && (forall id :: id in s.runs && s.runs[id].Starting? ==>
          s.mutations.Some? && s.mutations.value in s.threads && s.threads[s.mutations.value].pc == Marked(id))
  }

  ghost predicate GateInv(s: State) {
    HolderOk(s) && BusyOk(s) && PastOk(s) && StarterOk(s)
  }

  predicate IsRequestStep(step: Step) {
    && !step.CloseReader? && !step.RecordExit? && !step.ClearBusy?
    && !step.RunWrites? && !step.CommandWrites? && !step.Close?
  }

  /** Where a request goes next; the session it starts stays the same one. */
  predicate Follows(p: Pc, q: Pc) {
    match q
    case Arrived => false
    case Locked => p.Arrived?
    case AtGate => p.Locked?
    case Inside => p.AtGate?
    case Matched => p.Inside?
    case Reclaimed => p.Inside?
    case Listed(_) => p.Reclaimed?
    case Keyed(id) => p == Listed(id)
    case Marked(id) => p == Keyed(id)
    case Spawned(id) => p == Marked(id)
    case Replied(_) => p.Locked? || p.Inside? || p.Matched? || p.Reclaimed? || p.Spawned?
  }

  /** Thread t alone has moved; the guard is taken on locking and dropped on replying. */
  ghost predicate Moved(s: State, s': State, t: ThreadId) {
    && t in s'.threads && s'.threads == s.threads[t := s'.threads[t]]
    && if t !in s.threads then s'.threads[t].pc.Arrived? && s'.mutations == s.mutations
       else
         var p, q := s.threads[t].pc, s'.threads[t].pc;
         && Follows(p, q) && s'.threads[t].request == s.threads[t].request
         && (q.Locked? ==> s.mutations.None?)
         && s'.mutations == if q.Locked? then Some(t) else if q.Replied? then None else s.mutations
  }

  /** Which step it takes to pass the gate, to match, to list, to record a key, to raise the flag. */
  predicate Labelled(step: Step, pc: Pc) {
    && (pc.AtGate? ==> step.LookUp?) && (pc.Inside? <==> step.PassGate?) && (pc.Matched? ==> step.Compare?)
    && (pc.Reclaimed? <==> step.Reclaim?) && (pc.Listed? <==> step.List?) && (pc.Keyed? <==> step.RecordKey?)
    && (pc.Marked? <==> step.MarkBusy?) && (pc.Spawned? <==> step.SpawnWaiter?)
    && (pc.Replied? && pc.reply.Session? ==> step.LookUp? || step.Return?)
    && (pc.Replied? && pc.reply.Wrote? ==> step.Commit?)
    && (pc.Replied? && pc.reply.RevisionMismatch? ==> step.Compare?)
  }

  /** How a step moves the requests. */
  ghost predicate ThreadsMoved(s: State, s': State, step: Step) {
    if IsRequestStep(step) then Moved(s, s', step.t) && Labelled(step, s'.threads[step.t].pc)
    else s'.threads == s.threads && s'.mutations == s.mutations
  }

  lemma ArrivingMoves(s: State, s': State, step: Step, rev: seq<Byte> -> string)
    requires Next(s, s', step, rev)
    requires step.Arrive? || step.Lock? || step.LookUp?
    ensures ThreadsMoved(s, s', step)
  {
  }

  lemma EnteringMoves(s: State, s': State, step: Step, rev: seq<Byte> -> string)
    requires Next(s, s', step, rev)
    requires step.PassGate? || step.Leave? || step.Compare? || step.Commit?
    ensures ThreadsMoved(s, s', step)
  {
  }

  lemma StartingMoves(s: State, s': State, step: Step, rev: seq<Byte> -> string)
    requires Next(s, s', step, rev)
    requires step.Reclaim? || step.List? || step.RecordKey?
    ensures ThreadsMoved(s, s', step)
  {
  }

  lemma SpawningMoves(s: State, s': State, step: Step, rev: seq<Byte> -> string)
    requires Next(s, s', step, rev)
    requires step.MarkBusy? || step.SpawnWaiter? || step.Return?
    ensures ThreadsMoved(s, s', step)
  {
  }

  lemma RunStays(s: State, s': State, step: Step, rev: seq<Byte> -> string)
    requires Next(s, s', step, rev) && !IsRequestStep(step)
    ensures ThreadsMoved(s, s', step)
  {
  }

  lemma StepMoves(s: State, s': State, step: Step, rev: seq<Byte> -> string)
    requires Next(s, s', step, rev)
    ensures ThreadsMoved(s, s', step)
  {
    if !IsRequestStep(step) {
      RunStays(s, s', step, rev);
    } else if step.Arrive? || step.Lock? || step.LookUp? {
      ArrivingMoves(s, s', step, rev);
    } else if step.PassGate? || step.Leave? || step.Compare? || step.Commit? {
      EnteringMoves(s, s', step, rev);
    } else if step.Reclaim? || step.List? || step.RecordKey? {
      StartingMoves(s, s', step, rev);
    } else {
      SpawningMoves(s, s', step, rev);
    }
  }

  lemma HolderMoves(s: State, s': State, t: ThreadId)
    requires HolderOk(s) && Moved(s, s', t)
    ensures HolderOk(s')
  {
  }

  lemma HolderStep(s: State, s': State, step: Step, rev: seq<Byte> -> string)
    requires HolderOk(s) && Next(s, s', step, rev)
    ensures HolderOk(s')
  {
    StepMoves(s, s', step, rev);
    if IsRequestStep(step) {
      HolderMoves(s, s', step.t);
    }
  }

  /** What a step does to the flag and the runs. */
  ghost predicate RunsMoved(s: State, s': State, step: Step) {
    match step
    case MarkBusy(t) =>
      && t in s.threads && s.threads[t].pc.Keyed?
      && s'.busy && s'.runs == s.runs[s.threads[t].pc.id := Starting]
    case SpawnWaiter(t) =>
      && t in s.threads && s.threads[t].pc.Marked?
      && s'.busy == s.busy && s'.runs == s.runs[s.threads[t].pc.id := Running]
    case RecordExit(id) =>
      && id in s.runs && s.runs[id].Running?
      && s'.busy == s.busy && s'.runs == s.runs[id := ExitRecorded]
    case ClearBusy(id) =>
      && id in s.runs && s.runs[id].ExitRecorded?
      && !s'.busy && s'.runs == s.runs[id := Cleared]
    case PassGate(_) => !s.busy && s'.busy == s.busy && s'.runs == s.runs
    case _ => s'.busy == s.busy && s'.runs == s.runs
  }

  lemma RunsMove(s: State, s': State, step: Step, rev: seq<Byte> -> string)
    requires Next(s, s', step, rev)
    ensures RunsMoved(s, s', step)
  {
  }

  lemma BusyMoves(s: State, s': State, step: Step)
    requires GateInv(s) && RunsMoved(s, s', step)
    ensures BusyOk(s')
  {
    match step
    case MarkBusy(t) =>
      assert forall i :: !Live(s, i);
      assert forall i :: Live(s', i) ==> Live(s, i) || i == s.threads[t].pc.id;
      assert Live(s', s.threads[t].pc.id);
    case ClearBusy(id) =>
      assert Live(s, id);
      assert forall i :: Live(s', i) ==> Live(s, i) && i != id;
    case RecordExit(id) =>
      assert Live(s, id);
      assert forall i :: Live(s', i) <==> Live(s, i);
    case SpawnWaiter(t) =>
      assert Live(s, s.threads[t].pc.id);
      assert forall i :: Live(s', i) <==> Live(s, i);
    case _ =>
      assert forall i :: Live(s', i) <==> Live(s, i);
  }

  lemma BusyStep(s: State, s': State, step: Step, rev: seq<Byte> -> string)
    requires GateInv(s) && Next(s, s', step, rev)
    ensures BusyOk(s')
  {
    RunsMove(s, s', step, rev);
    BusyMoves(s, s', step);
  }

  lemma PastMoves(s: State, s': State, step: Step)
    requires HolderOk(s) && PastOk(s) && RunsMoved(s, s', step) && ThreadsMoved(s, s', step)
    ensures PastOk(s')
  {
    forall t | t in s'.threads && PastGate(s'.threads[t].pc) ensures !s'.busy {
      assert !step.PassGate? ==> t in s.threads && PastGate(s.threads[t].pc);
    }
  }

  lemma PastStep(s: State, s': State, step: Step, rev: seq<Byte> -> string)
    requires HolderOk(s) && PastOk(s) && Next(s, s', step, rev)
    ensures PastOk(s')
  {
    StepMoves(s, s', step, rev);
    RunsMove(s, s', step, rev);
    PastMoves(s, s', step);
  }

  lemma MarkedMoves(s: State, s': State, step: Step, t: ThreadId)
    requires HolderOk(s) && StarterOk(s) && RunsMoved(s, s', step) && ThreadsMoved(s, s', step)
    requires t in s'.threads && s'.threads[t].pc.Marked?
    ensures s'.threads[t].pc.id in s'.runs && s'.runs[s'.threads[t].pc.id].Starting?
  {
    if step != MarkBusy(t) {
      assert t in s.threads && s.threads[t] == s'.threads[t];
      assert s.threads[t].pc.id in s.runs && s.runs[s.threads[t].pc.id].Starting?;
      assert Holds(s.threads[t].pc);
    }
  }

  lemma StartingKept(s: State, s': State, step: Step, id: SessionId)
    requires GateInv(s) && RunsMoved(s, s', step) && ThreadsMoved(s, s', step)
    requires id in s'.runs && s'.runs[id].Starting?
    ensures s'.mutations.Some? && s'.mutations.value in s'.threads && s'.threads[s'.mutations.value].pc == Marked(id)
  {
    if step.MarkBusy? {
      assert Holds(s.threads[step.t].pc) && PastGate(s.threads[step.t].pc);
      assert !Live(s, id);
    } else {
      assert id in s.runs && s.runs[id].Starting?;
    }
  }

  lemma StarterStep(s: State, s': State, step: Step, rev: seq<Byte> -> string)
    requires GateInv(s) && Next(s, s', step, rev)
    ensures StarterOk(s')
  {
    StepMoves(s, s', step, rev);
    RunsMove(s, s', step, rev);
    StarterMoves(s, s', step);
  }

  lemma StarterMoves(s: State, s': State, step: Step)
    requires GateInv(s) && RunsMoved(s, s', step) && ThreadsMoved(s, s', step)
    ensures StarterOk(s')
  {
    forall t | t in s'.threads && s'.threads[t].pc.Marked?
      ensures s'.threads[t].pc.id in s'.runs && s'.runs[s'.threads[t].pc.id].Starting?
    {
      MarkedMoves(s, s', step, t);
    }
    forall id | id in s'.runs && s'.runs[id].Starting?
      ensures s'.mutations.Some? && s'.mutations.value in s'.threads && s'.threads[s'.mutations.value].pc == Marked(id)
    {
      StartingKept(s, s', step, id);
    }
  }

  lemma GateStep(s: State, s': State, step: Step, rev: seq<Byte> -> string)
    requires GateInv(s) && Next(s, s', step, rev)
    ensures GateInv(s')
  {
    HolderStep(s, s', step, rev);
    BusyStep(s, s', step, rev);
    PastStep(s, s', step, rev);
    StarterStep(s, s', step, rev);
  }

  lemma {:induction false} GateHolds(states: seq<State>, steps: seq<Step>, rev: seq<Byte> -> string, i: nat)
    requires Run(states, steps, rev) && i < |states|
    ensures GateInv(states[i])
  {
    if i > 0 {
      GateHolds(states, steps, rev, i - 1);
      GateStep(states[i - 1], states[i], steps[i - 1], rev);
    }
  }

  /** In every reachable state the busy flag is up if and only if exactly one registered run
      is unfinished; meanwhile no write, exec, terminal start, flush or second start is past
      its gate, and at most one request is past it at any time. */
  lemma GateIsExclusive(states: seq<State>, steps: seq<Step>, rev: seq<Byte> -> string, i: nat)
    requires Run(states, steps, rev) && i < |states|
    ensures var s := states[i];
            && (s.busy <==> exists id :: Live(s, id) && forall j :: Live(s, j) ==> j == id)
            && (s.busy ==> forall t :: t in s.threads ==> !PastGate(s.threads[t].pc))
            && (forall t, u :: (t in s.threads && u in s.threads
                                && PastGate(s.threads[t].pc) && PastGate(s.threads[u].pc)) ==> t == u)
  {
    GateHolds(states, steps, rev, i);
  }

  // ---------- One session per key ----------

  predicate HasId(pc: Pc) { pc.Listed? || pc.Keyed? || pc.Marked? || pc.Spawned? }

  /** Session ids are minted in sequence, and no two keys share one. */
  ghost predicate FreshOk(s: State) {
    && (forall k :: k in s.idempotency ==> s.idempotency[k].sequence < s.nextSequence)
    && (forall t :: t in s.threads && HasId(s.threads[t].pc) ==>
          s.threads[t].request.StartCodex? && s.threads[t].pc.id.sequence < s.nextSequence)
    && (forall t, k :: t in s.threads && s.threads[t].pc.Listed? && k in s.idempotency ==>
          s.idempotency[k] != s.threads[t].pc.id)
    && (forall k, l :: k in s.idempotency && l in s.idempotency && s.idempotency[k] == s.idempotency[l] ==> k == l)
  }

  /** What a starter knows about its own key at each point. */
  predicate StartKnows(s: State, t: Thread) {
    t.request.StartCodex? ==>
      match t.pc
      case AtGate => t.request.key !in s.idempotency
      case Inside => t.request.key !in s.idempotency
      case Reclaimed => t.request.key !in s.idempotency
      case Listed(_) => t.request.key !in s.idempotency
      case Keyed(id) => t.request.key in s.idempotency && s.idempotency[t.request.key] == id
      case Marked(id) => t.request.key in s.idempotency && s.idempotency[t.request.key] == id
      case Spawned(id) => t.request.key in s.idempotency && s.idempotency[t.request.key] == id
      case Replied(Session(id)) => t.request.key in s.idempotency && s.idempotency[t.request.key] == id
      case _ => true
  }

  ghost predicate KnowsOk(s: State) {
    forall t :: t in s.threads ==> StartKnows(s, s.threads[t])
  }

  /** Each spawn is recorded under its key, or its starter is about to record it. */
  predicate SpawnKept(s: State, i: nat) {
    && i < |s.spawns|
    && ((s.spawns[i].0 in s.idempotency && s.idempotency[s.spawns[i].0] == s.spawns[i].1)
        || (s.mutations.Some? && s.mutations.value in s.threads
            && s.threads[s.mutations.value] == Thread(StartCodex(s.spawns[i].0), Listed(s.spawns[i].1))))
  }

  ghost predicate SpawnsOk(s: State) {
    && (forall i :: 0 <= i < |s.spawns| ==> SpawnKept(s, i))
    && (forall i, j :: 0 <= i < j < |s.spawns| ==> s.spawns[i].0 != s.spawns[j].0)
  }

  ghost predicate KeyInv(s: State) {
    HolderOk(s) && FreshOk(s) && KnowsOk(s) && SpawnsOk(s)
  }

  /** A step moves at most one thread, never changes a request and never revokes a reply. */
  lemma Frame(s: State, s': State, step: Step, rev: seq<Byte> -> string, u: ThreadId)
    requires Next(s, s', step, rev) && u in s.threads
    ensures u in s'.threads && s'.threads[u].request == s.threads[u].request
    ensures s.threads[u].pc.Replied? ==> s'.threads[u] == s.threads[u]
  {
    StepMoves(s, s', step, rev);
  }

  /** What a step does to the tables the session ids live in. */
  ghost predicate TablesMoved(s: State, s': State, step: Step) {
    match step
    case List(t, millis) =>
      && t in s.threads && s.threads[t].request.StartCodex?
      && var id := SessionId(millis, s.nextSequence);
         && t in s'.threads && s'.threads[t].pc == Listed(id)
         && s'.idempotency == s.idempotency && s'.nextSequence == s.nextSequence + 1
         && s'.spawns == s.spawns + [(s.threads[t].request.key, id)]
    case RecordKey(t) =>
      && t in s.threads && s.threads[t].pc.Listed? && s.threads[t].request.StartCodex?
      && s'.idempotency == s.idempotency[s.threads[t].request.key := s.threads[t].pc.id]
      && s'.nextSequence == s.nextSequence && s'.spawns == s.spawns
    case _ =>
      s'.idempotency == s.idempotency && s'.nextSequence == s.nextSequence && s'.spawns == s.spawns
  }

  lemma TablesMove(s: State, s': State, step: Step, rev: seq<Byte> -> string)
    requires Next(s, s', step, rev)
    ensures TablesMoved(s, s', step)
  {
  }

  lemma IdsStay(s: State, s': State, step: Step, u: ThreadId)
    requires ThreadsMoved(s, s', step) && !step.List? && !step.RecordKey?
    requires u in s'.threads && HasId(s'.threads[u].pc)
    ensures u in s.threads && HasId(s.threads[u].pc) && s'.threads[u].pc.id == s.threads[u].pc.id
    ensures s'.threads[u].request == s.threads[u].request
    ensures s'.threads[u].pc.Listed? <==> s.threads[u].pc.Listed?
  {
  }

  lemma FreshMoves(s: State, s': State, step: Step)
    requires HolderOk(s) && FreshOk(s) && ThreadsMoved(s, s', step) && TablesMoved(s, s', step)
    ensures FreshOk(s')
  {
    if !step.List? && !step.RecordKey? {
      forall u | u in s'.threads && HasId(s'.threads[u].pc)
        ensures u in s.threads && HasId(s.threads[u].pc) && s'.threads[u].pc.id == s.threads[u].pc.id
        ensures s'.threads[u].request == s.threads[u].request
        ensures s'.threads[u].pc.Listed? <==> s.threads[u].pc.Listed?
      {
        IdsStay(s, s', step, u);
      }
    }
  }

  /** A thread that does not move keeps knowing: only the holder of the guard records a key. */
  lemma OthersKnow(s: State, s': State, step: Step, u: ThreadId)
    requires u in s.threads && u in s'.threads && s'.threads[u] == s.threads[u]
    requires HolderOk(s) && FreshOk(s) && KnowsOk(s) && ThreadsMoved(s, s', step) && TablesMoved(s, s', step)
    ensures StartKnows(s', s'.threads[u])
  {
    assert StartKnows(s, s.threads[u]);
    if step.RecordKey? {
      assert StartKnows(s, s.threads[step.t]);
      assert s.mutations == Some(step.t);
    }
  }

  /** Where a start learns about its key: at the look-up, and from its own session. */
  ghost predicate Learns(s: State, p: Thread, q: Thread) {
    q.request.StartCodex? ==>
      && (q.pc.AtGate? ==> q.request.key !in s.idempotency)
      && (q.pc.Replied? && q.pc.reply.Session? ==>
            || p.pc == Spawned(q.pc.reply.id)
            || (q.request.key in s.idempotency && s.idempotency[q.request.key] == q.pc.reply.id))
  }

  lemma LookUpLearns(s: State, s': State, t: ThreadId, rev: seq<Byte> -> string)
    requires Next(s, s', LookUp(t), rev)
    ensures t in s.threads && t in s'.threads && Learns(s, s.threads[t], s'.threads[t])
  {
  }

  lemma ReturnLearns(s: State, s': State, t: ThreadId, rev: seq<Byte> -> string)
    requires Next(s, s', Return(t), rev)
    ensures t in s.threads && t in s'.threads && Learns(s, s.threads[t], s'.threads[t])
  {
  }

  lemma MoverLearns(s: State, s': State, step: Step, rev: seq<Byte> -> string, u: ThreadId)
    requires u in s.threads && u in s'.threads && s'.threads[u] != s.threads[u]
    requires ThreadsMoved(s, s', step) && Next(s, s', step, rev)
    ensures Learns(s, s.threads[u], s'.threads[u])
  {
    match step
    case LookUp(t) => LookUpLearns(s, s', t, rev);
    case Return(t) => ReturnLearns(s, s', t, rev);
    case _ =>
  }

  lemma MoverKnows(s: State, s': State, step: Step, u: ThreadId)
    requires u in s'.threads && (u !in s.threads || s'.threads[u] != s.threads[u])
    requires u in s.threads ==> Learns(s, s.threads[u], s'.threads[u])
    requires KnowsOk(s) && ThreadsMoved(s, s', step) && TablesMoved(s, s', step)
    ensures StartKnows(s', s'.threads[u])
  {
    assert u in s.threads ==> StartKnows(s, s.threads[u]);
  }

  lemma KnowsStep(s: State, s': State, step: Step, rev: seq<Byte> -> string)
    requires KeyInv(s) && Next(s, s', step, rev)
    requires ThreadsMoved(s, s', step) && TablesMoved(s, s', step)
    ensures KnowsOk(s')
  {
    forall u | u in s'.threads ensures StartKnows(s', s'.threads[u]) {
      if u in s.threads && s'.threads[u] == s.threads[u] {
        OthersKnow(s, s', step, u);
      } else {
        if u in s.threads {
          MoverLearns(s, s', step, rev, u);
        }
        MoverKnows(s, s', step, u);
      }
    }
  }

  lemma ListMoves(s: State, s': State, step: Step)
    requires KeyInv(s) && ThreadsMoved(s, s', step) && TablesMoved(s, s', step) && step.List?
    ensures SpawnsOk(s')
  {
    assert StartKnows(s, s.threads[step.t]);
    forall i | 0 <= i < |s.spawns| ensures SpawnKept(s', i) && s.spawns[i].0 != s.threads[step.t].request.key {
      assert SpawnKept(s, i);
    }
    assert SpawnKept(s', |s.spawns|);
  }

  lemma SpawnsMove(s: State, s': State, step: Step)
    requires KeyInv(s) && ThreadsMoved(s, s', step) && TablesMoved(s, s', step)
    ensures SpawnsOk(s')
  {
    if step.List? {
      ListMoves(s, s', step);
    } else {
      assert s'.spawns == s.spawns;
      if step.RecordKey? {
        assert StartKnows(s, s.threads[step.t]);
      }
      forall i | 0 <= i < |s.spawns| ensures SpawnKept(s', i) {
        assert SpawnKept(s, i);
      }
    }
  }

  lemma KeyStep(s: State, s': State, step: Step, rev: seq<Byte> -> string)
    requires KeyInv(s) && Next(s, s', step, rev)
    ensures KeyInv(s')
  {
    StepMoves(s, s', step, rev);
    TablesMove(s, s', step, rev);
    HolderStep(s, s', step, rev);
    FreshMoves(s, s', step);
    KnowsStep(s, s', step, rev);
    SpawnsMove(s, s', step);
  }

  lemma {:induction false} KeysHold(states: seq<State>, steps: seq<Step>, rev: seq<Byte> -> string, i: nat)
    requires Run(states, steps, rev) && i < |states|
    ensures KeyInv(states[i])
  {
    if i > 0 {
      KeysHold(states, steps, rev, i - 1);
      KeyStep(states[i - 1], states[i], steps[i - 1], rev);
    }
  }

  /** `s` has replied to a start with `key` by naming session `id`. */
  predicate Started(s: State, t: ThreadId, key: Key, id: SessionId) {
    t in s.threads && s.threads[t] == Thread(StartCodex(key), Replied(Session(id)))
  }

  /** Over whole histories, requests never forgotten: starts with one key all name one
      session, different keys never share one, each key has spawned at most one process, and
      a start that waits at the gate is never waiting for its own key's run. */
  lemma StartsAreIdempotent(states: seq<State>, steps: seq<Step>, rev: seq<Byte> -> string, i: nat)
    requires Run(states, steps, rev) && i < |states|
    ensures var s := states[i];
            && (forall t, u, k, l, a, b :: Started(s, t, k, a) && Started(s, u, l, b) ==> (k == l <==> a == b))
            && (forall m, n :: 0 <= m < n < |s.spawns| ==> s.spawns[m].0 != s.spawns[n].0)
            && (forall t :: t in s.threads && s.threads[t].pc.AtGate? && s.threads[t].request.StartCodex? ==>
                  forall id :: Live(s, id) ==> !((s.threads[t].request.key, id) in s.spawns))
  {
    KeysHold(states, steps, rev, i);
    var s := states[i];
    forall t, u, k, l, a, b | Started(s, t, k, a) && Started(s, u, l, b) ensures k == l <==> a == b {
      assert StartKnows(s, s.threads[t]) && StartKnows(s, s.threads[u]);
    }
    forall t, id | t in s.threads && s.threads[t].pc.AtGate? && s.threads[t].request.StartCodex?
      ensures !((s.threads[t].request.key, id) in s.spawns)
    {
      assert StartKnows(s, s.threads[t]);
      forall m | 0 <= m < |s.spawns| ensures s.spawns[m] != (s.threads[t].request.key, id) {
        assert SpawnKept(s, m);
      }
    }
  }

  /** A reply, once given, stays; so the statement above compares starts at any two times. */
  lemma {:induction false} RepliesStay(
    states: seq<State>, steps: seq<Step>, rev: seq<Byte> -> string, i: nat, j: nat, t: ThreadId)
    requires Run(states, steps, rev) && i <= j < |states|
    requires t in states[i].threads && states[i].threads[t].pc.Replied?
    ensures t in states[j].threads && states[j].threads[t] == states[i].threads[t]
  {
    if i < j {
      RepliesStay(states, steps, rev, i, j - 1, t);
      Frame(states[j - 1], states[j], steps[j - 1], rev, t);
    }
  }

  /** Session ids as the service prints them: the trailing counter keeps them apart. */
  function Format(id: SessionId): seq<nat> {
    CODEX_PREFIX + Decimal.Digits(id.millis) + [45] + Decimal.Digits(id.sequence)
  }

  const CODEX_PREFIX: seq<nat> := [99, 111, 100, 101, 120, 45]

  lemma FormatInjective(a: SessionId, b: SessionId)
    requires Format(a) == Format(b)
    ensures a == b
  {
    var x, y := Decimal.Digits(a.millis), Decimal.Digits(b.millis);
    var u, v := [45] + Decimal.Digits(a.sequence), [45] + Decimal.Digits(b.sequence);
    assert Format(a)[6..] == x + u && Format(b)[6..] == y + v;
    Decimal.DigitsParse(a.millis, b.millis, u, v);
    assert u[1..] == Decimal.Digits(a.sequence) && v[1..] == Decimal.Digits(b.sequence);
    Decimal.DigitsInjective(a.sequence, b.sequence);
  }

  // ---------- No lost update ----------

  /** The files after the first n writes of the log. */
  function Replay(files: map<Path, seq<Byte>>, log: seq<Write>): map<Path, seq<Byte>> {
    if log == [] then files
    else
      Applied(Replay(files, log[..|log| - 1]), log[|log| - 1])
  }

  /** Entry i, if a request made it, named the revision its predecessor left. */
  ghost predicate Chained(files: map<Path, seq<Byte>>, log: seq<Write>, i: nat, rev: seq<Byte> -> string)
    requires i < |log|
  {
    log[i].author.ByRequest? ==> log[i].author.expected == RevisionOf(Replay(files, log[..i]), log[i].path, rev)
  }

  /** Between its comparison and its write, a request's comparison stays true. */
  ghost predicate MatchedOk(s: State, rev: seq<Byte> -> string) {
    forall t :: t in s.threads && s.threads[t].pc.Matched? ==>
      && s.threads[t].request.WriteFile?
      && s.threads[t].request.expected == RevisionOf(s.files, s.threads[t].request.path, rev)
  }

  ghost predicate WriteInv(s: State, files: map<Path, seq<Byte>>, rev: seq<Byte> -> string) {
    && MatchedOk(s, rev)
    && s.files == Replay(files, s.log)
    && forall i :: 0 <= i < |s.log| ==> Chained(files, s.log, i, rev)
  }

  /** Behind a request that is past the gate no run is live. */
  lemma NoneLive(s: State, t: ThreadId)
    requires GateInv(s) && t in s.threads && s.threads[t].pc.Matched?
    ensures forall id :: id in s.runs ==> s.runs[id].Cleared?
    ensures forall u :: u in s.threads && u != t ==> !Holds(s.threads[u].pc)
  {
    assert Holds(s.threads[t].pc) && PastGate(s.threads[t].pc);
    assert forall id :: !Live(s, id);
    forall id | id in s.runs ensures s.runs[id].Cleared? {
      assert !Live(s, id);
    }
  }

  /** What a step writes. */
  ghost predicate FilesMoved(s: State, s': State, step: Step) {
    match step
    case Commit(t) =>
      && t in s.threads && s.threads[t].pc.Matched? && s.threads[t].request.WriteFile?
      && var r := s.threads[t].request;
         var w := Write(r.path, ByRequest(r.expected), Some(r.contents));
         s'.files == Applied(s.files, w) && s'.log == s.log + [w]
    case RunWrites(id, path, contents) =>
      && id in s.runs && s.runs[id].Running?
      && var w := Write(path, ByRun(id), contents);
         s'.files == Applied(s.files, w) && s'.log == s.log + [w]
    case CommandWrites(t, path, contents) =>
      && t in s.threads && !s.threads[t].request.WriteFile? && Holds(s.threads[t].pc)
      && var w := Write(path, WriterOf(t, s.threads[t].pc), contents);
         s'.files == Applied(s.files, w) && s'.log == s.log + [w]
    case _ => s'.files == s.files && s'.log == s.log
  }

  lemma FilesMove(s: State, s': State, step: Step, rev: seq<Byte> -> string)
    requires Next(s, s', step, rev)
    ensures FilesMoved(s, s', step)
  {
  }

  lemma ComparesRight(s: State, s': State, step: Step, rev: seq<Byte> -> string)
    requires Next(s, s', step, rev) && step.Compare? && step.t in s'.threads && s'.threads[step.t].pc.Matched?
    ensures s'.threads[step.t].request.WriteFile? && s'.files == s.files
    ensures s'.threads[step.t].request.expected == RevisionOf(s'.files, s'.threads[step.t].request.path, rev)
  {
  }

  /** Only a request that holds the guard, or a live run, writes; and a live run keeps every
      request behind the gate. */
  lemma MatchStays(s: State, s': State, step: Step, t: ThreadId)
    requires GateInv(s) && ThreadsMoved(s, s', step) && FilesMoved(s, s', step)
    requires t in s'.threads && s'.threads[t].pc.Matched? && step != Compare(t)
    ensures t in s.threads && s'.threads[t] == s.threads[t]
    ensures s.threads[t].request.WriteFile? ==> s'.files == s.files
  {
    assert step.Compare? ==> s'.threads == s.threads[step.t := s'.threads[step.t]];
    assert t in s.threads && s'.threads[t] == s.threads[t];
    NoneLive(s, t);
  }

  lemma MatchedAt(s: State, s': State, step: Step, rev: seq<Byte> -> string, t: ThreadId)
    requires GateInv(s) && MatchedOk(s, rev) && Next(s, s', step, rev)
    requires ThreadsMoved(s, s', step) && FilesMoved(s, s', step)
    requires t in s'.threads && s'.threads[t].pc.Matched?
    ensures s'.threads[t].request.WriteFile?
    ensures s'.threads[t].request.expected == RevisionOf(s'.files, s'.threads[t].request.path, rev)
  {
    if step == Compare(t) {
      ComparesRight(s, s', step, rev);
    } else {
      MatchStays(s, s', step, t);
    }
  }

  lemma MatchedStep(s: State, s': State, step: Step, rev: seq<Byte> -> string)
    requires GateInv(s) && MatchedOk(s, rev) && Next(s, s', step, rev)
    ensures MatchedOk(s', rev)
  {
    StepMoves(s, s', step, rev);
    FilesMove(s, s', step, rev);
    forall t | t in s'.threads && s'.threads[t].pc.Matched?
      ensures s'.threads[t].request.WriteFile?
      ensures s'.threads[t].request.expected == RevisionOf(s'.files, s'.threads[t].request.path, rev)
    {
      MatchedAt(s, s', step, rev, t);
    }
  }

  lemma LogStep(files: map<Path, seq<Byte>>, log: seq<Write>, w: Write, rev: seq<Byte> -> string)
    requires forall i :: 0 <= i < |log| ==> Chained(files, log, i, rev)
    requires w.author.ByRequest? ==> w.author.expected == RevisionOf(Replay(files, log), w.path, rev)
    ensures Replay(files, log + [w]) == Applied(Replay(files, log), w)
    ensures forall i :: 0 <= i < |log + [w]| ==> Chained(files, log + [w], i, rev)
  {
    assert (log + [w])[..|log|] == log;
    forall i | 0 <= i < |log| ensures Chained(files, log + [w], i, rev) {
      assert (log + [w])[..i] == log[..i];
      assert Chained(files, log, i, rev);
    }
  }

  lemma LogMoves(s: State, s': State, step: Step, files: map<Path, seq<Byte>>, rev: seq<Byte> -> string)
    requires WriteInv(s, files, rev) && FilesMoved(s, s', step) && MatchedOk(s', rev)
    ensures WriteInv(s', files, rev)
  {
    match step
    case Commit(t) =>
      var r := s.threads[t].request;
      LogStep(files, s.log, Write(r.path, ByRequest(r.expected), Some(r.contents)), rev);
    case RunWrites(id, path, contents) =>
      LogStep(files, s.log, Write(path, ByRun(id), contents), rev);
    case CommandWrites(t, path, contents) =>
      LogStep(files, s.log, Write(path, WriterOf(t, s.threads[t].pc), contents), rev);
    case _ => assert s'.files == s.files && s'.log == s.log;
  }

  lemma WriteStep(s: State, s': State, step: Step, files: map<Path, seq<Byte>>, rev: seq<Byte> -> string)
    requires GateInv(s) && WriteInv(s, files, rev) && Next(s, s', step, rev)
    ensures WriteInv(s', files, rev)
  {
    MatchedStep(s, s', step, rev);
    FilesMove(s, s', step, rev);
    LogMoves(s, s', step, files, rev);
  }

  /** What a request inside the gate has started may write any file at any time before the waiter
      is there, and a live run afterwards. */
  lemma CommandsMayWrite(
    s: State, t: ThreadId, path: Path, contents: Option<seq<Byte>>, rev: seq<Byte> -> string)
    requires t in s.threads && !s.threads[t].request.WriteFile?
    requires var pc := s.threads[t].pc; pc.Inside? || pc.Reclaimed? || pc.Listed? || pc.Keyed? || pc.Marked?
    ensures exists s' :: Next(s, s', CommandWrites(t, path, contents), rev)
                         && s'.files == if contents.Some? then s.files[path := contents.value] else s.files - {path}
  {
    var s' := Logged(s, Write(path, WriterOf(t, s.threads[t].pc), contents));
    assert Next(s, s', CommandWrites(t, path, contents), rev);
  }

  lemma RunsMayWrite(
    s: State, id: SessionId, path: Path, contents: Option<seq<Byte>>, rev: seq<Byte> -> string)
    requires id in s.runs && s.runs[id].Running?
    ensures exists s' :: Next(s, s', RunWrites(id, path, contents), rev)
                         && s'.files == if contents.Some? then s.files[path := contents.value] else s.files - {path}
  {
    var s' := Logged(s, Write(path, ByRun(id), contents));
    assert Next(s, s', RunWrites(id, path, contents), rev);
  }

  /** Every successful write names the revision that the write before it on the same path
      left, whoever made that one, in every interleaving with runs and with each other. */
  lemma {:induction false} WritesFormAChain(
    states: seq<State>, steps: seq<Step>, rev: seq<Byte> -> string, i: nat)
    requires Run(states, steps, rev) && i < |states|
    ensures WriteInv(states[i], states[0].files, rev)
  {
    if i > 0 {
      WritesFormAChain(states, steps, rev, i - 1);
      GateHolds(states, steps, rev, i - 1);
      WriteStep(states[i - 1], states[i], steps[i - 1], states[0].files, rev);
    }
  }

  /** The revision the last write on a path left, or the one it had at first. */
  function LeftBy(files: map<Path, seq<Byte>>, log: seq<Write>, path: Path, rev: seq<Byte> -> string): string {
    if log == [] then RevisionOf(files, path, rev)
    else if log[|log| - 1].path == path then RevisionLeft(log[|log| - 1], rev)
    else LeftBy(files, log[..|log| - 1], path, rev)
  }

  function RevisionLeft(w: Write, rev: seq<Byte> -> string): string {
    if w.contents.Some? then rev(w.contents.value) else "missing"
  }

  lemma {:induction false} LeftByIsCurrent(
    files: map<Path, seq<Byte>>, log: seq<Write>, path: Path, rev: seq<Byte> -> string)
    ensures LeftBy(files, log, path, rev) == RevisionOf(Replay(files, log), path, rev)
  {
    if log != [] {
      LeftByIsCurrent(files, log[..|log| - 1], path, rev);
    }
  }

  /** In every reachable state, a write request past the gate goes on to write if and only if the
      last write on its path, whoever made it, left the revision it names. */
  lemma MatchesIffLastLeftIt(
    states: seq<State>, steps: seq<Step>, rev: seq<Byte> -> string, i: nat, t: ThreadId, s': State)
    requires Run(states, steps, rev) && i < |states|
    requires At(states[i], t, Inside) && states[i].threads[t].request.WriteFile?
    requires Next(states[i], s', Compare(t), rev)
    ensures var r := states[i].threads[t].request;
            var left := LeftBy(states[0].files, states[i].log, r.path, rev);
            && (At(s', t, Matched) <==> left == r.expected)
            && (left != r.expected ==> At(s', t, Replied(RevisionMismatch(left))))
  {
    WritesFormAChain(states, steps, rev, i);
    LeftByIsCurrent(states[0].files, states[i].log, states[i].threads[t].request.path, rev);
  }

  /** Two successful requests that name one revision of a path: the last write on the path
      before the second, the first's own or one after it, left that very revision. Without such a
      write at most one of several writers naming one revision succeeds. */
  lemma SameRevisionNeedsRestore(
    states: seq<State>, steps: seq<Step>, rev: seq<Byte> -> string, i: nat, m: nat, n: nat) returns (k: nat)
    requires Run(states, steps, rev) && i < |states|
    requires m < n < |states[i].log| && states[i].log[m].path == states[i].log[n].path
    requires states[i].log[m].author.ByRequest? && states[i].log[m].author == states[i].log[n].author
    ensures m <= k < n && states[i].log[k].path == states[i].log[n].path
    ensures forall j :: k < j < n ==> states[i].log[j].path != states[i].log[n].path
    ensures RevisionLeft(states[i].log[k], rev) == states[i].log[n].author.expected
  {
    WritesFormAChain(states, steps, rev, i);
    var log := states[i].log;
    assert Chained(states[0].files, log, n, rev);
    LeftByIsCurrent(states[0].files, log[..n], log[n].path, rev);
    k := LastWrite(states[0].files, log, m, n, log[n].path, rev);
  }

  lemma {:induction false} LastWrite(
    files: map<Path, seq<Byte>>, log: seq<Write>, m: nat, n: nat, path: Path, rev: seq<Byte> -> string)
    returns (k: nat)
    requires m < n <= |log| && log[m].path == path
    ensures m <= k < n && log[k].path == path && forall j :: k < j < n ==> log[j].path != path
    ensures LeftBy(files, log[..n], path, rev) == RevisionLeft(log[k], rev)
  {
    assert log[..n][..n - 1] == log[..n - 1];
    if log[n - 1].path == path {
      k := n - 1;
    } else {
      k := LastWrite(files, log, m, n - 1, path, rev);
    }
  }

  /** What a request that writes is told. */
  predicate ToldRight(s: State, t: Thread, rev: seq<Byte> -> string) {
    t.request.WriteFile? && t.pc.Replied? ==>
      match t.pc.reply
      case Wrote(revision) =>
        revision == rev(t.request.contents)
        && Write(t.request.path, ByRequest(t.request.expected), Some(t.request.contents)) in s.log
      case RevisionMismatch(current) => current != t.request.expected
      case _ => true
  }

  lemma CommitTells(s: State, s': State, t: ThreadId, rev: seq<Byte> -> string)
    requires Next(s, s', Commit(t), rev)
    ensures t in s'.threads && ToldRight(s', s'.threads[t], rev)
  {
  }

  lemma CompareTells(s: State, s': State, t: ThreadId, rev: seq<Byte> -> string)
    requires Next(s, s', Compare(t), rev)
    ensures t in s'.threads && ToldRight(s', s'.threads[t], rev)
  {
  }

  lemma MoverToldRight(s: State, s': State, step: Step, rev: seq<Byte> -> string, t: ThreadId)
    requires Next(s, s', step, rev) && t in s'.threads && (t !in s.threads || s'.threads[t] != s.threads[t])
    ensures ToldRight(s', s'.threads[t], rev)
  {
    StepMoves(s, s', step, rev);
    match step
    case Commit(u) => CommitTells(s, s', u, rev);
    case Compare(u) => CompareTells(s, s', u, rev);
    case _ =>
  }

  /** In every reachable state, a request told that it has written has written just what it asked for,
      and been told that revision; one told of another revision had not named it. */
  lemma {:induction false} RepliesTell(
    states: seq<State>, steps: seq<Step>, rev: seq<Byte> -> string, i: nat, t: ThreadId)
    requires Run(states, steps, rev) && i < |states| && t in states[i].threads
    ensures ToldRight(states[i], states[i].threads[t], rev)
  {
    assert i > 0;
    var s, s' := states[i - 1], states[i];
    FilesMove(s, s', steps[i - 1], rev);
    if t in s.threads && s'.threads[t] == s.threads[t] {
      RepliesTell(states, steps, rev, i - 1, t);
    } else {
      MoverToldRight(s, s', steps[i - 1], rev, t);
    }
  }

  // ---------- A run with a restored revision ----------

  lemma Snoc(states: seq<State>, steps: seq<Step>, rev: seq<Byte> -> string, s: State, step: Step)
    returns (states': seq<State>, steps': seq<Step>)
    requires Run(states, steps, rev) && Next(states[|states| - 1], s, step, rev)
    ensures Run(states', steps', rev) && states <= states' && states'[|states'| - 1] == s
  {
    states', steps' := states + [s], steps + [step];
  }

  /** Nobody holds the guard and no run is live. */
  predicate Calm(s: State) { s.mutations.None? && !s.busy }

  /** A new request has passed the gate. */
  function Entered(s: State, t: ThreadId, r: Request): State {
    s.(threads := s.threads[t := Thread(r, Inside)], mutations := Some(t))
  }

  function NeedsGate(s: State, r: Request): bool { r.StartCodex? ==> r.key !in s.idempotency }

  lemma Enters(states: seq<State>, steps: seq<Step>, rev: seq<Byte> -> string, t: ThreadId, r: Request)
    returns (states': seq<State>, steps': seq<Step>)
    requires Run(states, steps, rev)
    requires var s := states[|states| - 1]; Calm(s) && t !in s.threads && NeedsGate(s, r)
    ensures Run(states', steps', rev) && states <= states'
    ensures states'[|states'| - 1] == Entered(states[|states| - 1], t, r)
  {
    var s := states[|states| - 1];
    var s1 := s.(threads := s.threads[t := Thread(r, Arrived)]);
    states', steps' := Snoc(states, steps, rev, s1, Arrive(t, r));
    var s2 := Move(s1, t, Locked).(mutations := Some(t));
    states', steps' := Snoc(states', steps', rev, s2, Lock(t));
    var s3 := Move(s2, t, AtGate);
    states', steps' := Snoc(states', steps', rev, s3, LookUp(t));
    var s4 := Entered(s, t, r);
    assert s4.threads == s3.threads[t := Thread(r, Inside)];
    states', steps' := Snoc(states', steps', rev, s4, PassGate(t));
  }

  /** After a new request has written without disturbance. */
  function Written(s: State, t: ThreadId, r: Request, rev: seq<Byte> -> string): State
    requires r.WriteFile?
  {
    Logged(s.(threads := s.threads[t := Thread(r, Replied(Wrote(rev(r.contents))))]),
           Write(r.path, ByRequest(r.expected), Some(r.contents)))
  }

  /** A new write request that names the current revision, undisturbed, succeeds. */
  lemma WriteSucceeds(states: seq<State>, steps: seq<Step>, rev: seq<Byte> -> string, t: ThreadId, r: Request)
    returns (states': seq<State>, steps': seq<Step>)
    requires Run(states, steps, rev) && r.WriteFile?
    requires var s := states[|states| - 1];
             Calm(s) && t !in s.threads && RevisionOf(s.files, r.path, rev) == r.expected
    ensures states <= states' && Run(states', steps', rev)
    ensures states'[|states'| - 1] == Written(states[|states| - 1], t, r, rev)
  {
    var s := states[|states| - 1];
    states', steps' := Enters(states, steps, rev, t, r);
    var s4 := Entered(s, t, r);
    var s5 := Move(s4, t, Matched);
    states', steps' := Snoc(states', steps', rev, s5, Compare(t));
    var s6 := Written(s, t, r, rev);
    assert s6.threads == s5.threads[t := Thread(r, Replied(Wrote(rev(r.contents))))];
    states', steps' := Snoc(states', steps', rev, s6, Commit(t));
  }

  /** A revision is a digest of contents, not a version: there is a run in which three requests
      that put y for x, x for y, and z for x all succeed, the first and the third naming one
      revision. */
  lemma RestoredRevisionServesTwice(path: Path, x: seq<Byte>, y: seq<Byte>, z: seq<Byte>, rev: seq<Byte> -> string)
    returns (states: seq<State>, steps: seq<Step>)
    ensures Run(states, steps, rev) && states[0].files == map[path := x]
    ensures var s := states[|states| - 1];
            && s.threads == map[0 := Thread(WriteFile(path, rev(x), y), Replied(Wrote(rev(y)))),
                                1 := Thread(WriteFile(path, rev(y), x), Replied(Wrote(rev(x)))),
                                2 := Thread(WriteFile(path, rev(x), z), Replied(Wrote(rev(z))))]
            && s.files == map[path := z]
  {
    var a, b, c := WriteFile(path, rev(x), y), WriteFile(path, rev(y), x), WriteFile(path, rev(x), z);
    var s := State(map[], None, false, map[], {}, {}, map[], 0, [], map[path := x], []);
    states, steps := [s], [];
    states, steps := WriteSucceeds(states, steps, rev, 0, a);
    states, steps := WriteSucceeds(states, steps, rev, 1, b);
    states, steps := WriteSucceeds(states, steps, rev, 2, c);
  }

  // ---------- How long a session can be polled ----------

  /** The step lists the session for its key. */
  predicate Lists(s: State, step: Step, key: Key, id: SessionId) {
    && step.List? && step.t in s.threads && s.threads[step.t].request == StartCodex(key)
    && id == SessionId(step.millis, s.nextSequence)
  }

  /** The step takes the session off the list: it is closed, or a start finds it over. */
  predicate Takes(s: State, step: Step, id: SessionId) {
    step == Close(id) || (step.Reclaim? && Over(s, id))
  }

  lemma ExecsStep(s: State, s': State, step: Step, rev: seq<Byte> -> string, id: SessionId)
    requires Next(s, s', step, rev) && id.sequence < s.nextSequence
    ensures id in s'.execs <==> id in s.execs && !Takes(s, step, id)
  {
  }

  lemma ListsStep(s: State, s': State, step: Step, rev: seq<Byte> -> string, key: Key, id: SessionId)
    requires Next(s, s', step, rev) && Lists(s, step, key, id)
    ensures id in s'.execs && id.sequence < s'.nextSequence
  {
  }

  /** Nothing between the two times takes the session off the list. */
  ghost predicate Left(states: seq<State>, steps: seq<Step>, id: SessionId, i: nat, j: nat)
    requires j <= |states| && j <= |steps|
  {
    forall k :: i < k < j ==> !Takes(states[k], steps[k], id)
  }

  predicate LeftAlone(states: seq<State>, steps: seq<Step>, id: SessionId, i: nat, j: nat)
    requires j <= |states| && j <= |steps|
    decreases j
  {
    j <= i + 1 || (LeftAlone(states, steps, id, i, j - 1) && !Takes(states[j - 1], steps[j - 1], id))
  }

  lemma {:induction false} LeftIff(states: seq<State>, steps: seq<Step>, id: SessionId, i: nat, j: nat)
    requires j <= |states| && j <= |steps|
    ensures Left(states, steps, id, i, j) <==> LeftAlone(states, steps, id, i, j)
    decreases j
  {
    if j > i + 1 {
      LeftIff(states, steps, id, i, j - 1);
    }
  }

  /** From its listing on a session is listed until something takes it off the list. */
  lemma {:induction false} ListedIff(
    states: seq<State>, steps: seq<Step>, rev: seq<Byte> -> string, i: nat, j: nat, key: Key, id: SessionId)
    requires Run(states, steps, rev) && i < j < |states| && Lists(states[i], steps[i], key, id)
    ensures id.sequence < states[j].nextSequence
    ensures id in states[j].execs <==> LeftAlone(states, steps, id, i, j)
  {
    if j == i + 1 {
      ListsStep(states[i], states[j], steps[i], rev, key, id);
    } else {
      ListedIff(states, steps, rev, i, j - 1, key, id);
      TablesMove(states[j - 1], states[j], steps[j - 1], rev);
      ExecsStep(states[j - 1], states[j], steps[j - 1], rev, id);
    }
  }

  /** Every recorded id, or one about to be, was spawned for its key. */
  ghost predicate RecordedOk(s: State) {
    && (forall k :: k in s.idempotency ==> (k, s.idempotency[k]) in s.spawns)
    && (forall t :: t in s.threads && s.threads[t].pc.Listed? && s.threads[t].request.StartCodex? ==>
          (s.threads[t].request.key, s.threads[t].pc.id) in s.spawns)
  }

  lemma RecordedMoves(s: State, s': State, step: Step)
    requires RecordedOk(s) && ThreadsMoved(s, s', step) && TablesMoved(s, s', step)
    ensures RecordedOk(s')
  {
    if !step.List? && !step.RecordKey? {
      forall t | t in s'.threads && s'.threads[t].pc.Listed? ensures t in s.threads && s'.threads[t] == s.threads[t] {
        IdsStay(s, s', step, t);
      }
    }
  }

  lemma {:induction false} RecordedHolds(states: seq<State>, steps: seq<Step>, rev: seq<Byte> -> string, i: nat)
    requires Run(states, steps, rev) && i < |states|
    ensures RecordedOk(states[i])
  {
    if i > 0 {
      RecordedHolds(states, steps, rev, i - 1);
      StepMoves(states[i - 1], states[i], steps[i - 1], rev);
      TablesMove(states[i - 1], states[i], steps[i - 1], rev);
      RecordedMoves(states[i - 1], states[i], steps[i - 1]);
    }
  }

  lemma {:induction false} SpawnedWasListed(
    states: seq<State>, steps: seq<Step>, rev: seq<Byte> -> string, j: nat, key: Key, id: SessionId)
    returns (i: nat)
    requires Run(states, steps, rev) && j < |states| && (key, id) in states[j].spawns
    ensures i < j && Lists(states[i], steps[i], key, id)
  {
    assert Next(states[j - 1], states[j], steps[j - 1], rev);
    if (key, id) in states[j - 1].spawns {
      i := SpawnedWasListed(states, steps, rev, j - 1, key, id);
    } else {
      i := j - 1;
      TablesMove(states[i], states[j], steps[i], rev);
    }
  }

  /** An id on its way to its run has not had one. */
  ghost predicate NewIdsOk(s: State) {
    && (forall t :: t in s.threads && (s.threads[t].pc.Listed? || s.threads[t].pc.Keyed?) ==>
          s.threads[t].pc.id !in s.runs)
    && (forall id :: id in s.runs ==> id.sequence < s.nextSequence)
  }

  lemma RunsAppear(s: State, s': State, step: Step)
    requires RunsMoved(s, s', step)
    ensures forall id :: id in s'.runs ==>
                           || id in s.runs
                           || (step.MarkBusy? && id == s.threads[step.t].pc.id)
                           || (step.SpawnWaiter? && id == s.threads[step.t].pc.id)
  {
  }

  lemma NewIdsMove(s: State, s': State, step: Step)
    requires KeyInv(s) && NewIdsOk(s) && RunsMoved(s, s', step)
    requires ThreadsMoved(s, s', step) && TablesMoved(s, s', step)
    ensures NewIdsOk(s')
  {
    RunsAppear(s, s', step);
    forall t | t in s'.threads && (s'.threads[t].pc.Listed? || s'.threads[t].pc.Keyed?)
      ensures s'.threads[t].pc.id !in s'.runs
    {
      assert Holds(s'.threads[t].pc);
    }
  }

  lemma {:induction false} NewIdsHold(states: seq<State>, steps: seq<Step>, rev: seq<Byte> -> string, i: nat)
    requires Run(states, steps, rev) && i < |states|
    ensures NewIdsOk(states[i])
  {
    if i > 0 {
      NewIdsHold(states, steps, rev, i - 1);
      KeysHold(states, steps, rev, i - 1);
      StepMoves(states[i - 1], states[i], steps[i - 1], rev);
      RunsMove(states[i - 1], states[i], steps[i - 1], rev);
      TablesMove(states[i - 1], states[i], steps[i - 1], rev);
      NewIdsMove(states[i - 1], states[i], steps[i - 1]);
    }
  }

  predicate Exited(s: State, id: SessionId) {
    id in s.runs && (s.runs[id].ExitRecorded? || s.runs[id].Cleared?)
  }

  lemma ExitedMoves(s: State, s': State, step: Step, id: SessionId)
    requires StarterOk(s) && NewIdsOk(s) && RunsMoved(s, s', step)
    ensures Exited(s', id) <==> Exited(s, id) || step == RecordExit(id)
  {
  }

  lemma ReadersMove(s: State, s': State, step: Step, rev: seq<Byte> -> string, id: SessionId)
    requires Next(s, s', step, rev)
    ensures id in s'.readersClosed <==> id in s.readersClosed || step == CloseReader(id)
  {
  }

  ghost predicate Happened(steps: seq<Step>, i: nat, step: Step)
    requires i <= |steps|
  {
    exists k :: 0 <= k < i && steps[k] == step
  }

  lemma HappenedStep(steps: seq<Step>, i: nat, step: Step)
    requires 0 < i <= |steps|
    ensures Happened(steps, i, step) <==> Happened(steps, i - 1, step) || steps[i - 1] == step
  {
  }

  /** A session is over once its reader has met the end and its waiter has recorded the exit. */
  lemma {:induction false} OverIff(
    states: seq<State>, steps: seq<Step>, rev: seq<Byte> -> string, i: nat, id: SessionId)
    requires Run(states, steps, rev) && i < |states|
    ensures id in states[i].readersClosed <==> Happened(steps, i, CloseReader(id))
    ensures Exited(states[i], id) <==> Happened(steps, i, RecordExit(id))
    ensures Over(states[i], id) <==> Happened(steps, i, CloseReader(id)) && Happened(steps, i, RecordExit(id))
  {
    if i > 0 {
      OverIff(states, steps, rev, i - 1, id);
      GateHolds(states, steps, rev, i - 1);
      NewIdsHold(states, steps, rev, i - 1);
      RunsMove(states[i - 1], states[i], steps[i - 1], rev);
      ExitedMoves(states[i - 1], states[i], steps[i - 1], id);
      ReadersMove(states[i - 1], states[i], steps[i - 1], rev, id);
      HappenedStep(steps, i, CloseReader(id));
      HappenedStep(steps, i, RecordExit(id));
    }
  }

  /** The id that starts with one key are answered with, first or repeated, was listed once; and at
      any later time polls still find it if and only if it has not been closed and no start of
      another key has come through since both its ends closed. The keys never forget; the list
      does. */
  lemma AnsweredIdListedIff(
    states: seq<State>, steps: seq<Step>, rev: seq<Byte> -> string, j: nat, t: ThreadId, key: Key, id: SessionId)
    returns (i: nat)
    requires Run(states, steps, rev) && j < |states| && Started(states[j], t, key, id)
    ensures i < j && Lists(states[i], steps[i], key, id)
    ensures id in states[j].execs <==> Left(states, steps, id, i, j)
  {
    KeysHold(states, steps, rev, j);
    assert StartKnows(states[j], states[j].threads[t]);
    RecordedHolds(states, steps, rev, j);
    i := SpawnedWasListed(states, steps, rev, j, key, id);
    ListedIff(states, steps, rev, i, j, key, id);
    LeftIff(states, steps, id, i, j);
  }

  // ---------- A retry answered with a session that is gone ----------

  /** The sessions a start leaves on the list. */
  function Kept(s: State): set<SessionId> { set e | e in s.execs && !Over(s, e) }

  /** After an undisturbed start with a new key. */
  function AfterStart(s: State, t: ThreadId, key: Key, millis: nat): State {
    var id := SessionId(millis, s.nextSequence);
    s.(threads := s.threads[t := Thread(StartCodex(key), Replied(Session(id)))],
       busy := true, runs := s.runs[id := Running], execs := Kept(s) + {id},
       idempotency := s.idempotency[key := id], nextSequence := s.nextSequence + 1,
       spawns := s.spawns + [(key, id)])
  }

  /** A start with a new key on its way, once it has its id. */
  function OnTheWay(s: State, t: ThreadId, key: Key, millis: nat): State {
    var id := SessionId(millis, s.nextSequence);
    s.(threads := s.threads[t := Thread(StartCodex(key), Listed(id))], mutations := Some(t),
       execs := Kept(s) + {id}, nextSequence := s.nextSequence + 1, spawns := s.spawns + [(key, id)])
  }

  lemma GetsId(
    states: seq<State>, steps: seq<Step>, rev: seq<Byte> -> string, t: ThreadId, key: Key, millis: nat)
    returns (states': seq<State>, steps': seq<Step>)
    requires Run(states, steps, rev)
    requires var s := states[|states| - 1]; Calm(s) && t !in s.threads && key !in s.idempotency
    ensures Run(states', steps', rev) && states <= states'
    ensures states'[|states'| - 1] == OnTheWay(states[|states| - 1], t, key, millis)
  {
    var s := states[|states| - 1];
    states', steps' := Enters(states, steps, rev, t, StartCodex(key));
    var s5 := Move(Entered(s, t, StartCodex(key)), t, Reclaimed).(execs := Kept(s));
    states', steps' := Snoc(states', steps', rev, s5, Reclaim(t));
    var s6 := OnTheWay(s, t, key, millis);
    assert s6.threads == s5.threads[t := Thread(StartCodex(key), Listed(SessionId(millis, s.nextSequence)))];
    states', steps' := Snoc(states', steps', rev, s6, List(t, millis));
  }

  /** Such a start once the flag is up for it. */
  function Raised(s: State, t: ThreadId, key: Key, millis: nat): State {
    var id := SessionId(millis, s.nextSequence);
    OnTheWay(s, t, key, millis).(
      threads := s.threads[t := Thread(StartCodex(key), Marked(id))],
      idempotency := s.idempotency[key := id], busy := true, runs := s.runs[id := Starting])
  }

  lemma RaisesFlag(
    states: seq<State>, steps: seq<Step>, rev: seq<Byte> -> string, t: ThreadId, key: Key, millis: nat)
    returns (states': seq<State>, steps': seq<Step>)
    requires Run(states, steps, rev)
    requires var s := states[|states| - 1]; Calm(s) && t !in s.threads && key !in s.idempotency
    ensures Run(states', steps', rev) && states <= states'
    ensures states'[|states'| - 1] == Raised(states[|states| - 1], t, key, millis)
  {
    var s := states[|states| - 1];
    var id := SessionId(millis, s.nextSequence);
    states', steps' := GetsId(states, steps, rev, t, key, millis);
    var s7 := Move(OnTheWay(s, t, key, millis), t, Keyed(id)).(idempotency := s.idempotency[key := id]);
    states', steps' := Snoc(states', steps', rev, s7, RecordKey(t));
    var s8 := Raised(s, t, key, millis);
    assert s8.threads == s7.threads[t := Thread(StartCodex(key), Marked(id))];
    states', steps' := Snoc(states', steps', rev, s8, MarkBusy(t));
  }

  /** A start with a new key, undisturbed, is answered with a session that runs. */
  lemma StartSucceeds(
    states: seq<State>, steps: seq<Step>, rev: seq<Byte> -> string, t: ThreadId, key: Key, millis: nat)
    returns (states': seq<State>, steps': seq<Step>)
    requires Run(states, steps, rev)
    requires var s := states[|states| - 1]; Calm(s) && t !in s.threads && key !in s.idempotency
    ensures Run(states', steps', rev) && states <= states'
    ensures states'[|states'| - 1] == AfterStart(states[|states| - 1], t, key, millis)
  {
    var s := states[|states| - 1];
    var id := SessionId(millis, s.nextSequence);
    states', steps' := RaisesFlag(states, steps, rev, t, key, millis);
    var s8 := Raised(s, t, key, millis);
    var s9 := Move(s8, t, Spawned(id)).(runs := s.runs[id := Running]);
    assert s9.runs == s8.runs[id := Running];
    states', steps' := Snoc(states', steps', rev, s9, SpawnWaiter(t));
    var s10 := AfterStart(s, t, key, millis);
    assert s10.threads == s9.threads[t := Thread(StartCodex(key), Replied(Session(id)))];
    states', steps' := Snoc(states', steps', rev, s10, Return(t));
  }

  function AfterEnd(s: State, id: SessionId): State {
    s.(readersClosed := s.readersClosed + {id}, runs := s.runs[id := Cleared], busy := false)
  }

  lemma EndsRun(states: seq<State>, steps: seq<Step>, rev: seq<Byte> -> string, id: SessionId)
    returns (states': seq<State>, steps': seq<Step>)
    requires Run(states, steps, rev)
    requires var s := states[|states| - 1]; id in s.runs && s.runs[id].Running?
    ensures Run(states', steps', rev) && states <= states'
    ensures states'[|states'| - 1] == AfterEnd(states[|states| - 1], id)
  {
    var s := states[|states| - 1];
    var s1 := s.(readersClosed := s.readersClosed + {id});
    states', steps' := Snoc(states, steps, rev, s1, CloseReader(id));
    var s2 := s1.(runs := s.runs[id := ExitRecorded]);
    states', steps' := Snoc(states', steps', rev, s2, RecordExit(id));
    assert AfterEnd(s, id).runs == s2.runs[id := Cleared];
    states', steps' := Snoc(states', steps', rev, AfterEnd(s, id), ClearBusy(id));
  }

  /** A start with a recorded key, undisturbed, is answered with the recorded id. */
  lemma RetryAnswers(states: seq<State>, steps: seq<Step>, rev: seq<Byte> -> string, t: ThreadId, key: Key)
    returns (states': seq<State>, steps': seq<Step>)
    requires Run(states, steps, rev)
    requires var s := states[|states| - 1]; s.mutations.None? && t !in s.threads && key in s.idempotency
    ensures Run(states', steps', rev) && states <= states'
    ensures var s := states[|states| - 1];
            states'[|states'| - 1]
            == s.(threads := s.threads[t := Thread(StartCodex(key), Replied(Session(s.idempotency[key])))])
  {
    var s := states[|states| - 1];
    var s1 := s.(threads := s.threads[t := Thread(StartCodex(key), Arrived)]);
    states', steps' := Snoc(states, steps, rev, s1, Arrive(t, StartCodex(key)));
    var s2 := Move(s1, t, Locked).(mutations := Some(t));
    states', steps' := Snoc(states', steps', rev, s2, Lock(t));
    var s3 := s.(threads := s.threads[t := Thread(StartCodex(key), Replied(Session(s.idempotency[key])))]);
    assert s3.threads == s2.threads[t := s3.threads[t]];
    states', steps' := Snoc(states', steps', rev, s3, LookUp(t));
  }

  /** A run with key a ends, a start with key b comes through, and a retry of the first start is
      answered with an id that no poll finds. */
  lemma RetryCanNameAGoneSession(a: Key, b: Key, files: map<Path, seq<Byte>>, rev: seq<Byte> -> string)
    returns (states: seq<State>, steps: seq<Step>, id: SessionId)
    requires a != b
    ensures Run(states, steps, rev)
    ensures var s := states[|states| - 1]; Started(s, 0, a, id) && Started(s, 2, a, id) && id !in s.execs
  {
    var s := State(map[], None, false, map[], {}, {}, map[], 0, [], files, []);
    id := SessionId(0, 0);
    states, steps := [s], [];
    states, steps := StartSucceeds(states, steps, rev, 0, a, 0);
    var s1 := AfterStart(s, 0, a, 0);
    states, steps := EndsRun(states, steps, rev, id);
    var s2 := AfterEnd(s1, id);
    assert Over(s2, id) && id !in Kept(s2);
    states, steps := StartSucceeds(states, steps, rev, 1, b, 0);
    states, steps := RetryAnswers(states, steps, rev, 2, a);
  }
}
