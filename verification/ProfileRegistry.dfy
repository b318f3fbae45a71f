/**
 The registry of live provider profiles: a map from handles to profiles behind one lock, where
 a profile's directory is deleted when the last holder of the profile lets go of it, be that
 the registry or a caller that looked it up.
 */
module ProfileRegistry {
  import opened Wrappers

  datatype Kind = Codex | Claude

  /** Handles and directories are named after the kind and a process-wide counter. */
  datatype Handle = Handle(kind: Kind, seed: nat)
  datatype Dir = DirOf(handle: Handle)

  datatype Entry = Entry(createdAt: nat, dir: Dir)

  datatype State = State(
    profiles: map<Handle, Entry>,
    leases: multiset<Dir>,
    dirs: set<Dir>,
    nextSeed: nat,
    /** The directories that something has left behind. */
    left: set<Dir>)

  /** How materializing ends: `create_dir`, `set_permissions` or the credential's write may fail.
      Between the first two there is a directory and no profile yet to remove it. */
  datatype Attempt = NoDirectory | NoPermissions | NoCredential | Written

  /** The directories that `remove_dir_all`, whose result is ignored, fails to remove. */
  type Stuck = Dir -> bool

  datatype Op =
    | Materialize(kind: Kind, now: nat, attempt: Attempt)
    | Get(handle: Handle)
    | LetGo(dir: Dir)
    | Remove(handle: Handle)
    | ReapOlderThan(now: nat, maxAge: nat)

  /** `Instant::duration_since` saturates. */
  function Age(e: Entry, now: nat): nat {
    if now < e.createdAt then 0 else now - e.createdAt
  }

  /** The registry's side of a profile is dropped: its directory goes unless a caller holds it. */
  function Unheld(s: State, gone: set<Dir>): set<Dir> {
    set d | d in gone && s.leases[d] == 0
  }

  /** What one operation leaves behind. */
  function Leaves(s: State, op: Op, stuck: Stuck): set<Dir> {
    match op
    case Materialize(kind, _, attempt) =>
      var d := DirOf(Handle(kind, s.nextSeed));
      if attempt.NoPermissions? || (attempt.NoCredential? && stuck(d)) then {d} else {}
    case Get(_) => {}
    case LetGo(d) => if IsLastHold(s, d) && stuck(d) then {d} else {}
    case Remove(h) => if h in s.profiles then set d | d in Unheld(s, {s.profiles[h].dir}) && stuck(d) else {}
    case ReapOlderThan(now, maxAge) =>
      set d | d in Unheld(s, set h | h in Stale(s, now, maxAge) :: s.profiles[h].dir) && stuck(d)
  }

  /** The caller is the only holder left. */
  predicate IsLastHold(s: State, d: Dir) {
    s.leases[d] == 1 && !(exists h :: h in s.profiles && s.profiles[h].dir == d)
  }

  function Stale(s: State, now: nat, maxAge: nat): set<Handle> {
    set h | h in s.profiles && Age(s.profiles[h], now) >= maxAge
  }

  function Apply(s: State, op: Op, stuck: Stuck): State {
    match op
    case Materialize(kind, now, attempt) =>
      var h := Handle(kind, s.nextSeed);
      var d := DirOf(h);
      var s' := s.(nextSeed := s.nextSeed + 1);
      match attempt {
        case NoDirectory => s'
        case NoPermissions => s'.(dirs := s.dirs + {d}, left := s.left + {d})
        case NoCredential => if stuck(d) then s'.(dirs := s.dirs + {d}, left := s.left + {d}) else s'
        case Written => s'.(profiles := s.profiles[h := Entry(now, d)], dirs := s.dirs + {d})
      }
    case Get(h) =>
      if h in s.profiles then s.(leases := s.leases + multiset{s.profiles[h].dir}) else s
    case LetGo(d) =>
      if d !in s.leases then s
      else
        var gone := if IsLastHold(s, d) then {d} else {};
        Deleted(s.(leases := s.leases - multiset{d}), gone, stuck)
    case Remove(h) => if h in s.profiles then RemoveAll(s, {h}, stuck) else s
    case ReapOlderThan(now, maxAge) => RemoveAll(s, Stale(s, now, maxAge), stuck)
  }

  /** The directories of profiles nobody holds any more are removed, or left. */
  function Deleted(s: State, gone: set<Dir>, stuck: Stuck): State {
    s.(dirs := s.dirs - (set d | d in gone && !stuck(d)), left := s.left + (set d | d in gone && stuck(d)))
  }

  function RemoveAll(s: State, gone: set<Handle>, stuck: Stuck): State
    requires gone <= s.profiles.Keys
  {
    Deleted(s, Unheld(s, set h | h in gone :: s.profiles[h].dir), stuck).(profiles := s.profiles - gone)
  }

  const EMPTY := State(map[], multiset{}, {}, 0, {})

  /** A caller lets go only of what it holds. */
  predicate MayHappen(s: State, op: Op) { op.LetGo? ==> op.dir in s.leases }

  ghost predicate Run(states: seq<State>, ops: seq<Op>, stuck: Stuck) {
    && |states| == |ops| + 1 && states[0] == EMPTY
    && forall i {:trigger ops[i]} :: 0 <= i < |ops| ==>
         MayHappen(states[i], ops[i]) && states[i + 1] == Apply(states[i], ops[i], stuck)
  }

  class ProviderProfileRegistry {
    var profiles: map<Handle, Entry>
    var leases: multiset<Dir>
    var dirs: set<Dir>
    var nextSeed: nat
    ghost var left: set<Dir>

    ghost function Value(): State
      reads this
    {
      State(profiles, leases, dirs, nextSeed, left)
    }

    constructor ()
      ensures Value() == EMPTY
    {
      profiles, leases, dirs, nextSeed := map[], multiset{}, {}, 0;
      left := {};
    }

    /** Delete a directory, unless that fails. */
    method DeleteDirectory(d: Dir, stuck: Stuck)
      modifies this`dirs, this`left
      ensures Value() == Deleted(old(Value()), {d}, stuck)
    {
      if stuck(d) {
        left := left + {d};
      } else {
        dirs := dirs - {d};
      }
    }

    /** A directory, its permissions, the credential in it, then the entry. A profile exists from
        the permissions on, and takes its directory with it when it is dropped. */
    method Create(kind: Kind, now: nat, attempt: Attempt, stuck: Stuck) returns (r: Option<Handle>)
      requires DirOf(Handle(kind, nextSeed)) !in dirs
      modifies this
      ensures Value() == Apply(old(Value()), Materialize(kind, now, attempt), stuck)
      ensures r == if attempt.Written? then Some(Handle(kind, old(nextSeed))) else None
    {
      var seed := nextSeed;
      nextSeed := nextSeed + 1;
      if attempt.NoDirectory? {
        return None;
      }
      var handle := Handle(kind, seed);
      dirs := dirs + {DirOf(handle)};
      if attempt.NoPermissions? {
        left := left + {DirOf(handle)};
        return None;
      }
      if attempt.NoCredential? {
        Withdrawn(old(Value()).(nextSeed := nextSeed), DirOf(handle), stuck);
        DeleteDirectory(DirOf(handle), stuck);
        return None;
      }
      profiles := profiles[handle := Entry(now, DirOf(handle))];
      return Some(handle);
    }

    method LookUp(handle: Handle, ghost stuck: Stuck) returns (r: Option<Dir>)
      modifies this
      ensures Value() == Apply(old(Value()), Get(handle), stuck)
      ensures r == if handle in old(profiles) then Some(old(profiles)[handle].dir) else None
    {
      if handle !in profiles {
        return None;
      }
      r := Some(profiles[handle].dir);
      leases := leases + multiset{profiles[handle].dir};
    }

    method Drop(handle: Handle, stuck: Stuck)
      modifies this
      ensures Value() == Apply(old(Value()), Remove(handle), stuck)
    {
      if handle in profiles {
        ghost var before := Value();
        var dir := profiles[handle].dir;
        profiles := profiles - {handle};
        if leases[dir] == 0 {
          DeleteDirectory(dir, stuck);
        }
        DropsOne(before, handle, stuck);
      }
    }

    /** Look at every entry, keep what is younger, drop the rest one by one. */
    method Reap(now: nat, maxAge: nat, stuck: Stuck)
      modifies this
      ensures Value() == Apply(old(Value()), ReapOlderThan(now, maxAge), stuck)
    {
      var pending := profiles.Keys;
      ghost var before := Value();
      ghost var dropped: set<Handle> := {};
      DropsNone(before, stuck);
      while pending != {}
        invariant Reaping(before, pending, dropped, now, maxAge) && Value() == RemoveAll(before, dropped, stuck)
        decreases |pending|
      {
        var handle :| handle in pending;
        DropsOneMore(before, dropped, handle, stuck);
        if !(Age(profiles[handle], now) < maxAge) {
          Drop(handle, stuck);
          dropped := dropped + {handle};
        }
        pending := pending - {handle};
      }
      assert dropped == Stale(before, now, maxAge);
    }
  }

  /** Of the entries, `pending` have yet to be looked at and `dropped` are the old ones so far. */
  ghost predicate Reaping(before: State, pending: set<Handle>, dropped: set<Handle>, now: nat, maxAge: nat) {
    && pending <= before.profiles.Keys && dropped <= before.profiles.Keys && pending !! dropped
    && forall h :: h in before.profiles && h !in pending ==> (h in dropped <==> Age(before.profiles[h], now) >= maxAge)
  }

  /** A new directory deleted at once is gone, or left. */
  lemma Withdrawn(s: State, d: Dir, stuck: Stuck)
    requires d !in s.dirs
    ensures Deleted(s.(dirs := s.dirs + {d}), {d}, stuck)
         == if stuck(d) then s.(dirs := s.dirs + {d}, left := s.left + {d}) else s
  {
  }

  lemma DropsNone(s: State, stuck: Stuck)
    ensures RemoveAll(s, {}, stuck) == s
  {
    assert s.profiles - {} == s.profiles;
  }

  lemma DropsOne(s: State, h: Handle, stuck: Stuck)
    requires h in s.profiles
    ensures var d := s.profiles[h].dir;
            RemoveAll(s, {h}, stuck)
            == Deleted(s, if s.leases[d] == 0 then {d} else {}, stuck).(profiles := s.profiles - {h})
  {
    assert (set g | g in {h} :: s.profiles[g].dir) == {s.profiles[h].dir};
    assert Unheld(s, {s.profiles[h].dir}) == if s.leases[s.profiles[h].dir] == 0 then {s.profiles[h].dir} else {};
  }

  lemma DropsOneMore(s: State, gone: set<Handle>, h: Handle, stuck: Stuck)
    requires gone <= s.profiles.Keys && h in s.profiles && h !in gone
    ensures RemoveAll(s, gone + {h}, stuck) == Apply(RemoveAll(s, gone, stuck), Remove(h), stuck)
  {
    var d := s.profiles[h].dir;
    var x, y := set g | g in gone :: s.profiles[g].dir, set g | g in gone + {h} :: s.profiles[g].dir;
    assert y == x + {d};
    DropsOne(RemoveAll(s, gone, stuck), h, stuck);
    UnheldOneMore(s, x, d);
    DeletedInTwo(s, Unheld(s, x), if s.leases[d] == 0 then {d} else {}, stuck);
    assert s.profiles - (gone + {h}) == s.profiles - gone - {h};
  }

  lemma DeletedInTwo(s: State, x: set<Dir>, y: set<Dir>, stuck: Stuck)
    ensures Deleted(s, x + y, stuck) == Deleted(Deleted(s, x, stuck), y, stuck)
  {
  }

  lemma UnheldOneMore(s: State, x: set<Dir>, d: Dir)
    ensures Unheld(s, x + {d}) == Unheld(s, x) + (if s.leases[d] == 0 then {d} else {})
  {
  }

  // ---------- Every run ----------

  /** Every entry has its own directory. */
  ghost predicate OwnDirs(s: State) {
    forall h :: h in s.profiles ==> s.profiles[h].dir == DirOf(h)
  }

  /** The registry or a caller holds the profile of this directory. */
  predicate Held(s: State, d: Dir) { d.handle in s.profiles || d in s.leases }

  /** On disk is what is held, and what has been left; and nothing left is held. */
  ghost predicate OnDisk(s: State) {
    && (forall d :: d in s.dirs <==> Held(s, d) || d in s.left)
    && (forall d :: d in s.left ==> !Held(s, d))
  }

  ghost predicate SeedsUsed(s: State) {
    && (forall h :: h in s.profiles ==> h.seed < s.nextSeed)
    && (forall d :: d in s.leases || d in s.left ==> d.handle.seed < s.nextSeed)
  }

  ghost predicate Inv(s: State) { OwnDirs(s) && OnDisk(s) && SeedsUsed(s) }

  lemma DirsOf(s: State, gone: set<Handle>, d: Dir)
    requires OwnDirs(s) && gone <= s.profiles.Keys
    ensures d in (set h | h in gone :: s.profiles[h].dir) <==> d.handle in gone
  {
    if d.handle in gone { assert s.profiles[d.handle].dir == d; }
  }

  lemma RemoveAllInv(s: State, gone: set<Handle>, stuck: Stuck)
    requires Inv(s) && gone <= s.profiles.Keys
    ensures Inv(RemoveAll(s, gone, stuck))
  {
    var s' := RemoveAll(s, gone, stuck);
    forall d ensures (d in s'.dirs <==> Held(s', d) || d in s'.left) && (d in s'.left ==> !Held(s', d)) {
      DirsOf(s, gone, d);
      assert d in s.leases <==> s.leases[d] != 0;
    }
    forall d | d in s'.left ensures d.handle.seed < s'.nextSeed {
      DirsOf(s, gone, d);
    }
  }

  /** Letting go of one hold ends the holding exactly if it was the last. */
  lemma LetGoHeld(s: State, d: Dir)
    requires OwnDirs(s) && d in s.leases
    ensures var t := s.(leases := s.leases - multiset{d});
            && (forall e :: Held(t, e) <==> Held(s, e) && !(e == d && IsLastHold(s, d)))
            && (forall e :: e in t.leases ==> e in s.leases)
  {
    assert (exists h :: h in s.profiles && s.profiles[h].dir == d) <==> d.handle in s.profiles by {
      if d.handle in s.profiles { assert s.profiles[d.handle].dir == d; }
    }
    var leases := s.leases - multiset{d};
    assert forall e :: e in leases <==> if e == d then s.leases[d] > 1 else e in s.leases;
  }

  lemma LetGoInv(s: State, d: Dir, stuck: Stuck)
    requires Inv(s) && d in s.leases
    ensures Inv(Apply(s, LetGo(d), stuck))
  {
    LetGoHeld(s, d);
    var t := s.(leases := s.leases - multiset{d});
    var u := Apply(s, LetGo(d), stuck);
    assert u == Deleted(t, if IsLastHold(s, d) then {d} else {}, stuck);
    assert forall e :: Held(u, e) <==> Held(t, e);
    assert Held(s, d);
  }

  lemma MaterializeInv(s: State, kind: Kind, now: nat, attempt: Attempt, stuck: Stuck)
    requires Inv(s)
    ensures Inv(Apply(s, Materialize(kind, now, attempt), stuck))
  {
  }

  lemma GetInv(s: State, h: Handle, stuck: Stuck)
    requires Inv(s)
    ensures Inv(Apply(s, Get(h), stuck))
  {
    if h in s.profiles {
      var leases := s.leases + multiset{s.profiles[h].dir};
      assert forall e :: e in leases <==> e in s.leases || e == s.profiles[h].dir;
    }
  }

  lemma StepInv(s: State, op: Op, stuck: Stuck)
    requires Inv(s) && MayHappen(s, op)
    ensures Inv(Apply(s, op, stuck))
  {
    match op
    case Materialize(kind, now, attempt) => MaterializeInv(s, kind, now, attempt, stuck);
    case Get(h) => GetInv(s, h, stuck);
    case LetGo(d) => LetGoInv(s, d, stuck);
    case Remove(h) => if h in s.profiles { RemoveAllInv(s, {h}, stuck); }
    case ReapOlderThan(now, maxAge) => RemoveAllInv(s, Stale(s, now, maxAge), stuck);
  }

  lemma StepLeaves(s: State, op: Op, stuck: Stuck)
    requires MayHappen(s, op)
    ensures Apply(s, op, stuck).left == s.left + Leaves(s, op, stuck)
  {
    if op.Remove? && op.handle in s.profiles {
      DropsOne(s, op.handle, stuck);
    }
  }

  lemma {:induction false} RunInv(states: seq<State>, ops: seq<Op>, stuck: Stuck, i: nat)
    requires Run(states, ops, stuck) && i < |states|
    ensures Inv(states[i])
  {
    if i > 0 {
      RunInv(states, ops, stuck, i - 1);
      assert MayHappen(states[i - 1], ops[i - 1]) && states[i - 1 + 1] == Apply(states[i - 1], ops[i - 1], stuck);
      StepInv(states[i - 1], ops[i - 1], stuck);
    }
  }

  /** Everything the first i operations have left behind. */
  function LeftBehind(states: seq<State>, ops: seq<Op>, stuck: Stuck, i: nat): set<Dir>
    requires i <= |states| && i <= |ops|
  {
    if i == 0 then {} else LeftBehind(states, ops, stuck, i - 1) + Leaves(states[i - 1], ops[i - 1], stuck)
  }

  lemma {:induction false} RunLeaves(states: seq<State>, ops: seq<Op>, stuck: Stuck, i: nat)
    requires Run(states, ops, stuck) && i < |states|
    ensures states[i].left == LeftBehind(states, ops, stuck, i)
  {
    if i > 0 {
      RunLeaves(states, ops, stuck, i - 1);
      StepLeaves(states[i - 1], ops[i - 1], stuck);
      assert MayHappen(states[i - 1], ops[i - 1]) && states[i - 1 + 1] == Apply(states[i - 1], ops[i - 1], stuck);
    }
  }

  lemma {:induction false} NothingLeftIff(states: seq<State>, ops: seq<Op>, stuck: Stuck, i: nat)
    requires i <= |states| && i <= |ops|
    ensures LeftBehind(states, ops, stuck, i) == {}
            <==> forall k :: 0 <= k < i ==> Leaves(states[k], ops[k], stuck) == {}
  {
    if i > 0 {
      NothingLeftIff(states, ops, stuck, i - 1);
    }
  }

  /** On disk are exactly the directories of live handles and of callers still holding one. */
  ghost predicate Exact(s: State) {
    forall d :: d in s.dirs <==> (exists h :: h in s.profiles && s.profiles[h].dir == d) || d in s.leases
  }

  lemma ExactIff(s: State)
    requires Inv(s)
    ensures Exact(s) <==> s.left == {}
  {
    forall d ensures (exists h :: h in s.profiles && s.profiles[h].dir == d) <==> d.handle in s.profiles {
      if d.handle in s.profiles { assert s.profiles[d.handle].dir == d; }
    }
    if Exact(s) {
      forall d ensures d !in s.left {
        assert d in s.dirs <==> Held(s, d);
      }
    }
  }

  /** Over every run: a handle that resolves names its own directory, which exists, and no other
      handle's; the next directory's name is free. On disk are exactly the directories that are
      held if and only if no operation so far has left one behind, by failing between the
      directory and its permissions or by failing to remove it; otherwise those besides. */
  lemma RegistryIsExact(states: seq<State>, ops: seq<Op>, stuck: Stuck, i: nat)
    requires Run(states, ops, stuck) && i < |states|
    ensures var s := states[i];
            && (forall h :: h in s.profiles ==> s.profiles[h].dir in s.dirs)
            && (forall g, h :: g in s.profiles && h in s.profiles && g != h ==> s.profiles[g].dir != s.profiles[h].dir)
            && (forall kind :: DirOf(Handle(kind, s.nextSeed)) !in s.dirs)
            && (forall d :: d in s.dirs <==> Held(s, d) || d in LeftBehind(states, ops, stuck, i))
            && (Exact(s) <==> forall k :: 0 <= k < i ==> Leaves(states[k], ops[k], stuck) == {})
  {
    RunInv(states, ops, stuck, i);
    RunLeaves(states, ops, stuck, i);
    NothingLeftIff(states, ops, stuck, i);
    ExactIff(states[i]);
  }

  /** An entry's age counts from the time its profile was made under its handle. */
  lemma {:induction false} CreatedWhenMade(states: seq<State>, ops: seq<Op>, stuck: Stuck, i: nat, h: Handle)
    returns (k: nat)
    requires Run(states, ops, stuck) && i < |states| && h in states[i].profiles
    ensures k < i && h.seed == states[k].nextSeed
    ensures ops[k] == Materialize(h.kind, states[i].profiles[h].createdAt, Written)
  {
    assert MayHappen(states[i - 1], ops[i - 1]) && states[i - 1 + 1] == Apply(states[i - 1], ops[i - 1], stuck);
    if h in states[i - 1].profiles && states[i - 1].profiles[h] == states[i].profiles[h] {
      k := CreatedWhenMade(states, ops, stuck, i - 1, h);
    } else {
      k := i - 1;
    }
  }

  /** Reaping drops exactly the entries at least `maxAge` old and keeps the rest as they are; a
      dropped profile keeps its directory exactly as long as a caller holds it, or for good if it
      cannot be removed. */
  lemma ReapsExactlyTheOld(s: State, now: nat, maxAge: nat, stuck: Stuck, h: Handle)
    requires Inv(s) && h in s.profiles
    ensures var s' := Apply(s, ReapOlderThan(now, maxAge), stuck);
            && (h in s'.profiles <==> maxAge > 0 && now < s.profiles[h].createdAt + maxAge)
            && (h in s'.profiles ==> s'.profiles[h] == s.profiles[h])
            && (h !in s'.profiles ==> (DirOf(h) in s'.dirs <==> DirOf(h) in s.leases || stuck(DirOf(h))))
  {
    DirsOf(s, Stale(s, now, maxAge), DirOf(h));
    assert DirOf(h) in s.dirs;
  }

  /** A handle that has stopped resolving never resolves again, to anything. */
  lemma {:induction false} DeadHandlesStayDead(
    states: seq<State>, ops: seq<Op>, stuck: Stuck, i: nat, j: nat, h: Handle)
    requires Run(states, ops, stuck) && i <= j < |states|
    requires h.seed < states[i].nextSeed && h !in states[i].profiles
    ensures h.seed < states[j].nextSeed && h !in states[j].profiles
  {
    if i < j {
      DeadHandlesStayDead(states, ops, stuck, i, j - 1, h);
      assert states[j - 1 + 1] == Apply(states[j - 1], ops[j - 1], stuck);
    }
  }

  lemma LeaseStays(s: State, op: Op, stuck: Stuck, d: Dir)
    requires d in s.leases && op != LetGo(d)
    ensures d in Apply(s, op, stuck).leases
  {
    if op.LetGo? && op.dir in s.leases {
      assert (s.leases - multiset{op.dir})[d] == s.leases[d];
    }
  }

  /** A held directory outlives removal and reaping, for as long as it stays held. */
  lemma {:induction false} HeldDirectoriesStay(
    states: seq<State>, ops: seq<Op>, stuck: Stuck, i: nat, j: nat, d: Dir)
    requires Run(states, ops, stuck) && i <= j < |states| && d in states[i].leases
    requires forall k :: i <= k < j ==> ops[k] != LetGo(d)
    ensures d in states[j].leases && d in states[j].dirs
  {
    if i < j {
      HeldDirectoriesStay(states, ops, stuck, i, j - 1, d);
      LeaseStays(states[j - 1], ops[j - 1], stuck, d);
      assert states[j - 1 + 1] == Apply(states[j - 1], ops[j - 1], stuck);
    }
    RunInv(states, ops, stuck, j);
  }
}
