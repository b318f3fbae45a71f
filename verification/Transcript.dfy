/**
 The live transcript of a shared room: messages merged from the page, the event stream and the
 polling fallback, and the cursor from which the next poll asks.
 */
module Transcript {
  import opened Wrappers

  datatype Status = Pending | Completed | Failed

  /** `generation` is what an assistant's reply carries while and after it is written. */
  datatype Message = Message(sequence: nat, text: seq<nat>, generation: Option<Status>, role: string)
  {
    predicate IsPending() { generation == Some(Pending) }
  }

  const PAGE_SIZE: nat := 200

  // ---------- Merging ----------

  type Table = map<int, Message>

  ghost predicate Coherent(m: Table) { forall k :: k in m ==> m[k].sequence == k }

  ghost predicate Increasing(ms: seq<Message>) {
    forall i, j :: 0 <= i < j < |ms| ==> ms[i].sequence < ms[j].sequence
  }

  /** An update arrives for what is there: a pending text never gives way to a shorter one. */
  function Update(existing: Option<Message>, message: Message): Message {
    if existing.Some? && existing.value.IsPending() && message.IsPending() && |message.text| < |existing.value.text|
    then existing.value
    else message
  }

  function Get(m: Table, k: int): Option<Message> { if k in m then Some(m[k]) else None }

  function Put(m: Table, message: Message): Table {
    m[message.sequence := Update(Get(m, message.sequence), message)]
  }

  function ToTable(ms: seq<Message>): Table {
    if ms == [] then map[] else ToTable(ms[..|ms| - 1])[ms[|ms| - 1].sequence := ms[|ms| - 1]]
  }

  function Fold(m: Table, batch: seq<Message>): Table {
    if batch == [] then m else Put(Fold(m, batch[..|batch| - 1]), batch[|batch| - 1])
  }

  lemma {:induction false} LeastExists(ks: set<int>) returns (k: int)
    requires ks != {}
    ensures k in ks && forall j :: j in ks ==> k <= j
    decreases |ks|
  {
    assert (forall x :: x !in ks) ==> ks == {};
    var first :| first in ks;
    var rest := ks - {first};
    k := first;
    if rest != {} {
      var l := LeastExists(rest);
      k := if l < first then l else first;
    }
    assert forall j :: j in ks ==> j == first || j in rest;
  }

  /** The values in order of sequence. */
  function Listing(m: Table): seq<Message>
    decreases |m|
  {
    if m == map[] then []
    else
      assert exists k :: k in m && forall j :: j in m ==> k <= j by { var k := LeastExists(m.Keys); }
      var k :| k in m && forall j :: j in m ==> k <= j;
      assert m.Keys - {k} == (m - {k}).Keys;
      [m[k]] + Listing(m - {k})
  }

  function Merge(current: seq<Message>, incoming: seq<Message>): seq<Message> {
    Listing(Fold(ToTable(current), incoming))
  }

  method MergeRoomMessages(current: seq<Message>, incoming: seq<Message>) returns (r: seq<Message>)
    ensures r == Merge(current, incoming)
  {
    var bySequence: Table := map[];
    for i := 0 to |current|
      invariant bySequence == ToTable(current[..i])
    {
      bySequence := bySequence[current[i].sequence := current[i]];
      assert current[..i + 1][..i] == current[..i];
    }
    assert current[..|current|] == current;
    for i := 0 to |incoming|
      invariant bySequence == Fold(ToTable(current), incoming[..i])
    {
      var message := incoming[i];
      assert incoming[..i + 1][..i] == incoming[..i];
      if message.sequence in bySequence {
        var existing := bySequence[message.sequence];
        if existing.IsPending() && message.IsPending() && |message.text| < |existing.text| {
          assert bySequence == Put(bySequence, message);
          continue;
        }
      }
      bySequence := bySequence[message.sequence := message];
    }
    assert incoming[..|incoming|] == incoming;
    r := Listing(bySequence);
  }

  // ---------- Listing a table ----------

  ghost predicate Lists(l: seq<Message>, m: Table) {
    && Increasing(l) && ToTable(l) == m
    && forall x :: x in l <==> x.sequence in m && m[x.sequence] == x
  }

  lemma ListingFirst(m: Table) returns (k: int)
    requires m != map[]
    ensures k in m && (forall j :: j in m ==> k <= j) && Listing(m) == [m[k]] + Listing(m - {k})
  {
    k := LeastExists(m.Keys);
  }

  lemma {:induction false} ListingIs(m: Table)
    requires Coherent(m)
    ensures Lists(Listing(m), m)
    decreases |m|
  {
    if m != map[] {
      var k := ListingFirst(m);
      assert m.Keys - {k} == (m - {k}).Keys;
      ListingIs(m - {k});
      ListingCons(m, k, Listing(m - {k}));
    }
  }

  lemma ListingCons(m: Table, k: int, l: seq<Message>)
    requires Coherent(m) && k in m && (forall j :: j in m ==> k <= j)
    requires Lists(l, m - {k})
    ensures Lists([m[k]] + l, m)
  {
    ListingConsIncreases(m, k, l);
    TableOfCons(m[k], l);
    assert (m - {k})[k := m[k]] == m;
    forall x ensures x in [m[k]] + l <==> x.sequence in m && m[x.sequence] == x {
      assert x in [m[k]] + l <==> x == m[k] || x in l;
    }
  }

  lemma ListingConsIncreases(m: Table, k: int, l: seq<Message>)
    requires Coherent(m) && k in m && (forall j :: j in m ==> k <= j)
    requires Lists(l, m - {k})
    ensures Increasing([m[k]] + l) && forall i :: 0 <= i < |l| ==> l[i].sequence != m[k].sequence
  {
    forall i | 0 <= i < |l| ensures k < l[i].sequence {
      assert l[i] in l;
    }
  }

  /** A first message that no later one shares its number with. */
  lemma {:induction false} TableOfCons(x: Message, ms: seq<Message>)
    requires forall i :: 0 <= i < |ms| ==> ms[i].sequence != x.sequence
    ensures ToTable([x] + ms) == ToTable(ms)[x.sequence := x]
    decreases |ms|
  {
    if ms == [] {
      assert [x] + ms == [x] && [x][..0] == [];
    } else {
      var n := |ms| - 1;
      TableOfCons(x, ms[..n]);
      assert ([x] + ms)[..|[x] + ms| - 1] == [x] + ms[..n];
    }
  }

  ghost predicate HasNumber(ms: seq<Message>, k: int) {
    exists i :: 0 <= i < |ms| && ms[i].sequence == k
  }

  lemma {:induction false} TableCoherent(ms: seq<Message>)
    ensures Coherent(ToTable(ms)) && forall k :: k in ToTable(ms) <==> HasNumber(ms, k)
  {
    if ms != [] {
      var n := |ms| - 1;
      TableCoherent(ms[..n]);
      assert forall i :: 0 <= i < n ==> ms[..n][i] == ms[i];
    }
  }

  lemma {:induction false} FoldCoherent(m: Table, batch: seq<Message>)
    requires Coherent(m)
    ensures Coherent(Fold(m, batch))
    ensures forall k :: k in Fold(m, batch) <==> k in m || HasNumber(batch, k)
  {
    if batch != [] {
      var n := |batch| - 1;
      FoldCoherent(m, batch[..n]);
      assert forall i :: 0 <= i < n ==> batch[..n][i] == batch[i];
    }
  }

  /** A merge is strictly increasing over exactly the numbers of both sides, in whatever order
      and however often they came. */
  lemma MergeIsUnion(current: seq<Message>, incoming: seq<Message>)
    ensures Increasing(Merge(current, incoming))
    ensures forall k :: HasNumber(Merge(current, incoming), k) <==> HasNumber(current, k) || HasNumber(incoming, k)
  {
    var m := Fold(ToTable(current), incoming);
    TableCoherent(current);
    FoldCoherent(ToTable(current), incoming);
    ListingIs(m);
    forall k ensures HasNumber(Listing(m), k) <==> k in m {
      if k in m { assert m[k] in Listing(m); }
      if HasNumber(Listing(m), k) {
        var i :| 0 <= i < |Listing(m)| && Listing(m)[i].sequence == k;
        assert Listing(m)[i] in Listing(m);
      }
    }
  }

  // ---------- One number at a time ----------

  /** What a batch makes of one number. */
  function Settle(start: Option<Message>, batch: seq<Message>, k: int): Option<Message> {
    if batch == [] then start
    else
      var before := Settle(start, batch[..|batch| - 1], k);
      var last := batch[|batch| - 1];
      if last.sequence == k then Some(Update(before, last)) else before
  }

  lemma {:induction false} FoldSettles(m: Table, batch: seq<Message>, k: int)
    ensures Get(Fold(m, batch), k) == Settle(Get(m, k), batch, k)
  {
    if batch != [] {
      FoldSettles(m, batch[..|batch| - 1], k);
    }
  }

  ghost predicate AllPending(batch: seq<Message>, k: int) {
    forall i :: 0 <= i < |batch| && batch[i].sequence == k ==> batch[i].IsPending()
  }

  predicate Longer(x: Option<Message>, y: Option<Message>) {
    x.Some? && x.value.IsPending() && (y.None? || |y.value.text| < |x.value.text|)
  }

  /** Pending updates alone: the longer of what was there and what the batch amounts to. */
  lemma {:induction false} PendingSettles(start: Option<Message>, batch: seq<Message>, k: int)
    requires AllPending(batch, k)
    ensures var best := Settle(None, batch, k);
            && (best.Some? ==> best.value.IsPending())
            && Settle(start, batch, k) == if best.None? || Longer(start, best) then start else best
  {
    if batch != [] {
      var n := |batch| - 1;
      assert forall i :: 0 <= i < n ==> batch[..n][i] == batch[i];
      PendingSettles(start, batch[..n], k);
    }
  }

  /** A finished update in the batch makes what was there irrelevant. */
  lemma {:induction false} FinishedSettles(s: Option<Message>, t: Option<Message>, batch: seq<Message>, k: int)
    requires !AllPending(batch, k)
    ensures Settle(s, batch, k) == Settle(t, batch, k)
  {
    var n := |batch| - 1;
    if !(batch[n].sequence == k && !batch[n].IsPending()) {
      var i :| 0 <= i < |batch| && batch[i].sequence == k && !batch[i].IsPending();
      assert batch[..n][i] == batch[i];
      FinishedSettles(s, t, batch[..n], k);
    }
  }

  lemma SettlesOnce(s: Option<Message>, batch: seq<Message>, k: int)
    ensures Settle(Settle(s, batch, k), batch, k) == Settle(s, batch, k)
  {
    if AllPending(batch, k) {
      PendingSettles(s, batch, k);
      PendingSettles(Settle(s, batch, k), batch, k);
    } else {
      FinishedSettles(Settle(s, batch, k), s, batch, k);
    }
  }

  lemma MergeAt(current: seq<Message>, incoming: seq<Message>, k: int)
    ensures Coherent(ToTable(Merge(current, incoming)))
    ensures ToTable(Merge(current, incoming)) == Fold(ToTable(current), incoming)
    ensures Get(ToTable(Merge(current, incoming)), k) == Settle(Get(ToTable(current), k), incoming, k)
  {
    TableCoherent(current);
    FoldCoherent(ToTable(current), incoming);
    ListingIs(Fold(ToTable(current), incoming));
    FoldSettles(ToTable(current), incoming, k);
  }

  lemma SameTable(x: Table, y: Table)
    requires forall k :: Get(x, k) == Get(y, k)
    ensures x == y
  {
    forall k ensures k in x <==> k in y { assert Get(x, k) == Get(y, k); }
    forall k | k in x ensures x[k] == y[k] { assert Get(x, k) == Get(y, k); }
  }

  /** Merging a batch again changes nothing. */
  lemma MergeIsIdempotent(current: seq<Message>, batch: seq<Message>)
    ensures Merge(Merge(current, batch), batch) == Merge(current, batch)
  {
    var once := Fold(ToTable(current), batch);
    forall k ensures Get(Fold(once, batch), k) == Get(once, k) {
      FoldSettles(once, batch, k);
      FoldSettles(ToTable(current), batch, k);
      SettlesOnce(Get(ToTable(current), k), batch, k);
    }
    SameTable(Fold(once, batch), once);
    MergeAt(current, batch, 0);
  }

  /** A batch of nothing but pending updates never takes text away from a pending reply. */
  lemma PendingTextGrows(current: seq<Message>, batch: seq<Message>, k: int)
    requires forall i :: 0 <= i < |batch| ==> batch[i].generation == Some(Pending)
    requires var was := Get(ToTable(current), k); was.Some? && was.value.generation == Some(Pending)
    ensures var was, now := Get(ToTable(current), k), Get(ToTable(Merge(current, batch)), k);
            now.Some? && now.value.generation == Some(Pending) && |now.value.text| >= |was.value.text|
  {
    MergeAt(current, batch, k);
    PendingSettles(Get(ToTable(current), k), batch, k);
  }

  /** The last update of a message stands, unless it would take text away from a pending reply
      that is still pending. */
  lemma LastUpdateStands(current: seq<Message>, batch: seq<Message>, m: Message)
    ensures var was := Get(ToTable(Merge(current, batch)), m.sequence);
            var now := Get(ToTable(Merge(current, batch + [m])), m.sequence);
            now == Some(m)
            || (now == was && was.Some? && was.value.generation == m.generation == Some(Pending)
                && |m.text| < |was.value.text|)
    ensures m.generation != Some(Pending) ==> Get(ToTable(Merge(current, batch + [m])), m.sequence) == Some(m)
  {
    MergeAt(current, batch, m.sequence);
    MergeAt(current, batch + [m], m.sequence);
    assert (batch + [m])[..|batch|] == batch;
  }

  lemma {:induction false} FoldConcat(m: Table, x: seq<Message>, y: seq<Message>)
    ensures Fold(m, x + y) == Fold(Fold(m, x), y)
    decreases |y|
  {
    if y == [] {
      assert x + y == x;
    } else {
      var n := |y| - 1;
      FoldConcat(m, x, y[..n]);
      assert (x + y)[..|x + y| - 1] == x + y[..n];
    }
  }

  /** Two merges are one. */
  lemma MergeConcat(current: seq<Message>, x: seq<Message>, y: seq<Message>)
    ensures Merge(Merge(current, x), y) == Merge(current, x + y)
  {
    MergeAt(current, x, 0);
    FoldConcat(ToTable(current), x, y);
  }

  lemma LaterNumbers(ms: seq<Message>)
    requires Increasing(ms) && ms != []
    ensures forall k :: k in ToTable(ms[1..]) ==> ms[0].sequence < k
  {
    TableCoherent(ms[1..]);
    forall k | k in ToTable(ms[1..]) ensures ms[0].sequence < k {
      var i :| 0 <= i < |ms[1..]| && ms[1..][i].sequence == k;
      assert ms[1..][i] == ms[i + 1];
    }
  }

  lemma TableOfIncreasing(ms: seq<Message>)
    requires Increasing(ms) && ms != []
    ensures ToTable(ms) == ToTable(ms[1..])[ms[0].sequence := ms[0]]
    ensures forall j :: j in ToTable(ms[1..]) ==> ms[0].sequence < j
  {
    LaterNumbers(ms);
    assert ms == [ms[0]] + ms[1..];
    TableOfCons(ms[0], ms[1..]);
  }

  /** The least entry put in front. */
  lemma ListingOfLeast(m: Table, x: Message)
    requires forall j :: j in m ==> x.sequence < j
    ensures Listing(m[x.sequence := x]) == [x] + Listing(m)
  {
    var n := m[x.sequence := x];
    var k := ListingFirst(n);
    assert x.sequence in n && k == x.sequence;
    assert n - {k} == m;
  }

  /** A strictly increasing list is the listing of its own table. */
  lemma {:induction false} ListingOfIncreasing(ms: seq<Message>)
    requires Increasing(ms)
    ensures Listing(ToTable(ms)) == ms
  {
    if ms != [] {
      ListingOfIncreasing(ms[1..]);
      TableOfIncreasing(ms);
      ListingOfLeast(ToTable(ms[1..]), ms[0]);
    }
  }

  // ---------- The cursor ----------

  function FirstPending(ms: seq<Message>): Option<int> {
    if ms == [] then None
    else if ms[0].IsPending() then Some(ms[0].sequence)
    else FirstPending(ms[1..])
  }

  lemma {:induction false} FirstPendingIsLeast(ms: seq<Message>)
    requires Increasing(ms)
    ensures forall i :: 0 <= i < |ms| && ms[i].IsPending() ==>
              FirstPending(ms).Some? && FirstPending(ms).value <= ms[i].sequence
  {
    if ms != [] && !ms[0].IsPending() {
      FirstPendingIsLeast(ms[1..]);
      forall i | 0 <= i < |ms| && ms[i].IsPending()
        ensures FirstPending(ms).Some? && FirstPending(ms).value <= ms[i].sequence
      {
        assert ms[1..][i - 1] == ms[i];
      }
    }
  }

  function Greatest(floor: int, ms: seq<Message>): (r: int)
    ensures r >= floor
  {
    if ms == [] then floor
    else
      var before := Greatest(floor, ms[..|ms| - 1]);
      var last := ms[|ms| - 1].sequence;
      if last > before then last else before
  }

  function Min(x: int, y: int): int { if x < y then x else y }

  /** What the messages route answers: the room's messages after a number, a page at most. */
  function After(server: seq<Message>, after: int): seq<Message> {
    if server == [] || server[0].sequence > after then server else After(server[1..], after)
  }

  function Page(server: seq<Message>, after: int): seq<Message> {
    var rest := After(server, after);
    if |rest| <= PAGE_SIZE then rest else rest[..PAGE_SIZE]
  }

  // ---------- What a transcript shows ----------

  datatype View = View(messages: seq<Message>, latest: int)

  /** The number of the last message, or -1 when there is none. */
  function LastNumber(ms: seq<Message>): int {
    if ms == [] then -1 else ms[|ms| - 1].sequence
  }

  ghost predicate ViewOk(v: View) { Increasing(v.messages) && v.latest == LastNumber(v.messages) }

  /** Where the next refresh starts: before the first reply still being written. */
  function CursorOf(v: View): int {
    var pending := FirstPending(v.messages);
    if pending.None? then v.latest else Min(v.latest, pending.value - 1)
  }

  function Added(v: View, incoming: seq<Message>): View {
    View(Merge(v.messages, incoming), Greatest(v.latest, incoming))
  }

  /** A refresh that has fetched every page. */
  function Refreshed(v: View, server: seq<Message>): View {
    Added(v, After(server, CursorOf(v)))
  }

  lemma AddedNothing(v: View)
    requires ViewOk(v)
    ensures Added(v, []) == v
  {
    ListingOfIncreasing(v.messages);
  }

  lemma AddedOk(v: View, incoming: seq<Message>)
    requires ViewOk(v)
    ensures ViewOk(Added(v, incoming)) && Added(v, incoming).latest >= v.latest
  {
    MergeIsUnion(v.messages, incoming);
    LastIsGreatest(v.messages, incoming, Merge(v.messages, incoming));
  }

  lemma LastIsNumber(ms: seq<Message>)
    requires Increasing(ms)
    ensures ms != [] ==> HasNumber(ms, LastNumber(ms))
    ensures forall k :: HasNumber(ms, k) ==> 0 <= k <= LastNumber(ms)
  {
  }

  lemma {:induction false} GreatestIsNumber(floor: int, ms: seq<Message>)
    ensures Greatest(floor, ms) == floor || HasNumber(ms, Greatest(floor, ms))
    ensures forall k :: HasNumber(ms, k) ==> k <= Greatest(floor, ms)
  {
    if ms != [] {
      var shorter, m := ms[..|ms| - 1], ms[|ms| - 1];
      GreatestIsNumber(floor, shorter);
      assert m in ms;
      forall k ensures HasNumber(ms, k) <==> HasNumber(shorter, k) || k == m.sequence {
        if HasNumber(shorter, k) {
          var i :| 0 <= i < |shorter| && shorter[i].sequence == k;
          assert ms[i] == shorter[i];
        }
        if HasNumber(ms, k) && k != m.sequence {
          var i :| 0 <= i < |ms| && ms[i].sequence == k;
          assert ms[i] == shorter[i];
        }
      }
    }
  }

  ghost predicate HasBoth(z: seq<Message>, x: seq<Message>, y: seq<Message>) {
    forall k :: HasNumber(z, k) <==> HasNumber(x, k) || HasNumber(y, k)
  }

  /** The last number of a union is the greatest on either side. */
  lemma LastIsGreatest(x: seq<Message>, y: seq<Message>, z: seq<Message>)
    requires Increasing(x) && Increasing(z) && HasBoth(z, x, y)
    ensures LastNumber(z) == Greatest(LastNumber(x), y)
  {
    LastIsNumber(x);
    LastIsNumber(z);
    GreatestIsNumber(LastNumber(x), y);
    var g, l := Greatest(LastNumber(x), y), LastNumber(z);
    assert HasNumber(z, g) || g == -1;
    assert l == -1 || HasNumber(x, l) || HasNumber(y, l);
  }

  lemma {:induction false} GreatestConcat(floor: int, x: seq<Message>, y: seq<Message>)
    ensures Greatest(Greatest(floor, x), y) == Greatest(floor, x + y)
    decreases |y|
  {
    if y == [] {
      assert x + y == x;
    } else {
      var m, shorter := y[|y| - 1], y[..|y| - 1];
      GreatestConcat(floor, x, shorter);
      assert x + y == (x + shorter) + [m];
      GreatestSnoc(Greatest(floor, x), shorter, m);
      GreatestSnoc(floor, x + shorter, m);
      assert y == shorter + [m];
    }
  }

  lemma GreatestSnoc(floor: int, ms: seq<Message>, m: Message)
    ensures var before := Greatest(floor, ms);
            Greatest(floor, ms + [m]) == if m.sequence > before then m.sequence else before
  {
    assert (ms + [m])[..|ms|] == ms;
  }

  lemma AddedConcat(v: View, x: seq<Message>, y: seq<Message>)
    ensures Added(Added(v, x), y) == Added(v, x + y)
  {
    MergeConcat(v.messages, x, y);
    GreatestConcat(v.latest, x, y);
  }

  /** The cursor is at or past k exactly when a message is, and none up to k is being written. */
  lemma CursorReachesIff(v: View, k: int)
    requires ViewOk(v)
    ensures CursorOf(v) >= k <==> v.latest >= k && FinishedUpTo(v.messages, k)
  {
    FirstPendingIsLeast(v.messages);
    FirstPendingIsOne(v.messages);
  }

  class LiveTranscript {
    var messages: seq<Message>
    var latestSequence: int
    var pendingSequence: Option<int>

    ghost function Value(): View
      reads this
    {
      View(messages, latestSequence)
    }

    ghost predicate Valid()
      reads this
    {
      ViewOk(Value()) && pendingSequence == FirstPending(messages)
    }

    constructor (initial: seq<Message>)
      requires Increasing(initial)
      ensures Valid() && messages == initial
    {
      messages := initial;
      latestSequence := if initial == [] then -1 else initial[|initial| - 1].sequence;
      pendingSequence := FirstPending(initial);
    }

    method AddMessages(incoming: seq<Message>)
      requires Valid()
      modifies this
      ensures Valid() && Value() == Added(old(Value()), incoming)
    {
      ghost var before := Value();
      AddedOk(before, incoming);
      if incoming == [] {
        AddedNothing(before);
        return;
      }
      latestSequence := Greatest(latestSequence, incoming);
      messages := MergeRoomMessages(messages, incoming);
      pendingSequence := FirstPending(messages);
    }

    function Cursor(): (r: int)
      reads this
      ensures Valid() ==> r == CursorOf(Value())
    {
      if pendingSequence.None? then latestSequence else Min(latestSequence, pendingSequence.value - 1)
    }

    /** The cursor leaves every pending message to be asked for again. */
    lemma CursorIsBelowPending()
      requires Valid()
      ensures forall i :: 0 <= i < |messages| && messages[i].IsPending() ==> Cursor() < messages[i].sequence
      ensures forall i :: 0 <= i < |messages| && messages[i].sequence <= Cursor() ==> !messages[i].IsPending()
      ensures pendingSequence.None? ==> forall i :: 0 <= i < |messages| ==> messages[i].sequence <= Cursor()
    {
      FirstPendingIsLeast(messages);
    }

    /** Page after page until one is not full; together they are everything after the cursor.
        What lies at or before it stays as it is, absent messages included, and since the cursor
        never falls, later refreshes leave it alone too. */
    method Refresh(server: seq<Message>)
      requires Valid() && Increasing(server)
      modifies this
      ensures Valid() && Value() == Refreshed(old(Value()), server)
      ensures messages == Merge(old(messages), After(server, old(Cursor())))
      ensures SameUpTo(old(messages), messages, old(Cursor()))
      ensures Cursor() >= old(Cursor())
    {
      var after := Cursor();
      ghost var before, missing, n := Value(), After(server, after), 0;
      RefreshStarts(before, server, after);
      while true
        invariant Valid() && Refreshing(before, missing, n, Value(), server, after)
        decreases |missing| - n
      {
        var page := Page(server, after);
        RefreshGoesOn(before, missing, n, Value(), server, after);
        ghost var now := Added(Value(), page);
        AddMessages(page);
        if IsLast(page, after) {
          assert Value() == now == Added(before, missing);
          break;
        }
        after := page[|page| - 1].sequence;
        n := n + |page|;
        assert Value() == now;
      }
      RefreshKeeps(before, server);
    }
  }

  predicate IsLast(page: seq<Message>, after: int) {
    |page| < PAGE_SIZE || page == [] || page[|page| - 1].sequence <= after
  }

  /** n of the missing messages are merged, and the room's answer after the cursor is the rest. */
  ghost predicate Refreshing(
    before: View, missing: seq<Message>, n: nat, now: View, server: seq<Message>, after: int)
  {
    n <= |missing| && now == Added(before, missing[..n]) && After(server, after) == missing[n..]
  }

  lemma RefreshStarts(before: View, server: seq<Message>, after: int)
    requires ViewOk(before)
    ensures Refreshing(before, After(server, after), 0, before, server, after)
  {
    AddedNothing(before);
    assert After(server, after)[..0] == [] && After(server, after)[0..] == After(server, after);
  }

  lemma PageMerged(before: View, missing: seq<Message>, n: nat, now: View, server: seq<Message>, after: int)
    requires Refreshing(before, missing, n, now, server, after)
    ensures var page := Page(server, after);
            && n + |page| <= |missing| && missing[n + |page|..] == After(server, after)[|page|..]
            && Added(now, page) == Added(before, missing[..n + |page|])
  {
    var page := Page(server, after);
    PageIs(server, after);
    TakeMore(missing, n, |page|);
    AddedConcat(before, missing[..n], page);
  }

  lemma PageIs(server: seq<Message>, after: int)
    ensures var page, rest := Page(server, after), After(server, after);
            |page| <= |rest| && page == rest[..|page|]
  {
    var rest := After(server, after);
    assert rest[..|rest|] == rest;
  }

  lemma TakeMore(ms: seq<Message>, n: nat, k: nat)
    requires n <= |ms| && k <= |ms[n..]|
    ensures ms[..n + k] == ms[..n] + ms[n..][..k]
    ensures ms[n + k..] == ms[n..][k..]
  {
  }

  lemma RefreshGoesOn(before: View, missing: seq<Message>, n: nat, now: View, server: seq<Message>, after: int)
    requires Increasing(server) && Refreshing(before, missing, n, now, server, after)
    ensures var page := Page(server, after);
            if IsLast(page, after) then Added(now, page) == Added(before, missing)
            else n + |page| <= |missing| && |page| > 0
                 && Refreshing(before, missing, n + |page|, Added(now, page), server, page[|page| - 1].sequence)
  {
    var page := Page(server, after);
    PageMerged(before, missing, n, now, server, after);
    if IsLast(page, after) {
      PageEnds(server, after, page);
      assert missing[..n + |page|] == missing;
    } else {
      AfterPage(server, after, |page|);
    }
  }

  lemma {:induction false} AfterIsSuffix(server: seq<Message>, after: int)
    requires Increasing(server)
    ensures Increasing(After(server, after))
    ensures forall i :: 0 <= i < |After(server, after)| ==> After(server, after)[i].sequence > after
    ensures forall x :: x in After(server, after) <==> x in server && x.sequence > after
  {
    if server != [] && server[0].sequence <= after {
      AfterIsSuffix(server[1..], after);
    }
  }

  lemma PageEnds(server: seq<Message>, after: int, page: seq<Message>)
    requires Increasing(server) && page == Page(server, after)
    requires IsLast(page, after)
    ensures page == After(server, after)
  {
    AfterIsSuffix(server, after);
  }

  lemma {:induction false} AfterPage(server: seq<Message>, after: int, n: nat)
    requires Increasing(server) && 0 < n <= |After(server, after)|
    ensures After(server, After(server, after)[n - 1].sequence) == After(server, after)[n..]
  {
    if server[0].sequence <= after {
      AfterIsSuffix(server[1..], after);
      AfterPage(server[1..], after, n);
    } else {
      SkipFirst(server, n);
    }
  }

  lemma {:induction false} SkipFirst(server: seq<Message>, n: nat)
    requires Increasing(server) && 0 < n <= |server|
    ensures After(server, server[n - 1].sequence) == server[n..]
  {
    if n > 1 {
      SkipFirst(server[1..], n - 1);
      assert server[1..][n - 2] == server[n - 1] && server[1..][n - 1..] == server[n..];
    } else {
      assert server[1..] == [] || server[1].sequence > server[0].sequence;
    }
  }

  /** After a refresh every message of the room past the old cursor is there as the server has
      it, unless both are pending and the local text is further along. */
  lemma RefreshCatchesUp(before: seq<Message>, server: seq<Message>, cursor: int, x: Message)
    requires Increasing(server) && x in server && x.sequence > cursor
    ensures var was := Get(ToTable(before), x.sequence);
            var now := Get(ToTable(Merge(before, After(server, cursor))), x.sequence);
            now == if was.Some? && was.value.IsPending() && x.IsPending() && |x.text| < |was.value.text|
                   then was else Some(x)
  {
    var missing := After(server, cursor);
    AfterIsSuffix(server, cursor);
    MergeAt(before, missing, x.sequence);
    var i :| 0 <= i < |missing| && missing[i] == x;
    SettlesAs(Get(ToTable(before), x.sequence), missing, i);
  }

  lemma FirstPendingIsOne(ms: seq<Message>)
    ensures var p := FirstPending(ms);
            p.Some? ==> exists i :: 0 <= i < |ms| && ms[i].IsPending() && ms[i].sequence == p.value
  {
    if ms != [] && !ms[0].IsPending() {
      FirstPendingIsOne(ms[1..]);
      if FirstPending(ms).Some? {
        var i :| 0 <= i < |ms| - 1 && ms[1..][i].IsPending() && ms[1..][i].sequence == FirstPending(ms).value;
        assert ms[i + 1] == ms[1..][i];
      }
    }
  }

  lemma TableHolds(ms: seq<Message>, x: Message)
    requires Increasing(ms)
    ensures x in ms <==> Get(ToTable(ms), x.sequence) == Some(x)
  {
    TableCoherent(ms);
    ListingIs(ToTable(ms));
    ListingOfIncreasing(ms);
  }

  ghost predicate FinishedUpTo(ms: seq<Message>, cursor: int) {
    forall i :: 0 <= i < |ms| && ms[i].sequence <= cursor ==> !ms[i].IsPending()
  }

  ghost predicate SameUpTo(before: seq<Message>, now: seq<Message>, cursor: int) {
    forall k :: k <= cursor ==> Get(ToTable(now), k) == Get(ToTable(before), k)
  }

  /** Messages past the cursor change nothing at or before it, and none there becomes pending, so the
      cursor does not fall. */
  lemma RefreshKeeps(before: View, server: seq<Message>)
    requires ViewOk(before) && Increasing(server)
    ensures var now := Refreshed(before, server);
            && ViewOk(now) && SameUpTo(before.messages, now.messages, CursorOf(before))
            && CursorOf(now) >= CursorOf(before)
  {
    var cursor := CursorOf(before);
    var missing := After(server, cursor);
    var now := Refreshed(before, server);
    AfterIsSuffix(server, cursor);
    AddedOk(before, missing);
    CursorReachesIff(before, cursor);
    forall k | k <= cursor ensures Get(ToTable(now.messages), k) == Get(ToTable(before.messages), k) {
      MergeAt(before.messages, missing, k);
      Untouched(Get(ToTable(before.messages), k), missing, k);
    }
    SameIsFinished(before.messages, now.messages, cursor);
    CursorReachesIff(now, cursor);
  }

  lemma SameIsFinished(before: seq<Message>, now: seq<Message>, cursor: int)
    requires Increasing(before) && Increasing(now)
    requires SameUpTo(before, now, cursor) && FinishedUpTo(before, cursor)
    ensures FinishedUpTo(now, cursor)
  {
    forall i | 0 <= i < |now| && now[i].sequence <= cursor ensures !now[i].IsPending() {
      TableHolds(now, now[i]);
      TableHolds(before, now[i]);
    }
  }

  /** Of the room's messages a refresh brings those past the last one shown, and those that a reply still
      being written comes before or is; the others it leaves out. */
  lemma RefreshBringsIff(v: View, server: seq<Message>, k: int)
    requires ViewOk(v) && Increasing(server) && HasNumber(server, k)
    ensures HasNumber(Refreshed(v, server).messages, k)
            <==> HasNumber(v.messages, k) || k > LastNumber(v.messages)
                 || exists i :: 0 <= i < |v.messages| && v.messages[i].IsPending() && v.messages[i].sequence <= k
  {
    CursorReachesIff(v, k);
    HandledHasIff(v, Refresh(server), k);
  }

  ghost predicate Holds(ms: seq<Message>, server: seq<Message>, upTo: int) {
    forall i :: 0 <= i < |server| && server[i].sequence <= upTo ==> HasNumber(ms, server[i].sequence)
  }

  /** A refresh leaves no message of the room missing if and only if none was missing at or before
      the cursor. */
  lemma NoGapIff(before: seq<Message>, server: seq<Message>, cursor: int)
    requires Increasing(server)
    ensures var now := Merge(before, After(server, cursor));
            (forall i :: 0 <= i < |server| ==> HasNumber(now, server[i].sequence)) <==> Holds(before, server, cursor)
  {
    var missing := After(server, cursor);
    MergeIsUnion(before, missing);
    AfterIsSuffix(server, cursor);
    forall i | 0 <= i < |server|
      ensures HasNumber(missing, server[i].sequence) <==> server[i].sequence > cursor
    {
      if server[i].sequence > cursor {
        assert server[i] in missing;
      }
    }
  }

  // ---------- A series of live batches and refreshes ----------

  datatype Event = Live(batch: seq<Message>) | Refresh(server: seq<Message>)

  function Handled(v: View, e: Event): View {
    match e
    case Live(batch) => Added(v, batch)
    case Refresh(server) => Refreshed(v, server)
  }

  ghost predicate Series(views: seq<View>, events: seq<Event>) {
    && |views| == |events| + 1 && ViewOk(views[0])
    && forall i {:trigger events[i]} :: 0 <= i < |events| ==>
         (events[i].Refresh? ==> Increasing(events[i].server)) && views[i + 1] == Handled(views[i], events[i])
  }

  lemma {:induction false} SeriesOk(views: seq<View>, events: seq<Event>, n: nat)
    requires Series(views, events) && n < |views|
    ensures ViewOk(views[n])
  {
    if n > 0 {
      SeriesOk(views, events, n - 1);
      var v, e := views[n - 1], events[n - 1];
      assert views[n - 1 + 1] == Handled(v, e);
      AddedOk(v, if e.Live? then e.batch else After(e.server, CursorOf(v)));
    }
  }

  /** A live batch brings what is in it, a refresh what the room holds past the cursor. */
  ghost predicate Brings(v: View, e: Event, k: int) {
    match e
    case Live(batch) => HasNumber(batch, k)
    case Refresh(server) => k > CursorOf(v) && HasNumber(server, k)
  }

  lemma HandledHasIff(v: View, e: Event, k: int)
    requires e.Refresh? ==> Increasing(e.server)
    ensures HasNumber(Handled(v, e).messages, k) <==> HasNumber(v.messages, k) || Brings(v, e, k)
  {
    match e
    case Live(batch) => MergeIsUnion(v.messages, batch);
    case Refresh(server) =>
      MergeIsUnion(v.messages, After(server, CursorOf(v)));
      NumbersAfter(server, CursorOf(v), k);
  }

  lemma NumbersAfter(server: seq<Message>, after: int, k: int)
    requires Increasing(server)
    ensures HasNumber(After(server, after), k) <==> k > after && HasNumber(server, k)
  {
    AfterIsSuffix(server, after);
    if k > after && HasNumber(server, k) {
      var i :| 0 <= i < |server| && server[i].sequence == k;
      assert server[i] in After(server, after);
    }
    if HasNumber(After(server, after), k) {
      var i :| 0 <= i < |After(server, after)| && After(server, after)[i].sequence == k;
      assert After(server, after)[i] in After(server, after);
    }
  }

  ghost predicate Brought(views: seq<View>, events: seq<Event>, n: nat, k: int)
    requires n <= |events| && n <= |views|
  {
    exists i :: 0 <= i < n && Brings(views[i], events[i], k)
  }

  lemma BroughtStep(views: seq<View>, events: seq<Event>, n: nat, k: int)
    requires 0 < n <= |events| && n <= |views|
    ensures Brought(views, events, n, k)
            <==> Brought(views, events, n - 1, k) || Brings(views[n - 1], events[n - 1], k)
  {
    if Brought(views, events, n, k) {
      var i :| 0 <= i < n && Brings(views[i], events[i], k);
    }
  }

  /** A message is shown exactly if it was from the start or some event brought it. */
  lemma {:induction false} ShownIffBrought(views: seq<View>, events: seq<Event>, n: nat, k: int)
    requires Series(views, events) && n < |views|
    ensures HasNumber(views[n].messages, k) <==> HasNumber(views[0].messages, k) || Brought(views, events, n, k)
  {
    if n > 0 {
      ShownIffBrought(views, events, n - 1, k);
      assert views[n - 1 + 1] == Handled(views[n - 1], events[n - 1]);
      HandledHasIff(views[n - 1], events[n - 1], k);
      BroughtStep(views, events, n, k);
    }
  }

  /** Number k is absent, with a message past it and none before it being written. */
  ghost predicate Overtaken(v: View, k: int) {
    ViewOk(v) && !HasNumber(v.messages, k) && v.latest >= k && FinishedUpTo(v.messages, k)
  }

  /** The batch neither is k nor reopens anything before it. */
  predicate PassesBy(batch: seq<Message>, k: int) {
    forall i :: 0 <= i < |batch| ==> batch[i].sequence > k || (batch[i].sequence < k && !batch[i].IsPending())
  }

  lemma {:induction false} SettlesFinished(start: Option<Message>, batch: seq<Message>, k: int)
    requires start.Some? ==> !start.value.IsPending()
    requires forall i :: 0 <= i < |batch| && batch[i].sequence == k ==> !batch[i].IsPending()
    ensures var now := Settle(start, batch, k); now.Some? ==> !now.value.IsPending()
  {
    if batch != [] {
      SettlesFinished(start, batch[..|batch| - 1], k);
    }
  }

  lemma StaysFinished(v: View, batch: seq<Message>, k: int)
    requires ViewOk(v) && FinishedUpTo(v.messages, k) && !HasNumber(v.messages, k) && PassesBy(batch, k)
    ensures FinishedUpTo(Added(v, batch).messages, k) && !HasNumber(Added(v, batch).messages, k)
  {
    var now := Added(v, batch).messages;
    MergeIsUnion(v.messages, batch);
    forall i | 0 <= i < |now| && now[i].sequence <= k ensures !now[i].IsPending() {
      var l := now[i].sequence;
      assert HasNumber(now, l);
      var was := Get(ToTable(v.messages), l);
      TableHolds(now, now[i]);
      if was.Some? {
        TableCoherent(v.messages);
        TableHolds(v.messages, was.value);
      }
      MergeAt(v.messages, batch, l);
      SettlesFinished(was, batch, l);
    }
  }

  lemma OvertakenStep(v: View, e: Event, k: int)
    requires Overtaken(v, k) && (if e.Live? then PassesBy(e.batch, k) else Increasing(e.server))
    ensures Overtaken(Handled(v, e), k)
  {
    match e
    case Live(batch) =>
      AddedOk(v, batch);
      StaysFinished(v, batch, k);
    case Refresh(server) =>
      CursorReachesIff(v, k);
      RefreshKeeps(v, server);
      CursorReachesIff(Refreshed(v, server), k);
      HandledHasIff(v, e, k);
  }

  /** Refreshes do not repair a gap: when a message arrives live before an earlier one, number k, then
      through any series of refreshes, whatever the room answers, and of live batches that pass it
      by, k stays absent. Only a live batch that holds it, or one that reopens an earlier message,
      can bring it back. */
  lemma {:induction false} MissedForGood(
    v: View, c: Message, k: int, views: seq<View>, events: seq<Event>, n: nat)
    requires ViewOk(v) && !HasNumber(v.messages, k) && FinishedUpTo(v.messages, k) && k < c.sequence
    requires Series(views, events) && views[0] == Added(v, [c]) && n < |views|
    requires forall i :: 0 <= i < n && events[i].Live? ==> PassesBy(events[i].batch, k)
    ensures Overtaken(views[n], k) && !HasNumber(views[n].messages, k)
  {
    if n == 0 {
      AddedOk(v, [c]);
      StaysFinished(v, [c], k);
      assert [c][0].sequence <= Greatest(v.latest, [c]);
    } else {
      MissedForGood(v, c, k, views, events, n - 1);
      assert views[n - 1 + 1] == Handled(views[n - 1], events[n - 1]);
      OvertakenStep(views[n - 1], events[n - 1], k);
    }
  }

  lemma {:induction false} SettlesAs(start: Option<Message>, batch: seq<Message>, i: nat)
    requires Increasing(batch) && i < |batch|
    ensures Settle(start, batch, batch[i].sequence) == Some(Update(start, batch[i]))
    decreases |batch|
  {
    var n := |batch| - 1;
    if i == n {
      Untouched(start, batch[..n], batch[n].sequence);
    } else {
      SettlesAs(start, batch[..n], i);
    }
  }

  lemma {:induction false} Untouched(start: Option<Message>, batch: seq<Message>, k: int)
    requires forall i :: 0 <= i < |batch| ==> batch[i].sequence != k
    ensures Settle(start, batch, k) == start
  {
    if batch != [] {
      Untouched(start, batch[..|batch| - 1], k);
    }
  }
}
