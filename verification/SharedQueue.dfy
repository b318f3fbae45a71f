/**
 The durable turn queue of a shared session: its order by position, time and id, and the
 position a new turn gets. Rows come in any arrangement, and older ones were written
 without unique positions; the order and the next position are computed afresh every time.
 */
module SharedQueue {
  import opened Ordering

  type Text = seq<nat>

  datatype Entry = Entry(id: Text, authorId: Text, prompt: Text, queuePosition: nat, enqueuedAt: Text)

  datatype Input = Input(id: Text, authorId: Text, prompt: Text, enqueuedAt: Text)

  /** `localeCompare`: negative, zero or positive. */
  type Collation = (Text, Text) -> int

  /** What any collation provides: a total preorder, read from either side alike. */
  ghost predicate Collates(c: Collation) {
    && (forall s, t :: c(s, t) < 0 <==> c(t, s) > 0)
    && (forall s, t, u :: c(s, t) <= 0 && c(t, u) <= 0 ==> c(s, u) <= 0)
  }

  /** By position, then time, then id: the first difference decides. */
  function Compare(c: Collation, left: Entry, right: Entry): int {
    if left.queuePosition != right.queuePosition then left.queuePosition - right.queuePosition
    else if c(left.enqueuedAt, right.enqueuedAt) != 0 then c(left.enqueuedAt, right.enqueuedAt)
    else c(left.id, right.id)
  }

  function NotAfter(c: Collation): (Entry, Entry) -> bool {
    (x: Entry, y: Entry) => Compare(c, x, y) <= 0
  }

  function Order(c: Collation, queue: seq<Entry>): seq<Entry> { Sort(queue, NotAfter(c)) }

  lemma NotAfterIsOrdered(c: Collation)
    requires Collates(c)
    ensures Ordered(NotAfter(c))
  {
    forall x, y, z | NotAfter(c)(x, y) && NotAfter(c)(y, z) ensures NotAfter(c)(x, z) {
      CompareTransitive(c, x, y, z);
    }
  }

  lemma CompareTransitive(c: Collation, x: Entry, y: Entry, z: Entry)
    requires Collates(c) && Compare(c, x, y) <= 0 && Compare(c, y, z) <= 0
    ensures Compare(c, x, z) <= 0
  {
    assert c(x.enqueuedAt, y.enqueuedAt) <= 0 && c(y.enqueuedAt, z.enqueuedAt) <= 0
      ==> c(x.enqueuedAt, z.enqueuedAt) <= 0;
    assert c(z.enqueuedAt, x.enqueuedAt) <= 0 && c(x.enqueuedAt, y.enqueuedAt) <= 0
      ==> c(z.enqueuedAt, y.enqueuedAt) <= 0;
    assert c(y.enqueuedAt, z.enqueuedAt) <= 0 && c(z.enqueuedAt, x.enqueuedAt) <= 0
      ==> c(y.enqueuedAt, x.enqueuedAt) <= 0;
    assert c(x.id, y.id) <= 0 && c(y.id, z.id) <= 0 ==> c(x.id, z.id) <= 0;
  }

  /** The same entries; of any two the earlier has the lower position, or at one position the
      earlier time, or at one time an id that does not come later. */
  lemma OrderSorts(c: Collation, queue: seq<Entry>)
    requires Collates(c)
    ensures multiset(Order(c, queue)) == multiset(queue) && |Order(c, queue)| == |queue|
    ensures forall i, j :: 0 <= i < j < |queue| ==>
              var x, y := Order(c, queue)[i], Order(c, queue)[j];
              x.queuePosition < y.queuePosition
              || (x.queuePosition == y.queuePosition
                  && (c(x.enqueuedAt, y.enqueuedAt) < 0 || (c(x.enqueuedAt, y.enqueuedAt) == 0 && c(x.id, y.id) <= 0)))
  {
    var sorted := Order(c, queue);
    NotAfterIsOrdered(c);
    SortSorts(queue, NotAfter(c));
    SortPermutes(queue, NotAfter(c));
    assert |multiset(sorted)| == |sorted| && |multiset(queue)| == |queue|;
    assert forall i, j :: 0 <= i < j < |queue| ==> NotAfter(c)(sorted[i], sorted[j]);
  }

  // ---------- One order for every arrangement ----------

  function Place<T>(x: T, ys: seq<T>, le: (T, T) -> bool): (i: nat)
    ensures i <= |ys|
  {
    if ys == [] || le(x, ys[0]) then 0 else 1 + Place(x, ys[1..], le)
  }

  lemma {:induction false} InsertAtPlace<T>(x: T, ys: seq<T>, le: (T, T) -> bool)
    ensures var i := Place(x, ys, le); Insert(x, ys, le) == ys[..i] + [x] + ys[i..]
  {
    if ys != [] && !le(x, ys[0]) {
      InsertAtPlace(x, ys[1..], le);
      Shift(ys, Place(x, ys[1..], le), x);
    }
  }

  lemma Shift<T>(ys: seq<T>, i: nat, x: T)
    requires i < |ys|
    ensures [ys[0]] + (ys[1..][..i] + [x] + ys[1..][i..]) == ys[..i + 1] + [x] + ys[i + 1..]
  {
  }

  /** Of two that tie, the one inserted later comes first. */
  lemma {:induction false} TiePlace<T(!new)>(x: T, y: T, ys: seq<T>, le: (T, T) -> bool)
    requires Ordered(le) && le(x, y) && le(y, x)
    ensures Place(x, Insert(y, ys, le), le) == Place(y, ys, le)
  {
    if ys != [] && !le(y, ys[0]) {
      TiePlace(x, y, ys[1..], le);
      assert !le(x, ys[0]);
    }
  }

  lemma TiesKeepArrival<T(!new)>(x: T, y: T, ys: seq<T>, le: (T, T) -> bool)
    requires Ordered(le) && le(x, y) && le(y, x)
    ensures Place(y, ys, le) + 1 < |Insert(x, Insert(y, ys, le), le)|
    ensures Insert(x, Insert(y, ys, le), le)[Place(y, ys, le)] == x
    ensures Insert(x, Insert(y, ys, le), le)[Place(y, ys, le) + 1] == y
  {
    TiePlace(x, y, ys, le);
    InsertAtPlace(y, ys, le);
    InsertAtPlace(x, Insert(y, ys, le), le);
  }

  lemma {:induction false} SamePlace<T(!new)>(x: T, y: T, ys: seq<T>, le: (T, T) -> bool)
    requires Ordered(le) && le(x, y) && le(y, x)
    ensures Place(x, ys, le) == Place(y, ys, le)
  {
    if ys != [] {
      assert le(x, ys[0]) <==> le(y, ys[0]);
      if !le(x, ys[0]) { SamePlace(x, y, ys[1..], le); }
    }
  }

  lemma Without<T>(q: seq<T>, x: T) returns (r: seq<T>)
    requires x in q
    ensures multiset(r) == multiset(q) - multiset{x}
  {
    if q[0] == x {
      r := q[1..];
    } else {
      r := Without(q[1..], x);
      r := [q[0]] + r;
    }
    assert q == [q[0]] + q[1..];
  }

  lemma SetTwoAside<T>(q: seq<T>, x: T, y: T) returns (rest: seq<T>)
    requires x in q && y in q && x != y
    ensures multiset([x] + ([y] + rest)) == multiset(q) == multiset([y] + ([x] + rest))
  {
    var r := Without(q, x);
    assert y in multiset(q) && y in multiset(r);
    rest := Without(r, y);
    assert multiset{x} <= multiset(q);
    assert multiset([x] + ([y] + rest)) == multiset{x} + (multiset{y} + multiset(rest));
    assert multiset([y] + ([x] + rest)) == multiset{y} + (multiset{x} + multiset(rest));
  }

  lemma TiedInsertsDiffer<T(!new)>(x: T, y: T, ys: seq<T>, le: (T, T) -> bool)
    requires Ordered(le) && le(x, y) && le(y, x) && x != y
    ensures Insert(x, Insert(y, ys, le), le) != Insert(y, Insert(x, ys, le), le)
  {
    TiesKeepArrival(x, y, ys, le);
    TiesKeepArrival(y, x, ys, le);
    SamePlace(x, y, ys, le);
  }

  /** Two arrangements of a queue with a tie that come out differently. */
  lemma TieShows(c: Collation, queue: seq<Entry>, x: Entry, y: Entry) returns (p: seq<Entry>, q: seq<Entry>)
    requires Collates(c) && x in queue && y in queue && x != y && Compare(c, x, y) == 0
    ensures multiset(p) == multiset(queue) && multiset(q) == multiset(queue) && Order(c, p) != Order(c, q)
  {
    var le := NotAfter(c);
    NotAfterIsOrdered(c);
    var rest := SetTwoAside(queue, x, y);
    p, q := [x] + ([y] + rest), [y] + ([x] + rest);
    TwoInserts(x, y, rest, le);
    TwoInserts(y, x, rest, le);
    assert le(x, y) && le(y, x);
    TiedInsertsDiffer(x, y, Sort(rest, le), le);
  }

  lemma TwoInserts<T>(x: T, y: T, rest: seq<T>, le: (T, T) -> bool)
    ensures Sort([x] + ([y] + rest), le) == Insert(x, Insert(y, Sort(rest, le), le), le)
  {
    assert ([x] + ([y] + rest))[1..] == [y] + rest && ([y] + rest)[1..] == rest;
  }

  ghost predicate OneOrder(c: Collation, queue: seq<Entry>) {
    forall p, q :: multiset(p) == multiset(queue) && multiset(q) == multiset(queue) ==> Order(c, p) == Order(c, q)
  }

  /** The order is the same for every arrangement of the rows exactly when no two different
      rows tie on position, time and id. */
  lemma OneOrderIffNoTies(c: Collation, queue: seq<Entry>)
    requires Collates(c)
    ensures OneOrder(c, queue)
            <==> forall x, y :: x in queue && y in queue && Compare(c, x, y) == 0 ==> x == y
  {
    var le := NotAfter(c);
    NotAfterIsOrdered(c);
    if forall x, y :: x in queue && y in queue && Compare(c, x, y) == 0 ==> x == y {
      forall p, q | multiset(p) == multiset(queue) && multiset(q) == multiset(queue)
        ensures Order(c, p) == Order(c, q)
      {
        SameMembers(p, queue);
        forall x, y | x in p && y in p && le(x, y) && le(y, x) ensures x == y {
          assert Compare(c, x, y) == 0;
        }
        SortEqualIffPermutation(p, q, le);
      }
    } else {
      var x, y :| x in queue && y in queue && Compare(c, x, y) == 0 && x != y;
      var p, q := TieShows(c, queue, x, y);
    }
  }

  lemma SameMembers<T>(p: seq<T>, q: seq<T>)
    requires multiset(p) == multiset(q)
    ensures forall x :: x in p <==> x in q
  {
    forall x ensures x in p <==> x in q {
      assert x in multiset(p) <==> x in multiset(q);
    }
  }

  /** Ids that compare apart are enough, whatever the positions of legacy rows. */
  lemma DistinctIdsGiveOneOrder(c: Collation, queue: seq<Entry>)
    requires Collates(c)
    requires forall x, y :: x in queue && y in queue && c(x.id, y.id) == 0 ==> x == y
    ensures OneOrder(c, queue)
  {
    OneOrderIffNoTies(c, queue);
  }

  // ---------- Enqueueing ----------

  function Highest(queue: seq<Entry>): nat {
    if queue == [] then 0
    else
      var before, last := Highest(queue[..|queue| - 1]), queue[|queue| - 1].queuePosition;
      if last > before then last else before
  }

  lemma {:induction false} HighestIs(queue: seq<Entry>)
    ensures forall i :: 0 <= i < |queue| ==> queue[i].queuePosition <= Highest(queue)
    ensures Highest(queue) == 0 || exists i :: 0 <= i < |queue| && queue[i].queuePosition == Highest(queue)
  {
    if queue != [] {
      var n := |queue| - 1;
      HighestIs(queue[..n]);
      assert forall i :: 0 <= i < n ==> queue[..n][i] == queue[i];
    }
  }

  function Stamp(input: Input, position: nat): Entry {
    Entry(input.id, input.authorId, input.prompt, position, input.enqueuedAt)
  }

  function Enqueue(c: Collation, queue: seq<Entry>, input: Input): (Entry, seq<Entry>) {
    var entry := Stamp(input, Highest(queue) + 1);
    (entry, Order(c, queue + [entry]))
  }

  lemma {:induction false} InsertBeforeLast<T>(x: T, ys: seq<T>, last: T, le: (T, T) -> bool)
    requires le(x, last)
    ensures Insert(x, ys + [last], le) == Insert(x, ys, le) + [last]
  {
    if ys == [] {
      assert ys + [last] == [last];
    } else {
      assert (ys + [last])[1..] == ys[1..] + [last];
      if !le(x, ys[0]) { InsertBeforeLast(x, ys[1..], last, le); }
    }
  }

  lemma {:induction false} LastStaysLast<T>(xs: seq<T>, last: T, le: (T, T) -> bool)
    requires forall i :: 0 <= i < |xs| ==> le(xs[i], last)
    ensures Sort(xs + [last], le) == Sort(xs, le) + [last]
  {
    if xs == [] {
      assert xs + [last] == [last] && [last][1..] == [];
    } else {
      assert (xs + [last])[1..] == xs[1..] + [last];
      LastStaysLast(xs[1..], last, le);
      InsertBeforeLast(xs[0], Sort(xs[1..], le), last, le);
    }
  }

  /** A new turn, as it was given, gets the first position above every other and goes last; nothing
      else moves. */
  lemma EnqueueAppends(c: Collation, queue: seq<Entry>, input: Input)
    ensures var (entry, after) := Enqueue(c, queue, input);
            && entry.id == input.id && entry.authorId == input.authorId && entry.prompt == input.prompt
            && entry.enqueuedAt == input.enqueuedAt
            && (entry.queuePosition == 1
                || exists i :: 0 <= i < |queue| && queue[i].queuePosition + 1 == entry.queuePosition)
            && (forall i :: 0 <= i < |queue| ==> queue[i].queuePosition < entry.queuePosition)
            && after == Order(c, queue) + [entry]
  {
    HighestIs(queue);
    LastStaysLast(queue, Stamp(input, Highest(queue) + 1), NotAfter(c));
  }

  lemma HighestOfLast(queue: seq<Entry>, entry: Entry)
    requires Highest(queue) <= entry.queuePosition
    ensures Highest(queue + [entry]) == entry.queuePosition
  {
    assert (queue + [entry])[..|queue|] == queue;
  }

  lemma {:induction false} SortOfSorted<T(!new)>(xs: seq<T>, le: (T, T) -> bool)
    requires Sorted(xs, le)
    ensures Sort(xs, le) == xs
  {
    if xs != [] {
      SortOfSorted(xs[1..], le);
      assert xs == [xs[0]] + xs[1..];
    }
  }

  /** A series of enqueues, each on the queue the one before it left. */
  ghost predicate Series(c: Collation, queues: seq<seq<Entry>>, inputs: seq<Input>) {
    && |queues| == |inputs| + 1
    && forall i {:trigger inputs[i]} :: 0 <= i < |inputs| ==> queues[i + 1] == Enqueue(c, queues[i], inputs[i]).1
  }

  /** The entries of a series: numbered consecutively. */
  function Stamps(inputs: seq<Input>, base: nat): seq<Entry> {
    if inputs == [] then []
    else
      var n := |inputs| - 1;
      Stamps(inputs[..n], base) + [Stamp(inputs[n], base + n + 1)]
  }

  lemma {:induction false} StampsAreConsecutive(inputs: seq<Input>, base: nat)
    ensures |Stamps(inputs, base)| == |inputs|
    ensures forall i :: 0 <= i < |inputs| ==> Stamps(inputs, base)[i] == Stamp(inputs[i], base + i + 1)
  {
    if inputs != [] {
      StampsAreConsecutive(inputs[..|inputs| - 1], base);
    }
  }

  lemma StampsJoin(first: seq<Entry>, base: nat, inputs: seq<Input>)
    requires inputs != []
    ensures var n := |inputs| - 1;
            first + Stamps(inputs[..n], base) + [Stamp(inputs[n], base + n + 1)] == first + Stamps(inputs, base)
  {
    var n := |inputs| - 1;
    Associate(first, Stamps(inputs[..n], base), Stamp(inputs[n], base + n + 1));
  }

  lemma StampsGrow(first: seq<Entry>, base: nat, inputs: seq<Input>, n: nat, q: seq<Entry>, q': seq<Entry>)
    requires 0 < n <= |inputs| && q == first + Stamps(inputs[..n - 1], base)
    requires q' == q + [Stamp(inputs[n - 1], base + n)]
    ensures q' == first + Stamps(inputs[..n], base)
  {
    assert inputs[..n][..n - 1] == inputs[..n - 1];
    StampsJoin(first, base, inputs[..n]);
  }

  /** The first enqueue puts a queue in order, whatever its rows were like. */
  lemma FirstEnqueue(c: Collation, queue: seq<Entry>, input: Input)
    requires Collates(c)
    ensures var (entry, after) := Enqueue(c, queue, input);
            && entry == Stamp(input, Highest(queue) + 1)
            && after == Order(c, queue) + [entry]
            && Sorted(after, NotAfter(c))
            && Highest(after) == Highest(queue) + 1
  {
    EnqueueAppends(c, queue, input);
    OrderIsSorted(c, queue + [Stamp(input, Highest(queue) + 1)]);
    HighestEnqueued(c, queue, Stamp(input, Highest(queue) + 1));
  }

  lemma OrderIsSorted(c: Collation, queue: seq<Entry>)
    requires Collates(c)
    ensures Sorted(Order(c, queue), NotAfter(c))
  {
    NotAfterIsOrdered(c);
    SortSorts(queue, NotAfter(c));
  }

  lemma HighestEnqueued(c: Collation, queue: seq<Entry>, entry: Entry)
    requires entry.queuePosition == Highest(queue) + 1
    ensures Highest(Order(c, queue) + [entry]) == Highest(queue) + 1
  {
    HighestOfOrder(c, queue);
    HighestOfLast(Order(c, queue), entry);
  }

  lemma HighestOfOrder(c: Collation, queue: seq<Entry>)
    ensures Highest(Order(c, queue)) == Highest(queue)
  {
    SortPermutes(queue, NotAfter(c));
    SameMembers(Order(c, queue), queue);
    NoHigher(Order(c, queue), queue);
    NoHigher(queue, Order(c, queue));
  }

  lemma NoHigher(p: seq<Entry>, q: seq<Entry>)
    requires forall x :: x in p ==> x in q
    ensures Highest(p) <= Highest(q)
  {
    HighestIs(p);
    HighestIs(q);
    if Highest(p) > 0 {
      var i :| 0 <= i < |p| && p[i].queuePosition == Highest(p);
      assert p[i] in p && p[i] in q;
    }
  }

  lemma {:induction false} SeriesInOrder(c: Collation, queues: seq<seq<Entry>>, inputs: seq<Input>, n: nat)
    requires Collates(c) && Series(c, queues, inputs) && 0 < n <= |inputs|
    ensures Sorted(queues[n], NotAfter(c))
    ensures Highest(queues[n]) == Highest(queues[0]) + n
  {
    assert queues[n - 1 + 1] == Enqueue(c, queues[n - 1], inputs[n - 1]).1;
    if n == 1 {
      FirstEnqueue(c, queues[0], inputs[0]);
    } else {
      SeriesInOrder(c, queues, inputs, n - 1);
      SeriesStep(c, queues[n - 1], inputs[n - 1]);
    }
  }

  lemma SeriesGrows(c: Collation, queues: seq<seq<Entry>>, inputs: seq<Input>, n: nat)
    requires Collates(c) && Series(c, queues, inputs) && 0 < n < |inputs|
    ensures queues[n + 1] == queues[n] + [Stamp(inputs[n], Highest(queues[0]) + n + 1)]
  {
    SeriesInOrder(c, queues, inputs, n);
    assert queues[n + 1] == Enqueue(c, queues[n], inputs[n]).1;
    SeriesStep(c, queues[n], inputs[n]);
  }

  /** Any series of turns, on any queue, ends up behind everything that was there, now in order,
      in the order the turns came and numbered consecutively. */
  lemma {:induction false} SeriesAppends(c: Collation, queues: seq<seq<Entry>>, inputs: seq<Input>, n: nat)
    requires Collates(c) && Series(c, queues, inputs) && 0 < n <= |inputs|
    ensures queues[n] == Order(c, queues[0]) + Stamps(inputs[..n], Highest(queues[0]))
  {
    var first, base := Order(c, queues[0]), Highest(queues[0]);
    if n == 1 {
      assert queues[0 + 1] == Enqueue(c, queues[0], inputs[0]).1;
      EnqueueAppends(c, queues[0], inputs[0]);
      assert inputs[..0] == [] && first + [] == first;
      StampsGrow(first, base, inputs, n, first, queues[1]);
    } else {
      SeriesAppends(c, queues, inputs, n - 1);
      SeriesGrows(c, queues, inputs, n - 1);
      StampsGrow(first, base, inputs, n, queues[n - 1], queues[n]);
    }
  }

  lemma SeriesStep(c: Collation, before: seq<Entry>, input: Input)
    requires Collates(c) && Sorted(before, NotAfter(c))
    ensures var (entry, after) := Enqueue(c, before, input);
            && entry == Stamp(input, Highest(before) + 1)
            && after == before + [entry]
            && Sorted(after, NotAfter(c))
            && Highest(after) == Highest(before) + 1
  {
    FirstEnqueue(c, before, input);
    SortOfSorted(before, NotAfter(c));
  }

  lemma Associate(x: seq<Entry>, y: seq<Entry>, e: Entry)
    ensures x + y + [e] == x + (y + [e])
  {
  }
}
