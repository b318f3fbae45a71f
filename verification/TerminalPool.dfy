/**
 The terminal pool: a new terminal always finds room, by dropping what has ended and, when that
 is not enough, closing sessions until fewer than the limit are left.
 */
module TerminalPool {
  import opened Ordering
  import Decimal

  const MAX_LIVE_TERMINALS: nat := 4

  /** Session ids as text, ordered code unit by code unit. */
  type Id = seq<nat>

  datatype Session = Session(readerClosed: bool, exited: bool)
  {
    predicate Over() { readerClosed && exited }
    predicate Ending() { readerClosed || exited }
  }

  type Pool = map<Id, Session>

  function Kept(pool: Pool): Pool {
    map id | id in pool && !pool[id].Over() :: pool[id]
  }

  /** What making room comes to, whichever ending sessions it happens upon. Every session stays as
      it is, or is closed, or had both ended and been read to its end, which goes unnoticed. No more
      are closed than must be; of the others the ending ones go before any live one, and the live
      ones in the order of their ids. */
  ghost predicate MadeRoom(before: Pool, after: Pool, closed: set<Id>) {
    && (forall id :: id in after ==>
          id in before && after[id] == before[id] && !(after[id].readerClosed && after[id].exited))
    && (forall id :: id in before ==>
          if before[id].readerClosed && before[id].exited then id !in closed else id in after <==> id !in closed)
    && closed <= before.Keys
    && |after| < MAX_LIVE_TERMINALS
    && (closed != {} ==> |after| == MAX_LIVE_TERMINALS - 1)
    && (forall id, other :: id in closed && !before[id].readerClosed && !before[id].exited && other in after ==>
          !after[other].readerClosed && !after[other].exited && LexLeq(id, other))
  }

  lemma {:induction false} LeastId(ids: set<Id>) returns (least: Id)
    requires ids != {}
    ensures least in ids && forall id :: id in ids ==> LexLeq(least, id)
  {
    var first :| first in ids;
    var rest := ids - {first};
    least := first;
    LexTotal(first, first);
    if rest != {} {
      var l := LeastId(rest);
      if LexLeq(l, first) {
        least := l;
      } else {
        LexTotal(l, first);
        forall id | id in rest ensures LexLeq(first, id) { LexTransitive(first, l, id); }
      }
    }
    assert forall id :: id in ids ==> id == first || id in rest;
  }

  /** Some of the kept sessions closed, ending ones first, then live ones by id. */
  ghost predicate Closing(kept: Pool, pool: Pool, closed: set<Id>) {
    && closed <= kept.Keys && pool == kept - closed
    && (forall id, other :: id in closed && !kept[id].Ending() && other in pool ==>
          !pool[other].Ending() && LexLeq(id, other))
  }

  lemma OneFewer(pool: Pool, id: Id)
    requires id in pool
    ensures |pool - {id}| == |pool| - 1
  {
    assert pool.Keys == (pool - {id}).Keys + {id};
  }

  lemma MinusBoth(kept: Pool, closed: set<Id>, id: Id)
    ensures kept - closed - {id} == kept - (closed + {id})
  {
  }

  /** The session to close next: any that is ending, or else the live one with the smallest id. */
  predicate MayGo(pool: Pool, id: Id)
    requires id in pool
  {
    pool[id].Ending() || forall other :: other in pool ==> !pool[other].Ending() && LexLeq(id, other)
  }

  lemma SomeoneGoes(pool: Pool)
    requires pool != map[]
    ensures exists id :: id in pool && MayGo(pool, id)
  {
    if ending :| ending in pool && pool[ending].Ending() {
      assert MayGo(pool, ending);
    } else {
      assert pool.Keys != {};
      var least := LeastId(pool.Keys);
      assert MayGo(pool, least);
    }
  }

  lemma CloseOne(kept: Pool, pool: Pool, closed: set<Id>, id: Id)
    requires Closing(kept, pool, closed) && id in pool
    requires MayGo(pool, id)
    ensures Closing(kept, pool - {id}, closed + {id})
  {
    MinusBoth(kept, closed, id);
    assert kept[id] == pool[id];
    forall c, other | c in closed + {id} && !kept[c].Ending() && other in pool - {id}
      ensures !pool[other].Ending() && LexLeq(c, other)
    {
      assert other in pool;
    }
  }

  /** On the way to room for one more: no session closed while there was room. */
  ghost predicate Reclaiming(kept: Pool, pool: Pool, closed: set<Id>) {
    Closing(kept, pool, closed) && (closed != {} ==> |pool| >= MAX_LIVE_TERMINALS - 1)
  }

  lemma ReclaimOne(kept: Pool, pool: Pool, closed: set<Id>, id: Id)
    requires Reclaiming(kept, pool, closed) && |pool| >= MAX_LIVE_TERMINALS && id in pool && MayGo(pool, id)
    ensures Reclaiming(kept, pool - {id}, closed + {id}) && |pool - {id}| < |pool|
  {
    CloseOne(kept, pool, closed, id);
    OneFewer(pool, id);
  }

  lemma RoomIsMade(before: Pool, pool: Pool, closed: set<Id>)
    requires Reclaiming(Kept(before), pool, closed) && |pool| < MAX_LIVE_TERMINALS
    ensures MadeRoom(before, pool, closed)
  {
  }

  class Terminals {
    var pool: Pool

    constructor ()
      ensures pool == map[]
    {
      pool := map[];
    }

    method MakeRoom() returns (closed: set<Id>)
      modifies this
      ensures MadeRoom(old(pool), pool, closed)
    {
      ghost var before := pool;
      pool := Kept(pool);
      closed := {};
      ghost var kept := pool;
      while |pool| >= MAX_LIVE_TERMINALS
        invariant Reclaiming(kept, pool, closed)
        decreases |pool|
      {
        SomeoneGoes(pool);
        var id :| id in pool && MayGo(pool, id);
        ReclaimOne(kept, pool, closed, id);
        pool := pool - {id};
        closed := closed + {id};
      }
      RoomIsMade(before, pool, closed);
    }

    /** Make room, then register the new session under its fresh id. */
    method Start(id: Id) returns (closed: set<Id>)
      requires id !in pool
      modifies this
      ensures id in pool && pool[id] == Session(false, false)
      ensures MadeRoom(old(pool), pool - {id}, closed)
      ensures |pool| <= MAX_LIVE_TERMINALS
    {
      closed := MakeRoom();
      ghost var rest := pool;
      pool := pool[id := Session(false, false)];
      assert pool.Keys == rest.Keys + {id};
      assert pool - {id} == rest;
    }
  }

  // ---------- Smallest id and oldest session ----------

  /** `term-<millis>-<sequence>`, the sequence from one atomic counter. */
  function Format(millis: nat, sequence: nat): Id {
    TERM_PREFIX + (Decimal.Digits(millis) + ([45] + Decimal.Digits(sequence)))
  }

  const TERM_PREFIX: Id := [116, 101, 114, 109, 45]

  lemma {:induction false} LexSkip(p: Id, x: Id, y: Id)
    ensures LexLeq(p + x, p + y) <==> LexLeq(x, y)
  {
    if p == [] {
      assert p + x == x && p + y == y;
    } else {
      LexSkip(p[1..], x, y);
      assert (p + x)[1..] == p[1..] + x && (p + y)[1..] == p[1..] + y;
    }
  }

  lemma LexCons(c: nat, d: nat, x: Id, y: Id)
    ensures LexLeq([c] + x, [d] + y) <==> c < d || (c == d && LexLeq(x, y))
  {
    assert ([c] + x)[1..] == x && ([d] + y)[1..] == y;
  }

  /** Numerals of one length compare as text as they do as numbers, whatever follows. */
  lemma {:induction false} NumeralsOfOneLength(m: nat, n: nat, u: Id, v: Id)
    requires |Decimal.Digits(m)| == |Decimal.Digits(n)|
    ensures LexLeq(Decimal.Digits(m) + u, Decimal.Digits(n) + v) <==> m < n || (m == n && LexLeq(u, v))
  {
    LexCons(48 + m % 10, 48 + n % 10, u, v);
    if m < 10 || n < 10 {
      assert m < 10 && n < 10;
    } else {
      NumeralsOfOneLength(m / 10, n / 10, [48 + m % 10] + u, [48 + n % 10] + v);
      assert Decimal.Digits(m) + u == Decimal.Digits(m / 10) + ([48 + m % 10] + u);
      assert Decimal.Digits(n) + v == Decimal.Digits(n / 10) + ([48 + n % 10] + v);
    }
  }

  // ---------- Numerals of any length ----------

  /** n without its last k digits. */
  function Top(n: nat, k: nat): nat {
    if k == 0 then n else Top(n / 10, k - 1)
  }

  function Pow10(k: nat): nat {
    if k == 0 then 1 else 10 * Pow10(k - 1)
  }

  /** That is, the quotient by the k-th power of ten. */
  lemma {:induction false} TopIsQuotient(n: nat, k: nat)
    ensures Top(n, k) * Pow10(k) <= n < (Top(n, k) + 1) * Pow10(k)
  {
    if k > 0 {
      TopIsQuotient(n / 10, k - 1);
      TenTimes(Top(n / 10, k - 1), Pow10(k - 1));
    }
  }

  lemma TenTimes(q: nat, p: nat)
    ensures q * (10 * p) == 10 * (q * p) && (q + 1) * p == q * p + p && (q + 1) * (10 * p) == 10 * (q * p) + 10 * p
  {
    assert q * (10 * p) == q * 10 * p == 10 * q * p;
  }

  function DigitCount(n: nat): nat { |Decimal.Digits(n)| }

  lemma {:induction false} TopDigits(n: nat, k: nat) returns (rest: Id)
    requires k < DigitCount(n)
    ensures Decimal.Digits(n) == Decimal.Digits(Top(n, k)) + rest && |rest| == k
    ensures forall i :: 0 <= i < k ==> Decimal.IsDigit(rest[i])
  {
    if k == 0 {
      rest := [];
    } else {
      var r := TopDigits(n / 10, k - 1);
      rest := r + [48 + n % 10];
    }
  }

  /** Numerals as text, each followed by something that sorts before every digit: compared
      as far as the shorter one goes, the shorter first when they agree that far. */
  predicate NumeralLeq(a: nat, b: nat) {
    if DigitCount(a) <= DigitCount(b) then a <= Top(b, DigitCount(b) - DigitCount(a))
    else Top(a, DigitCount(a) - DigitCount(b)) < b
  }

  predicate Ends(u: Id) { u == [] || u[0] < 48 }

  lemma EndsSortsFirst(u: Id, w: Id)
    requires Ends(u) && w != [] && w[0] >= 48
    ensures LexLeq(u, w) && !LexLeq(w, u)
  {
  }

  lemma SplitDigits(n: nat, k: nat, v: Id) returns (w: Id)
    requires 0 < k < DigitCount(n)
    ensures Decimal.Digits(n) + v == Decimal.Digits(Top(n, k)) + w
    ensures w != [] && w[0] >= 48 && DigitCount(Top(n, k)) == DigitCount(n) - k
  {
    var rest := TopDigits(n, k);
    w := rest + v;
    assert Decimal.Digits(Top(n, k)) + rest + v == Decimal.Digits(Top(n, k)) + w;
  }

  lemma ShorterNumeral(m: nat, n: nat, u: Id, v: Id)
    requires DigitCount(m) < DigitCount(n) && Ends(u)
    ensures LexLeq(Decimal.Digits(m) + u, Decimal.Digits(n) + v) <==> m <= Top(n, DigitCount(n) - DigitCount(m))
  {
    var top := Top(n, DigitCount(n) - DigitCount(m));
    var w := SplitDigits(n, DigitCount(n) - DigitCount(m), v);
    NumeralsOfOneLength(m, top, u, w);
    EndsSortsFirst(u, w);
  }

  lemma LongerNumeral(m: nat, n: nat, u: Id, v: Id)
    requires DigitCount(n) < DigitCount(m) && Ends(v)
    ensures LexLeq(Decimal.Digits(m) + u, Decimal.Digits(n) + v) <==> Top(m, DigitCount(m) - DigitCount(n)) < n
  {
    var top := Top(m, DigitCount(m) - DigitCount(n));
    var w := SplitDigits(m, DigitCount(m) - DigitCount(n), u);
    NumeralsOfOneLength(top, n, w, v);
    EndsSortsFirst(v, w);
  }

  lemma NumeralsOfAnyLength(m: nat, n: nat, u: Id, v: Id)
    requires Ends(u) && Ends(v)
    ensures LexLeq(Decimal.Digits(m) + u, Decimal.Digits(n) + v)
            <==> if m == n then LexLeq(u, v) else NumeralLeq(m, n)
  {
    if DigitCount(m) < DigitCount(n) {
      ShorterNumeral(m, n, u, v);
    } else if DigitCount(n) < DigitCount(m) {
      LongerNumeral(m, n, u, v);
    } else {
      NumeralsOfOneLength(m, n, u, v);
    }
  }

  /** Ids are minted in the order of the counter. The older of two sorts first exactly when its
      clock reading does, as text, or, the readings being the same, its count does. */
  lemma OlderSortsFirstIff(m: nat, s: nat, n: nat, t: nat)
    requires s < t
    ensures LexLeq(Format(m, s), Format(n, t)) <==> if m == n then NumeralLeq(s, t) else NumeralLeq(m, n)
  {
    var x, y := [45] + Decimal.Digits(s), [45] + Decimal.Digits(t);
    LexSkip(TERM_PREFIX, Decimal.Digits(m) + x, Decimal.Digits(n) + y);
    NumeralsOfAnyLength(m, n, x, y);
    LexSkip([45], Decimal.Digits(s), Decimal.Digits(t));
    NumeralsOfAnyLength(s, t, [], []);
    assert Decimal.Digits(s) + [] == Decimal.Digits(s) && Decimal.Digits(t) + [] == Decimal.Digits(t);
  }

  /** So for a whole pool: its smallest id is the oldest session exactly when the oldest comes
      first against each of the others. */
  lemma SmallestIsOldestIff(stamps: seq<(nat, nat)>, oldest: nat)
    requires oldest < |stamps|
    requires forall i :: 0 <= i < |stamps| && i != oldest ==> stamps[oldest].1 < stamps[i].1
    ensures (forall i :: 0 <= i < |stamps| ==>
               LexLeq(Format(stamps[oldest].0, stamps[oldest].1), Format(stamps[i].0, stamps[i].1)))
            <==> (forall i :: 0 <= i < |stamps| && i != oldest ==>
                    if stamps[i].0 == stamps[oldest].0 then NumeralLeq(stamps[oldest].1, stamps[i].1)
                    else NumeralLeq(stamps[oldest].0, stamps[i].0))
  {
    var (m, s) := stamps[oldest];
    LexTotal(Format(m, s), Format(m, s));
    forall i | 0 <= i < |stamps| && i != oldest
      ensures LexLeq(Format(m, s), Format(stamps[i].0, stamps[i].1))
              <==> if m == stamps[i].0 then NumeralLeq(s, stamps[i].1) else NumeralLeq(m, stamps[i].0)
    {
      OlderSortsFirstIff(m, s, stamps[i].0, stamps[i].1);
    }
  }

  /** When the clock steps back, numerals of one length throughout, the newer session sorts
      first. */
  lemma ClockStepsBack(m: nat, n: nat, s: nat, t: nat)
    requires n < m && DigitCount(n) == DigitCount(m) && s < t
    ensures LexLeq(Format(n, t), Format(m, s)) && !LexLeq(Format(m, s), Format(n, t))
  {
    OlderSortsFirstIff(m, s, n, t);
    LexTotal(Format(m, s), Format(n, t));
  }

  /** When the counter gains a digit within one millisecond, the newer session sorts first. */
  lemma TenthBeforeNinth(millis: nat)
    ensures LexLeq(Format(millis, 10), Format(millis, 9)) && !LexLeq(Format(millis, 9), Format(millis, 10))
  {
    assert Decimal.Digits(10) == Decimal.Digits(1) + [48] && DigitCount(10) == 2 && DigitCount(9) == 1;
    assert Top(10, 1) == 1;
    OlderSortsFirstIff(millis, 9, millis, 10);
    LexTotal(Format(millis, 9), Format(millis, 10));
  }

  /** Gaining a digit need not do that. */
  lemma TenthAfterFirst(millis: nat)
    ensures LexLeq(Format(millis, 1), Format(millis, 10))
  {
    assert Decimal.Digits(10) == Decimal.Digits(1) + [48] && DigitCount(10) == 2 && DigitCount(1) == 1;
    assert Top(10, 1) == 1;
    OlderSortsFirstIff(millis, 1, millis, 10);
  }
}
