/**
 The default order of strings in the web packages, code unit by code unit with a proper prefix
 first, and the stable sort that `Array.prototype.sort` performs with any comparator that is
 a total preorder: a permutation, sorted, and, when no two elements tie, the same for every
 arrangement of the same elements. Sorting by a string key is one such sort.
 */
module Ordering {

  /** Lexicographic order, a proper prefix first. */
  predicate LexLeq(s: seq<nat>, t: seq<nat>)
    decreases |s|
  {
    s == [] || (t != [] && (s[0] < t[0] || (s[0] == t[0] && LexLeq(s[1..], t[1..]))))
  }

  /** At the first place where they differ s has the smaller unit, or s ends there. */
  predicate Precedes(s: seq<nat>, t: seq<nat>) {
    exists i :: 0 <= i < |t| && i <= |s| && s[..i] == t[..i] && (i == |s| || s[i] < t[i])
  }

  lemma PrecedesTail(s: seq<nat>, t: seq<nat>)
    requires s != [] && t != [] && s[0] == t[0] && Precedes(s, t)
    ensures Precedes(s[1..], t[1..])
  {
    var i :| 0 <= i < |t| && i <= |s| && s[..i] == t[..i] && (i == |s| || s[i] < t[i]);
    assert i > 0 && s[1..][..i - 1] == s[..i][1..] && t[1..][..i - 1] == t[..i][1..];
  }

  lemma PrecedesHead(c: nat, x: seq<nat>, y: seq<nat>)
    requires Precedes(x, y)
    ensures Precedes([c] + x, [c] + y)
  {
    var i :| 0 <= i < |y| && i <= |x| && x[..i] == y[..i] && (i == |x| || x[i] < y[i]);
    assert ([c] + x)[..i + 1] == [c] + x[..i] && ([c] + y)[..i + 1] == [c] + y[..i];
  }

  lemma PrecedesCons(s: seq<nat>, t: seq<nat>)
    requires s != [] && t != [] && s[0] == t[0]
    ensures Precedes(s, t) <==> Precedes(s[1..], t[1..])
  {
    if Precedes(s, t) {
      PrecedesTail(s, t);
    }
    if Precedes(s[1..], t[1..]) {
      PrecedesHead(s[0], s[1..], t[1..]);
      assert s == [s[0]] + s[1..] && t == [s[0]] + t[1..];
    }
  }

  lemma {:induction false} LexLeqIff(s: seq<nat>, t: seq<nat>)
    ensures LexLeq(s, t) <==> s == t || Precedes(s, t)
    decreases |s|
  {
    if s == [] || t == [] {
      assert t != [] ==> s[..0] == t[..0];
    } else if s[0] == t[0] {
      PrecedesCons(s, t);
      LexLeqIff(s[1..], t[1..]);
      assert s == [s[0]] + s[1..] && t == [t[0]] + t[1..];
    } else {
      assert s[..0] == t[..0];
      if Precedes(s, t) {
        var i :| 0 <= i < |t| && i <= |s| && s[..i] == t[..i] && (i == |s| || s[i] < t[i]);
        assert i > 0 ==> s[..i][0] == t[..i][0];
      }
    }
  }

  lemma {:induction false} LexTotal(s: seq<nat>, t: seq<nat>)
    ensures LexLeq(s, t) || LexLeq(t, s)
    decreases |s|
  {
    if s != [] && t != [] {
      LexTotal(s[1..], t[1..]);
    }
  }

  lemma {:induction false} LexAntisymmetric(s: seq<nat>, t: seq<nat>)
    requires LexLeq(s, t) && LexLeq(t, s)
    ensures s == t
    decreases |s|
  {
    if s != [] && t != [] {
      LexAntisymmetric(s[1..], t[1..]);
      assert s == [s[0]] + s[1..];
      assert t == [t[0]] + t[1..];
    }
  }

  lemma {:induction false} LexTransitive(s: seq<nat>, t: seq<nat>, u: seq<nat>)
    requires LexLeq(s, t) && LexLeq(t, u)
    ensures LexLeq(s, u)
    decreases |s|
  {
    if s != [] && s[0] == t[0] == u[0] {
      LexTransitive(s[1..], t[1..], u[1..]);
    }
  }

  // ---------- Sorting by any order ----------

  ghost predicate Sorted<T(!new)>(xs: seq<T>, le: (T, T) -> bool) {
    forall i, j :: 0 <= i < j < |xs| ==> le(xs[i], xs[j])
  }

  /** A total preorder: what a comparator must be for a sort to mean anything. */
  ghost predicate Ordered<T(!new)>(le: (T, T) -> bool) {
    && (forall x, y :: le(x, y) || le(y, x))
    && (forall x, y, z :: le(x, y) && le(y, z) ==> le(x, z))
  }

  function Insert<T>(x: T, ys: seq<T>, le: (T, T) -> bool): seq<T> {
    if ys == [] then [x]
    else if le(x, ys[0]) then [x] + ys
    else [ys[0]] + Insert(x, ys[1..], le)
  }

  /** The stable sort of `Array.prototype.sort`. */
  function Sort<T>(xs: seq<T>, le: (T, T) -> bool): seq<T> {
    if xs == [] then [] else Insert(xs[0], Sort(xs[1..], le), le)
  }

  lemma {:induction false} InsertPermutes<T>(x: T, ys: seq<T>, le: (T, T) -> bool)
    ensures multiset(Insert(x, ys, le)) == multiset{x} + multiset(ys)
  {
    if ys != [] && !le(x, ys[0]) {
      InsertPermutes(x, ys[1..], le);
      assert ys == [ys[0]] + ys[1..];
    }
  }

  lemma {:induction false} SortPermutes<T>(xs: seq<T>, le: (T, T) -> bool)
    ensures multiset(Sort(xs, le)) == multiset(xs)
  {
    if xs != [] {
      SortPermutes(xs[1..], le);
      InsertPermutes(xs[0], Sort(xs[1..], le), le);
      assert xs == [xs[0]] + xs[1..];
    }
  }

  lemma {:induction false} InsertSorted<T(!new)>(x: T, ys: seq<T>, le: (T, T) -> bool)
    requires Ordered(le) && Sorted(ys, le)
    ensures Sorted(Insert(x, ys, le), le)
  {
    if ys == [] {
    } else if le(x, ys[0]) {
      forall j | 0 <= j < |ys| ensures le(x, ys[j]) {
        if j > 0 { assert le(ys[0], ys[j]); }
      }
    } else {
      InsertSorted(x, ys[1..], le);
      InsertPermutes(x, ys[1..], le);
      var rest := Insert(x, ys[1..], le);
      forall j | 0 <= j < |rest| ensures le(ys[0], rest[j]) {
        assert rest[j] in multiset(rest);
        if rest[j] != x {
          assert rest[j] in ys[1..];
        }
      }
    }
  }

  lemma {:induction false} SortSorts<T(!new)>(xs: seq<T>, le: (T, T) -> bool)
    requires Ordered(le)
    ensures Sorted(Sort(xs, le), le)
  {
    if xs != [] {
      SortSorts(xs[1..], le);
      InsertSorted(xs[0], Sort(xs[1..], le), le);
    }
  }

  /** No two elements tie. */
  ghost predicate Apart<T(!new)>(xs: seq<T>, le: (T, T) -> bool) {
    forall x, y :: x in xs && y in xs && le(x, y) && le(y, x) ==> x == y
  }

  lemma SortedHeadsAgree<T(!new)>(xs: seq<T>, ys: seq<T>, le: (T, T) -> bool)
    requires Ordered(le) && Sorted(xs, le) && Sorted(ys, le) && Apart(xs, le)
    requires xs != [] && ys != [] && xs[0] in ys && ys[0] in xs
    ensures xs[0] == ys[0]
  {
    var i :| 0 <= i < |ys| && ys[i] == xs[0];
    var j :| 0 <= j < |xs| && xs[j] == ys[0];
    if i != 0 && j != 0 {
      assert le(xs[0], xs[j]) && le(ys[0], ys[i]);
    }
  }

  lemma TailMultiset<T>(xs: seq<T>)
    requires xs != []
    ensures xs == [xs[0]] + xs[1..] && multiset(xs[1..]) == multiset(xs) - multiset{xs[0]}
    ensures forall x :: x in xs[1..] ==> x in xs
  {
    assert xs == [xs[0]] + xs[1..];
  }

  lemma TailSorted<T(!new)>(xs: seq<T>, le: (T, T) -> bool)
    requires xs != [] && Sorted(xs, le)
    ensures Sorted(xs[1..], le) && (Apart(xs, le) ==> Apart(xs[1..], le))
  {
  }

  lemma SameMembers<T>(xs: seq<T>, ys: seq<T>)
    requires multiset(xs) == multiset(ys)
    ensures |xs| == |ys| && forall x :: x in xs <==> x in ys
  {
    assert |multiset(xs)| == |xs| && |multiset(ys)| == |ys|;
    assert forall x :: x in xs <==> x in multiset(xs);
    assert forall x :: x in ys <==> x in multiset(ys);
  }

  /** An order without ties leaves only one sorted arrangement. */
  lemma {:induction false} SortedUnique<T(!new)>(xs: seq<T>, ys: seq<T>, le: (T, T) -> bool)
    requires Ordered(le) && Sorted(xs, le) && Sorted(ys, le) && Apart(xs, le)
    requires multiset(xs) == multiset(ys)
    ensures xs == ys
    decreases |xs|
  {
    SameMembers(xs, ys);
    if xs != [] {
      SortedHeadsAgree(xs, ys, le);
      TailMultiset(xs);
      TailMultiset(ys);
      TailSorted(xs, le);
      TailSorted(ys, le);
      SortedUnique(xs[1..], ys[1..], le);
    }
  }

  /** Without ties sorting forgets exactly the arrangement. */
  lemma SortEqualIffPermutation<T(!new)>(xs: seq<T>, ys: seq<T>, le: (T, T) -> bool)
    requires Ordered(le) && Apart(xs, le)
    ensures Sort(xs, le) == Sort(ys, le) <==> multiset(xs) == multiset(ys)
  {
    SortPermutes(xs, le);
    SortPermutes(ys, le);
    if multiset(xs) == multiset(ys) {
      SortSorts(xs, le);
      SortSorts(ys, le);
      forall x | x in Sort(xs, le) ensures x in xs {
        assert x in multiset(Sort(xs, le));
      }
      SortedUnique(Sort(xs, le), Sort(ys, le), le);
    }
  }

  // ---------- Sorting by a string key ----------

  function ByKey<T>(key: T -> seq<nat>): (T, T) -> bool {
    (x: T, y: T) => LexLeq(key(x), key(y))
  }

  function SortBy<T>(xs: seq<T>, key: T -> seq<nat>): (r: seq<T>)
    ensures multiset(r) == multiset(xs)
  {
    SortPermutes(xs, ByKey(key));
    Sort(xs, ByKey(key))
  }

  lemma ByKeyOrdered<T(!new)>(key: T -> seq<nat>)
    ensures Ordered(ByKey(key))
  {
    forall x, y ensures ByKey(key)(x, y) || ByKey(key)(y, x) {
      LexTotal(key(x), key(y));
    }
    forall x, y, z | ByKey(key)(x, y) && ByKey(key)(y, z) ensures ByKey(key)(x, z) {
      LexTransitive(key(x), key(y), key(z));
    }
  }

  /** A key that no two elements share. */
  ghost predicate KeyInjective<T(!new)>(xs: seq<T>, key: T -> seq<nat>) {
    forall x, y :: x in xs && y in xs && key(x) == key(y) ==> x == y
  }

  lemma SortByEqualIffPermutation<T(!new)>(xs: seq<T>, ys: seq<T>, key: T -> seq<nat>)
    requires KeyInjective(xs, key)
    ensures SortBy(xs, key) == SortBy(ys, key) <==> multiset(xs) == multiset(ys)
  {
    ByKeyOrdered(key);
    forall x, y | x in xs && y in xs && ByKey(key)(x, y) && ByKey(key)(y, x) ensures x == y {
      LexAntisymmetric(key(x), key(y));
    }
    SortEqualIffPermutation(xs, ys, ByKey(key));
  }
}
