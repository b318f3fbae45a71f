/**
 Bytes, and the concatenation of the pieces a stream arrives in. A piece is what one read of
 the terminal returned; the stream is all of them in order, and what holds of the stream does
 not depend on where it was cut: concatenation splits at any piece, and pieces left out make
 the whole shorter.
 */
module Bytes {
  type Byte = n: nat | n < 256

  function Concat(parts: seq<seq<Byte>>): seq<Byte> {
    if parts == [] then [] else Concat(parts[..|parts| - 1]) + parts[|parts| - 1]
  }

  lemma {:induction false} ConcatAppend(xs: seq<seq<Byte>>, ys: seq<seq<Byte>>)
    ensures Concat(xs + ys) == Concat(xs) + Concat(ys)
    decreases |ys|
  {
    if ys == [] {
      assert xs + ys == xs;
    } else {
      var n := |ys| - 1;
      ConcatAppend(xs, ys[..n]);
      assert (xs + ys)[..|xs + ys| - 1] == xs + ys[..n];
      assert Concat(xs) + (Concat(ys[..n]) + ys[n]) == Concat(xs) + Concat(ys[..n]) + ys[n];
    }
  }

  lemma ConcatSplit(xs: seq<seq<Byte>>, k: nat, m: nat)
    requires k <= m <= |xs|
    ensures Concat(xs[..m]) == Concat(xs[..k]) + Concat(xs[k..m])
  {
    assert xs[..m] == xs[..k] + xs[k..m];
    ConcatAppend(xs[..k], xs[k..m]);
  }

  /** Nonempty pieces add up: leaving some out makes the whole shorter. */
  lemma {:induction false} ConcatNonempty(xs: seq<seq<Byte>>)
    requires forall i :: 0 <= i < |xs| ==> xs[i] != []
    ensures |Concat(xs)| >= |xs|
  {
    if xs != [] {
      ConcatNonempty(xs[..|xs| - 1]);
    }
  }
}
