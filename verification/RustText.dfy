/**
 The guest service's text: characters that take one to four bytes (section 3 of RFC 3629),
 measured in bytes and cut only where a character ends. `Fitting` says what is left of a text
 that is too long; the loop that looks for a character boundary from the surplus upwards comes
 to the same. Beside it stand the ranges of ASCII letters and digits, spelled out.
 */
module RustText {
  import opened Wrappers

  function Size(c: char): nat {
    if c as int < 0x80 then 1 else if c as int < 0x800 then 2 else if c as int < 0x1_0000 then 3 else 4
  }

  /** The length of a text in UTF-8. */
  function Length(s: string): nat {
    if s == [] then 0 else Size(s[0]) + Length(s[1..])
  }

  lemma {:induction false} LengthAtLeast(s: string)
    ensures |s| <= Length(s) <= 4 * |s|
  {
    if s != [] {
      LengthAtLeast(s[1..]);
    }
  }

  lemma {:induction false} AsciiLength(s: string)
    requires forall i :: 0 <= i < |s| ==> s[i] as int < 0x80
    ensures Length(s) == |s|
  {
    if s != [] {
      AsciiLength(s[1..]);
    }
  }

  /** The number of characters in the first k bytes, if a character ends there. */
  function CharsIn(s: string, k: nat): (r: Option<nat>)
    ensures r.Some? ==> r.value <= |s|
  {
    if k == 0 then Some(0)
    else if s == [] || k < Size(s[0]) then None
    else match CharsIn(s[1..], k - Size(s[0]))
      case None => None
      case Some(n) => Some(n + 1)
  }

  predicate IsCharBoundary(s: string, k: nat) { CharsIn(s, k).Some? }

  lemma {:induction false} LengthSplit(s: string, i: nat)
    requires i <= |s|
    ensures Length(s) == Length(s[..i]) + Length(s[i..])
  {
    if i > 0 {
      LengthSplit(s[1..], i - 1);
      assert s[..i][1..] == s[1..][..i - 1];
      assert s[1..][i - 1..] == s[i..];
    } else {
      assert s[0..] == s;
    }
  }

  lemma LengthConcat(s: string, t: string)
    ensures Length(s + t) == Length(s) + Length(t)
  {
    LengthSplit(s + t, |s|);
    assert (s + t)[..|s|] == s && (s + t)[|s|..] == t;
  }

  lemma {:induction false} BoundaryIffPrefix(s: string, k: nat, i: nat)
    ensures CharsIn(s, k) == Some(i) <==> i <= |s| && Length(s[..i]) == k
  {
    if s != [] && i > 0 {
      if k >= Size(s[0]) { BoundaryIffPrefix(s[1..], k - Size(s[0]), i - 1); }
      if i <= |s| { assert s[..i][1..] == s[1..][..i - 1]; }
    }
  }

  /** The longest end of a text that fits: characters are dropped in front until it does. */
  function Fitting(s: string, max: nat): string {
    if Length(s) <= max then s else Fitting(s[1..], max)
  }

  lemma {:induction false} FittingIs(s: string, max: nat, i: nat)
    requires i <= |s| && Length(s[i..]) <= max
    requires forall j :: 0 <= j < i ==> Length(s[j..]) > max
    ensures Fitting(s, max) == s[i..]
  {
    assert s[0..] == s;
    if i > 0 {
      assert Length(s[0..]) > max;
      assert s[1..][i - 1..] == s[i..];
      forall j | 0 <= j < i - 1 ensures Length(s[1..][j..]) > max {
        assert s[1..][j..] == s[j + 1..];
        assert Length(s[j + 1..]) > max;
      }
      FittingIs(s[1..], max, i - 1);
    }
  }

  /** Short enough, the end of the text, and short of the bound by less than a character. */
  lemma {:induction false} FittingFits(s: string, max: nat)
    ensures var r := Fitting(s, max);
            && Length(r) <= max && |r| <= |s| && r == s[|s| - |r|..]
            && (Length(s) > max ==> Length(r) + 3 >= max)
  {
    if Length(s) > max {
      FittingFits(s[1..], max);
    }
  }

  /** The first place at or after the surplus where a character ends is where `Fitting` cuts. */
  lemma CutIsFitting(s: string, max: nat, overflow: nat, n: nat)
    requires Length(s) > max && Length(s) - max <= overflow && CharsIn(s, overflow) == Some(n)
    requires forall k: nat :: Length(s) - max <= k < overflow ==> !IsCharBoundary(s, k)
    ensures Fitting(s, max) == s[n..]
  {
    BoundaryIffPrefix(s, overflow, n);
    LengthSplit(s, n);
    forall j: nat | j < n ensures Length(s[j..]) > max {
      var k := Length(s[..j]);
      BoundaryIffPrefix(s, k, j);
      LengthSplit(s, j);
      LengthSplit(s[j..], n - j);
      assert s[j..][n - j..] == s[n..];
      assert Length(s[j..][..n - j]) > 0;
      assert IsCharBoundary(s, k);
    }
    FittingIs(s, max, n);
  }

  // ---------- ASCII classes ----------

  const CAPITALS := "ABCDEFGHIJKLMNOPQRSTUVWXYZ"
  const SMALL := "abcdefghijklmnopqrstuvwxyz"
  const DIGITS := "0123456789"

  lemma IsCapital(c: char)
    ensures 'A' <= c <= 'Z' <==> c in CAPITALS
  {
    if 'A' <= c <= 'Z' {
      assert CAPITALS[c as int - 'A' as int] == c;
    }
  }

  lemma IsSmall(c: char)
    ensures 'a' <= c <= 'z' <==> c in SMALL
  {
    if 'a' <= c <= 'z' {
      assert SMALL[c as int - 'a' as int] == c;
    }
  }

  lemma IsDigit(c: char)
    ensures '0' <= c <= '9' <==> c in DIGITS
  {
    if '0' <= c <= '9' {
      assert DIGITS[c as int - '0' as int] == c;
    }
  }
}
