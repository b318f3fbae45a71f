/**
 Decimal numerals, as `Number.prototype.toString` prints a safe integer and `format!` prints
 an unsigned one: most significant digit first, no leading zeros, no sign. Numerals are
 injective, and a numeral followed by anything but a digit can be told from every other,
 which is what canonical text and session ids rest on.
 */
module Decimal {
  predicate IsDigit(c: nat) { 48 <= c < 58 }

  function Digits(n: nat): (d: seq<nat>)
    ensures d != [] && forall i :: 0 <= i < |d| ==> IsDigit(d[i])
  {
    if n < 10 then [48 + n] else Digits(n / 10) + [48 + n % 10]
  }

  /** What a string of digits stands for. */
  function ValueOf(d: seq<nat>): nat
    requires forall i :: 0 <= i < |d| ==> IsDigit(d[i])
  {
    if d == [] then 0 else assert IsDigit(d[|d| - 1]); 10 * ValueOf(d[..|d| - 1]) + (d[|d| - 1] as int - '0' as int)
  }

  /** A numeral stands for its number, and starts with a zero only for zero. */
  lemma {:induction false} DigitsRead(n: nat)
    ensures ValueOf(Digits(n)) == n && (Digits(n)[0] == '0' as int ==> n == 0)
  {
    var d := Digits(n);
    if n < 10 {
      assert d[..0] == [];
    } else {
      DigitsRead(n / 10);
      assert d[..|d| - 1] == Digits(n / 10);
    }
  }

  lemma DigitsInjective(m: nat, n: nat)
    requires Digits(m) == Digits(n)
    ensures m == n
  {
    DigitsRead(m);
    DigitsRead(n);
  }

  /** How many digits s starts with. */
  function DigitRun(s: seq<nat>): nat {
    if s == [] || !IsDigit(s[0]) then 0 else 1 + DigitRun(s[1..])
  }

  lemma {:induction false} DigitRunEnds(d: seq<nat>, u: seq<nat>)
    requires forall i :: 0 <= i < |d| ==> IsDigit(d[i])
    requires u == [] || !IsDigit(u[0])
    ensures DigitRun(d + u) == |d|
  {
    if d == [] {
      assert d + u == u;
    } else {
      DigitRunEnds(d[1..], u);
      assert (d + u)[1..] == d[1..] + u;
    }
  }

  /** Two numerals followed by something other than a digit are the same numeral. */
  lemma DigitsParse(m: nat, n: nat, u: seq<nat>, v: seq<nat>)
    requires u == [] || !IsDigit(u[0])
    requires v == [] || !IsDigit(v[0])
    requires Digits(m) + u == Digits(n) + v
    ensures m == n && u == v
  {
    var x, y := Digits(m), Digits(n);
    DigitRunEnds(x, u);
    DigitRunEnds(y, v);
    assert x == (x + u)[..|x|] && y == (y + v)[..|y|];
    assert u == (x + u)[|x|..] && v == (y + v)[|y|..];
    DigitsInjective(m, n);
  }
}
