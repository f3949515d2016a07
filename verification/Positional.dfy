/** Positional numbers, most significant digit first. */
module Positional {
  ghost predicate DigitsOf(base: nat, s: seq<nat>) {
    forall i :: 0 <= i < |s| ==> s[i] < base
  }

  function Value(base: nat, s: seq<nat>): nat {
    if s == [] then 0 else Value(base, s[..|s| - 1]) * base + s[|s| - 1]
  }

  function Digits(base: nat, n: nat): (s: seq<nat>)
    requires base >= 2
    ensures DigitsOf(base, s) && (s == [] <==> n == 0) && (s != [] ==> s[0] != 0)
  {
    if n == 0 then [] else
      Quotient(n, base);
      Digits(base, n / base) + [n % base]
  }

  /** The digits behind a run of leading zeros. */
  function Strip(s: seq<nat>): (r: seq<nat>)
    ensures |r| <= |s| && r == s[|s| - |r|..] && (r == [] || r[0] != 0)
    ensures forall i :: 0 <= i < |s| - |r| ==> s[i] == 0
  {
    if s == [] || s[0] != 0 then s else Strip(s[1..])
  }

  function Pow(base: nat, k: nat): nat {
    if k == 0 then 1 else base * Pow(base, k - 1)
  }

  lemma Quotient(n: nat, base: nat)
    requires base >= 2
    ensures n == n / base * base + n % base && n % base < base
    ensures n > 0 ==> n / base < n
  {
  }

  lemma Multiply(a: int, b: int, base: nat)
    requires a < b
    ensures a * base + base <= b * base
  {
    assert (b - a - 1) * base >= 0;
  }

  lemma SameQuotient(q: int, r: nat, n: int, d: nat, base: nat)
    requires q * base + r == n * base + d && r < base && d < base
    ensures q == n && r == d
  {
    if q > n { Multiply(n, q, base); }
    if q < n { Multiply(q, n, base); }
  }

  lemma {:induction false} ValueOfDigits(base: nat, n: nat)
    requires base >= 2
    ensures Value(base, Digits(base, n)) == n
  {
    if n != 0 {
      Quotient(n, base);
      ValueOfDigits(base, n / base);
      assert Digits(base, n)[..|Digits(base, n)| - 1] == Digits(base, n / base);
    }
  }

  lemma {:induction false} ValueOfStrip(base: nat, s: seq<nat>)
    ensures Value(base, Strip(s)) == Value(base, s)
  {
    if s != [] {
      var n := |s| - 1;
      ValueOfStrip(base, s[..n]);
      StripSnoc(s[..n], s[n]);
      assert s[..n] + [s[n]] == s;
      var head, all := Strip(s[..n]), Strip(s);
      if all != [] { assert all == head + [s[n]] && all[..|all| - 1] == head; }
    }
  }

  lemma StripSnoc(s: seq<nat>, d: nat)
    ensures Strip(s + [d]) == if Strip(s) == [] && d == 0 then [] else Strip(s) + [d]
  {
    if s == [] {
      assert (s + [d])[1..] == [];
    } else {
      assert (s + [d])[1..] == s[1..] + [d];
      StripSnoc(s[1..], d);
    }
  }

  ghost predicate Numeral(base: nat, s: seq<nat>) {
    DigitsOf(base, s) && (s == [] || s[0] != 0)
  }

  lemma {:induction false} Positive(base: nat, s: seq<nat>)
    requires base >= 2 && Numeral(base, s) && s != []
    ensures Value(base, s) > 0
  {
    if |s| > 1 {
      var n := |s| - 1;
      Positive(base, s[..n]);
      Multiply(0, Value(base, s[..n]), base);
    }
  }

  lemma {:induction false} NumeralsUnique(base: nat, s: seq<nat>, t: seq<nat>)
    requires base >= 2 && Numeral(base, s) && Numeral(base, t) && Value(base, s) == Value(base, t)
    ensures s == t
  {
    if s == [] {
      if t != [] { Positive(base, t); }
    } else if t == [] {
      Positive(base, s);
    } else {
      var m, n := |s| - 1, |t| - 1;
      SameQuotient(Value(base, s[..m]), s[m], Value(base, t[..n]), t[n], base);
      NumeralsUnique(base, s[..m], t[..n]);
      assert s == s[..m] + [s[m]] && t == t[..n] + [t[n]];
    }
  }

  /** Writing out the value of a numeral drops its leading zeros, and nothing else. */
  lemma DigitsOfValue(base: nat, s: seq<nat>)
    requires base >= 2 && DigitsOf(base, s)
    ensures Digits(base, Value(base, s)) == Strip(s)
  {
    ValueOfStrip(base, s);
    ValueOfDigits(base, Value(base, s));
    NumeralsUnique(base, Digits(base, Value(base, s)), Strip(s));
  }

  lemma {:induction false} ValueBelow(base: nat, s: seq<nat>)
    requires DigitsOf(base, s)
    ensures Value(base, s) < Pow(base, |s|)
  {
    if s != [] {
      var n := |s| - 1;
      ValueBelow(base, s[..n]);
      var v, p := Value(base, s[..n]), Pow(base, n);
      Multiply(v, p, base);
    }
  }

  lemma {:induction false} DigitCount(base: nat, n: nat, k: nat)
    requires base >= 2 && n < Pow(base, k)
    ensures |Digits(base, n)| <= k
  {
    if n != 0 {
      Quotient(n, base);
      var q, p := n / base, Pow(base, k - 1);
      if q >= p { assert q * base >= p * base; }
      DigitCount(base, q, k - 1);
    }
  }

  lemma Associate(a: nat, b: nat, c: nat)
    ensures (a * b) * c == a * (b * c)
  {
  }

  lemma {:induction false} PowAdd(base: nat, j: nat, k: nat)
    ensures Pow(base, j + k) == Pow(base, j) * Pow(base, k)
  {
    if j > 0 {
      PowAdd(base, j - 1, k);
      Associate(base, Pow(base, j - 1), Pow(base, k));
    }
  }
}
