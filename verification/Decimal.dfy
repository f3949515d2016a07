/** Numbers printed in decimal and read back, as JavaScript prints integers and `parseInt( s, 10 )` reads them. */
module Decimal {
  import opened Wrappers

  predicate IsDigit(c: char) {
    '0' <= c <= '9'
  }

  function DigitChar(n: nat): (c: char)
    requires n < 10
    ensures IsDigit(c) && DigitValue(c) == n
  {
    ['0', '1', '2', '3', '4', '5', '6', '7', '8', '9'][n]
  }

  function DigitValue(c: char): (n: nat)
    requires IsDigit(c)
    ensures n < 10
  {
    (c as int) - ('0' as int)
  }

  function Show(n: nat): (s: string)
    ensures s != [] && forall c :: c in s ==> IsDigit(c)
  {
    if n < 10 then [DigitChar(n)] else Show(n / 10) + [DigitChar(n % 10)]
  }

  function ShowInt(i: int): (s: string)
    ensures s != []
  {
    if i < 0 then "-" + Show(-i) else Show(i)
  }

  predicate IsSpace(c: char) {
    c == ' ' || c == '\t' || c == '\n' || c == '\r'
  }

  /** The value of the digits `s` starts with, behind those already read. */
  function ReadDigits(s: string, read: nat): (n: nat) {
    if s == [] || !IsDigit(s[0]) then read else ReadDigits(s[1..], 10 * read + DigitValue(s[0]))
  }

  /** `parseInt( s, 10 )`; None is NaN. */
  function ParseInt(s: string): Option<int> {
    if s == [] then None
    else if IsSpace(s[0]) then ParseInt(s[1..])
    else if s[0] == '-' then (if |s| > 1 && IsDigit(s[1]) then Some(0 - ReadDigits(s[1..], 0)) else None)
    else if s[0] == '+' then (if |s| > 1 && IsDigit(s[1]) then Some(ReadDigits(s[1..], 0)) else None)
    else if IsDigit(s[0]) then Some(ReadDigits(s, 0))
    else None
  }

  lemma ReadSnoc(s: string, c: char, read: nat)
    requires IsDigit(c) && forall d :: d in s ==> IsDigit(d)
    ensures ReadDigits(s + [c], read) == 10 * ReadDigits(s, read) + DigitValue(c)
  {
    if s == [] {
      assert (s + [c])[1..] == [];
    } else {
      assert (s + [c])[1..] == s[1..] + [c];
      ReadSnoc(s[1..], c, 10 * read + DigitValue(s[0]));
    }
  }

  lemma {:induction false} ReadShow(n: nat)
    ensures ReadDigits(Show(n), 0) == n
  {
    if n < 10 {
      assert Show(n)[1..] == [];
    } else {
      ReadShow(n / 10);
      ReadSnoc(Show(n / 10), DigitChar(n % 10), 0);
    }
  }

  lemma ParseShow(i: int)
    ensures ParseInt(ShowInt(i)) == Some(i)
  {
    if i < 0 {
      assert ShowInt(i)[1..] == Show(-i) && ShowInt(i)[1] == Show(-i)[0];
      ReadShow(-i);
    } else {
      assert Show(i)[0] in Show(i);
      ReadShow(i);
    }
  }

  lemma ShowInjective(m: nat, n: nat)
    ensures Show(m) == Show(n) ==> m == n
  {
    ReadShow(m);
    ReadShow(n);
  }
}
