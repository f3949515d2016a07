/** Base58 over arbitrarily large integers, as addresses are written. */
module Base58 {
  import opened Wrappers
  import opened Positional

  const ALPHABET := "123456789" + "ABCDEFGH" + "JKLMN" + "PQRSTUVWXYZ" + "abcdefghijk" + "mnopqrstuvwxyz"

  type Byte = b: nat | b < 256

  /** `input[0]` on an empty slice. */
  datatype Panic = IndexOutOfRange

  function Char(digit: nat): char
    requires digit < 58
  {
    assert |ALPHABET| == 58;
    ALPHABET[digit]
  }

  /** `bytes.IndexByte`: the first index of `c`, or -1. */
  function IndexIn(s: string, c: char): (i: int)
    ensures -1 <= i < |s| && (i == -1 ==> c !in s) && (i >= 0 ==> s[i] == c && c !in s[..i])
  {
    if s == [] then -1
    else if s[0] == c then 0
    else
      var i := IndexIn(s[1..], c);
      if i == -1 then -1 else
        assert s[..i + 1] == [s[0]] + s[1..][..i];
        i + 1
  }

  function Index(c: char): (i: int)
    ensures -1 <= i < 58 && (i >= 0 <==> c in ALPHABET) && (i >= 0 ==> Char(i) == c)
  {
    assert |ALPHABET| == 58;
    IndexIn(ALPHABET, c)
  }

  lemma IndexOfChar(digit: nat)
    requires digit < 58
    ensures Index(Char(digit)) == digit
  {
    var i := Index(Char(digit));
    assert Char(i) == Char(digit);
    if i < digit { Ascending(i, digit); }
    if digit < i { Ascending(digit, i); }
  }

  lemma Step(i: nat)
    requires i + 1 < 58
    ensures Char(i) < Char(i + 1)
  {
  }

  /** The alphabet is in character order, so no character stands in it twice. */
  lemma {:induction false} Ascending(i: nat, j: nat)
    requires i < j < 58
    ensures Char(i) < Char(j)
  {
    if i + 1 < j { Ascending(i, j - 1); }
    Step(j - 1);
  }

  /** A letter or digit, but none of the four that are easily mistaken for others. */
  predicate Unmistakable(c: char) {
    ('0' <= c <= '9' || 'A' <= c <= 'Z' || 'a' <= c <= 'z') && c !in ['0', 'O', 'I', 'l']
  }

  lemma AlphabetHas(c: char)
    requires Unmistakable(c)
    ensures c in ALPHABET
  {
    var n := c as int;
    if c <= '9' { assert ALPHABET[n - 49] == c; }
    else if c <= 'H' { assert ALPHABET[n - 56] == c; }
    else if c <= 'N' { assert ALPHABET[n - 57] == c; }
    else if c <= 'Z' { assert ALPHABET[n - 58] == c; }
    else if c <= 'k' { assert ALPHABET[n - 64] == c; }
    else { assert ALPHABET[n - 65] == c; }
  }

  lemma AlphabetChars(c: char)
    ensures c in ALPHABET <==> Unmistakable(c)
  {
    if Unmistakable(c) { AlphabetHas(c); } else if c in ALPHABET { AlphabetOnly(Index(c)); }
  }

  lemma Between(lo: nat, i: nat, hi: nat)
    requires lo <= i <= hi < 58
    ensures Char(lo) <= Char(i) <= Char(hi)
  {
    if lo < i { Ascending(lo, i); }
    if i < hi { Ascending(i, hi); }
  }

  lemma AlphabetOnly(i: nat)
    requires i < 58
    ensures Unmistakable(Char(i))
  {
    if i <= 8 { Between(0, i, 8); assert Char(0) == '1' && Char(8) == '9'; }
    else if i <= 16 { Between(9, i, 16); assert Char(9) == 'A' && Char(16) == 'H'; }
    else if i <= 21 { Between(17, i, 21); assert Char(17) == 'J' && Char(21) == 'N'; }
    else if i <= 32 { Between(22, i, 32); assert Char(22) == 'P' && Char(32) == 'Z'; }
    else if i <= 43 { Between(33, i, 43); assert Char(33) == 'a' && Char(43) == 'k'; }
    else { Between(44, i, 57); assert Char(44) == 'm' && Char(57) == 'z'; }
  }

  function Text(digits: seq<nat>): (s: string)
    requires DigitsOf(58, digits)
    ensures |s| == |digits|
  {
    seq(|digits|, i requires 0 <= i < |digits| => Char(digits[i]))
  }

  /** `s`, behind one `zero` if it is marked so */
  function Led<T>(marked: bool, zero: T, s: seq<T>): seq<T> {
    if marked then [zero] + s else s
  }

  function Encode(input: seq<Byte>): Result<string, Panic> {
    if input == [] then Err(IndexOutOfRange)
    else Ok(Led(input[0] == 0, '1', Text(Digits(58, Value(256, input)))))
  }

  /** The sum that `Base58Decode` accumulates: a character outside the alphabet counts -1. */
  function Total(s: string): int {
    if s == [] then 0 else Total(s[..|s| - 1]) * 58 + Index(s[|s| - 1])
  }

  /** `big.Int.Bytes`: the magnitude, without leading zeros. */
  function Bytes(x: int): (b: seq<Byte>)
    ensures b == [] || b[0] != 0
  {
    Digits(256, if x < 0 then -x else x)
  }

  function Decode(s: string): Result<seq<Byte>, Panic> {
    if s == [] then Err(IndexOutOfRange)
    else Ok(Led(s[0] == '1', 0, Bytes(Total(s))))
  }

  // ---------- round trips ----------

  predicate InAlphabet(s: string) {
    forall i :: 0 <= i < |s| ==> s[i] in ALPHABET
  }

  function Indices(s: string): (d: seq<nat>)
    requires InAlphabet(s)
    ensures DigitsOf(58, d) && Text(d) == s
  {
    seq(|s|, i requires 0 <= i < |s| => Index(s[i]) as nat)
  }

  lemma {:induction false} TotalOfText(d: seq<nat>)
    requires DigitsOf(58, d)
    ensures Total(Text(d)) == Value(58, d)
  {
    if d != [] {
      var n := |d| - 1;
      assert Text(d)[..n] == Text(d[..n]);
      TotalOfText(d[..n]);
      IndexOfChar(d[n]);
    }
  }

  lemma {:induction false} LeadingZero(base: nat, d: seq<nat>)
    ensures Value(base, [0] + d) == Value(base, d)
  {
    var s := [0] + d;
    if d == [] {
      assert s[..0] == [];
    } else {
      assert s[..|s| - 1] == [0] + d[..|d| - 1];
      LeadingZero(base, d[..|d| - 1]);
    }
  }

  lemma One(digit: nat)
    requires digit < 58
    ensures Char(digit) == '1' <==> digit == 0
  {
    IndexOfChar(digit);
    IndexOfChar(0);
  }

  lemma TextMarked(digits: seq<nat>)
    requires DigitsOf(58, digits)
    ensures Text([0] + digits) == ['1'] + Text(digits)
  {
  }

  lemma DecodeMarked(digits: seq<nat>)
    requires DigitsOf(58, digits)
    ensures Decode(['1'] + Text(digits)) == Ok([0] + Bytes(Value(58, digits)))
  {
    LeadingZero(58, digits);
    TextMarked(digits);
    TotalOfText([0] + digits);
  }

  /** Decoding what stands for a numeral, with or without a '1' before it. */
  lemma DecodeText(marked: bool, digits: seq<nat>)
    requires Numeral(58, digits) && (marked || digits != [])
    ensures Decode(Led(marked, '1', Text(digits))) == Ok(Led(marked, 0, Bytes(Value(58, digits))))
  {
    if marked {
      DecodeMarked(digits);
    } else {
      TotalOfText(digits);
      One(digits[0]);
    }
  }

  lemma EncodeBytes(marked: bool, v: nat)
    requires marked || v != 0
    ensures Encode(Led(marked, 0, Bytes(v))) == Ok(Led(marked, '1', Text(Digits(58, v))))
  {
    ValueOfDigits(256, v);
    if marked { LeadingZero(256, Bytes(v)); }
  }

  /** The bytes with their run of leading zeros cut to at most one. */
  function CutZeros(b: seq<Byte>): seq<Byte> {
    Led(b != [] && b[0] == 0, 0, Strip(b))
  }

  lemma DecodeEncode(b: seq<Byte>)
    requires b != []
    ensures Encode(b).Ok? && Decode(Encode(b).value) == Ok(CutZeros(b))
  {
    var v := Value(256, b);
    DigitsOfValue(256, b);
    ValueOfDigits(58, v);
    DecodeText(b[0] == 0, Digits(58, v));
  }

  lemma CutZerosSame(b: seq<Byte>)
    requires b != []
    ensures CutZeros(b) == b <==> !(|b| >= 2 && b[0] == 0 && b[1] == 0)
  {
    if b[0] == 0 { assert b == [0] + b[1..] && Strip(b) == Strip(b[1..]); }
  }

  /** Decoding an encoding gives the bytes back exactly if at most one leading byte is zero. */
  lemma DecodeEncodeExact(b: seq<Byte>)
    requires b != []
    ensures Encode(b).Ok? && (Decode(Encode(b).value) == Ok(b) <==> !(|b| >= 2 && b[0] == 0 && b[1] == 0))
  {
    DecodeEncode(b);
    CutZerosSame(b);
  }

  /** Two zero bytes come back as one. */
  lemma ZerosLost()
    ensures Encode([0, 0]) == Ok("1") && Decode("1") == Ok([0])
  {
    var none: seq<nat> := [];
    assert [0, 0] == [0] + ([0] + none);
    LeadingZero(256, [0] + none);
    LeadingZero(256, none);
    DecodeText(true, none);
    assert Text(none) == "" && Led(true, '1', Text(none)) == "1";
  }

  predicate Canonical(s: string) {
    InAlphabet(s) && !(|s| >= 2 && s[0] == '1' && s[1] == '1')
  }

  lemma EncodeCanonical(b: seq<Byte>)
    requires b != []
    ensures Encode(b).Ok? && Canonical(Encode(b).value)
  {
    var digits := Digits(58, Value(256, b));
    if digits != [] { One(digits[0]); }
    One(0);
    assert Index('1') >= 0;
  }

  lemma CanonicalText(s: string)
    requires s != "" && Canonical(s)
    ensures s == Led(s[0] == '1', '1', Text(Strip(Indices(s))))
  {
    var d := Indices(s);
    assert Char(d[0]) == s[0];
    One(d[0]);
    if s[0] == '1' {
      if |s| > 1 {
        assert Char(d[1]) == s[1];
        One(d[1]);
      }
      assert Strip(d) == d[1..] && Text(d[1..]) == s[1..];
    }
  }

  /** Encoding what was decoded gives the text back exactly if it is canonical: in the alphabet, with at most one leading '1'. */
  lemma EncodeDecode(s: string)
    requires s != ""
    ensures Decode(s).Ok? && (Encode(Decode(s).value) == Ok(s) <==> Canonical(s))
  {
    var b := Decode(s).value;
    if Canonical(s) {
      var d := Indices(s);
      TotalOfText(d);
      DigitsOfValue(58, d);
      CanonicalText(s);
      EncodeBytes(s[0] == '1', Value(58, d));
    } else if b != [] {
      EncodeCanonical(b);
    }
  }

  /** Two inputs share their encoding exactly if they differ in the number of leading zeros only, both having some. */
  lemma EncodeCollides(a: seq<Byte>, b: seq<Byte>)
    requires a != [] && b != []
    ensures Encode(a) == Encode(b) <==> CutZeros(a) == CutZeros(b)
  {
    DecodeEncode(a);
    DecodeEncode(b);
    if CutZeros(a) == CutZeros(b) {
      ValueOfStrip(256, a);
      ValueOfStrip(256, b);
      assert a[0] == 0 <==> CutZeros(a)[0] == 0;
      assert b[0] == 0 <==> CutZeros(b)[0] == 0;
      if a[0] == 0 { assert CutZeros(a)[1..] == Strip(a) && CutZeros(b)[1..] == Strip(b); }
    }
  }

  /** Bytes and characters are in order of decreasing weight: 256 is 4 times 58, and 24. */
  lemma KnownEncoding()
    ensures Encode([1, 0]) == Ok("5R")
  {
    TwoDigits(256, 1, 0);
    KnownDigits();
    KnownText();
    EncodeUnmarked([1, 0], 256, [4, 24]);
  }

  lemma EncodeUnmarked(input: seq<Byte>, v: nat, digits: seq<nat>)
    requires input != [] && input[0] != 0 && Value(256, input) == v && Digits(58, v) == digits
    ensures Encode(input) == Ok(Text(digits))
  {
  }

  lemma KnownDigits()
    ensures Digits(58, 256) == [4, 24]
  {
    TwoDigits(58, 4, 24);
    ValueOfDigits(58, 256);
    NumeralsUnique(58, Digits(58, 256), [4, 24]);
  }

  lemma KnownText()
    ensures Text([4, 24]) == "5R"
  {
    assert Char(4) == '5' && Char(24) == 'R';
  }

  lemma TwoDigits(base: nat, a: nat, b: nat)
    ensures Value(base, [a, b]) == a * base + b
  {
    assert [a, b][..1] == [a] && [a][..0] == [];
    assert Value(base, [a]) == a;
  }

  /** A character outside the alphabet counts as -1, of which the magnitude is left. */
  lemma OutsideIsMinusOne(c: char)
    requires c !in ALPHABET
    ensures Decode([c]) == Ok([1])
  {
    assert Total([c][..0]) == 0;
    assert Digits(256, 1) == [1];
    assert '1' in ALPHABET by { assert ALPHABET[0] == '1'; }
  }

  // ---------- length ----------

  /** 11 n / 8, rounded up */
  function Bound(n: nat): nat {
    (11 * n + 7) / 8
  }

  lemma EightBytes()
    ensures Pow(256, 8) <= Pow(58, 11)
  {
    assert Pow(256, 4) == 4294967296;
    assert Pow(58, 4) == 11316496;
    PowAdd(256, 4, 4);
    PowAdd(58, 4, 4);
    PowAdd(58, 8, 3);
    assert Pow(58, 3) == 195112;
  }

  lemma Times(a: nat, b: nat, c: nat, d: nat)
    requires a <= c && b <= d
    ensures a * b <= c * d
  {
    assert a * b <= c * b <= c * d;
  }

  lemma FewBytes(n: nat)
    requires n < 8
    ensures Pow(256, n) <= Pow(58, Bound(n))
  {
    assert Pow(256, 4) == 4294967296 && Pow(58, 4) == 11316496;
    if n >= 4 { HalfMore(n - 4); }
  }

  lemma HalfMore(n: nat)
    requires n < 4
    ensures Pow(256, 4) * Pow(256, n) <= Pow(58, 4) * Pow(58, Bound(n + 4) - 4)
    ensures Pow(256, n + 4) == Pow(256, 4) * Pow(256, n) && Pow(58, Bound(n + 4)) == Pow(58, 4) * Pow(58, Bound(n + 4) - 4)
  {
    assert Pow(256, 4) == 4294967296 && Pow(58, 4) == 11316496;
    assert Pow(256, 3) == 16777216 && Pow(58, 3) == 195112 && Pow(58, 6) == 38068692544;
    PowAdd(256, 4, n);
    PowAdd(58, 4, Bound(n + 4) - 4);
  }

  lemma EightMore(n: nat)
    requires Pow(256, n) <= Pow(58, Bound(n))
    ensures Pow(256, n + 8) <= Pow(58, Bound(n + 8))
  {
    var a, b, c, d := Pow(256, n), Pow(256, 8), Pow(58, Bound(n)), Pow(58, 11);
    assert b <= d by { EightBytes(); }
    assert Pow(256, n + 8) == a * b by { PowAdd(256, n, 8); }
    assert Pow(58, Bound(n + 8)) == c * d by { PowAdd(58, Bound(n), 11); }
    Times(a, b, c, d);
  }

  lemma {:induction false} PowerBound(n: nat)
    ensures Pow(256, n) <= Pow(58, Bound(n))
  {
    if n < 8 {
      FewBytes(n);
    } else {
      PowerBound(n - 8);
      EightMore(n - 8);
    }
  }

  /** The encoding of n bytes has at most 11 n / 8 characters, rounded up. */
  lemma EncodedLength(b: seq<Byte>)
    requires b != []
    ensures Encode(b).Ok? && |Encode(b).value| <= Bound(|b|)
  {
    var n := |b|;
    var v := Value(256, b);
    if b[0] == 0 {
      assert b == [0] + b[1..];
      LeadingZero(256, b[1..]);
      ValueBelow(256, b[1..]);
      PowerBound(n - 1);
      DigitCount(58, v, Bound(n - 1));
    } else {
      ValueBelow(256, b);
      PowerBound(n);
      DigitCount(58, v, Bound(n));
    }
  }

  // ---------- the loops ----------

  function Reversed<T>(s: seq<T>): (r: seq<T>)
    ensures |r| == |s| && forall i :: 0 <= i < |s| ==> r[i] == s[|s| - 1 - i]
  {
    seq(|s|, i requires 0 <= i < |s| => s[|s| - 1 - i])
  }

  /** `ReverseBytes`: swaps from both ends inwards. */
  method ReverseBytes(data: array<char>)
    modifies data
    ensures data[..] == Reversed(old(data[..]))
  {
    var i, j := 0, data.Length - 1;
    while i < j
      invariant 0 <= i && i + j == data.Length - 1 && j >= i - 1
      invariant forall k :: 0 <= k < i || j < k < data.Length ==> data[k] == old(data[data.Length - 1 - k])
      invariant forall k :: i <= k <= j ==> data[k] == old(data[k])
    {
      data[i], data[j] := data[j], data[i];
      i, j := i + 1, j - 1;
    }
  }

  lemma NextDigit(x: nat, written: seq<nat>, result: string)
    requires x != 0 && DigitsOf(58, written) && Reversed(result) == Text(written)
    ensures x / 58 < x && Digits(58, x) + written == Digits(58, x / 58) + ([x % 58] + written)
    ensures DigitsOf(58, [x % 58] + written) && Reversed(result + [Char(x % 58)]) == Text([x % 58] + written)
  {
    Quotient(x, 58);
    assert Text([x % 58] + written) == [Char(x % 58)] + Text(written);
    assert Reversed(result + [Char(x % 58)]) == [Char(x % 58)] + Reversed(result);
  }

  /** `Base58Encode`: digits come out last first, and are reversed in place. */
  method Base58Encode(input: seq<Byte>) returns (r: Result<string, Panic>)
    ensures r == Encode(input)
  {
    var x := Value(256, input);
    var result := "";
    ghost var all, written: seq<nat> := Digits(58, x), [];
    while x != 0
      invariant all == Digits(58, x) + written && DigitsOf(58, written) && Reversed(result) == Text(written)
    {
      NextDigit(x, written, result);
      written := [x % 58] + written;
      result := result + [Char(x % 58)];
      x := x / 58;
    }
    assert written == all;
    assert Reversed(result) == Text(all);
    if input == [] { return Err(IndexOutOfRange); }
    Marked(input[0] == 0, result, Text(all));
    if input[0] == 0 { result := result + [Char(0)]; }
    var data := new char[|result|](i requires 0 <= i < |result| => result[i]);
    assert data[..] == result;
    ReverseBytes(data);
    r := Ok(data[..]);
  }

  lemma Marked(zero: bool, result: string, text: string)
    requires Reversed(result) == text
    ensures Reversed(if zero then result + [Char(0)] else result) == Led(zero, '1', text)
  {
    assert Char(0) == '1';
    assert Reversed(result + ['1']) == ['1'] + Reversed(result);
  }

  /** `Base58Decode` */
  method Base58Decode(input: string) returns (r: Result<seq<Byte>, Panic>)
    ensures r == Decode(input)
  {
    var result := 0;
    for i := 0 to |input|
      invariant result == Total(input[..i])
    {
      assert input[..i + 1][..i] == input[..i];
      result := result * 58;
      result := result + Index(input[i]);
    }
    assert input[..|input|] == input;
    var decoded := Bytes(result);
    if input == "" { return Err(IndexOutOfRange); }
    if input[0] == Char(0) { decoded := [0] + decoded; }
    r := Ok(decoded);
  }
}
