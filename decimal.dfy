/** Decimal digits: reading a run of digit characters as a number, and
    printing a number the way Arduino's `Print::print(int)` does. */
module Decimal {
  predicate IsDigit(c: char) {
    '0' <= c <= '9'
  }

  predicate AllDigits(s: seq<char>) {
    forall i :: 0 <= i < |s| ==> IsDigit(s[i])
  }

  function DigitValue(c: char): (d: nat)
    requires IsDigit(c)
    ensures d < 10
  {
    (c as int) - ('0' as int)
  }

  function DigitChar(d: nat): (c: char)
    requires d < 10
    ensures IsDigit(c) && DigitValue(c) == d
  {
    ('0' as int + d) as char
  }

  /** The digit characters of `s`, in order; everything else dropped. */
  function Digits(s: seq<char>): (r: seq<char>)
    ensures |r| <= |s| && AllDigits(r)
  {
    if s == [] then []
    else Digits(s[..|s| - 1]) + (if IsDigit(s[|s| - 1]) then [s[|s| - 1]] else [])
  }

  lemma DigitsSnoc(s: seq<char>, c: char)
    ensures Digits(s + [c]) == Digits(s) + (if IsDigit(c) then [c] else [])
  {
    assert (s + [c])[..|s|] == s;
  }

  lemma {:induction false} DigitsAppend(a: seq<char>, b: seq<char>)
    ensures Digits(a + b) == Digits(a) + Digits(b)
    decreases |b|
  {
    if b == [] {
      assert a + b == a;
    } else {
      var b' := b[..|b| - 1];
      var c := b[|b| - 1];
      assert b == b' + [c];
      assert a + b == (a + b') + [c];
      DigitsSnoc(a + b', c);
      DigitsAppend(a, b');
      DigitsSnoc(b', c);
    }
  }

  lemma {:induction false} DigitsOfDigitString(s: seq<char>)
    requires AllDigits(s)
    ensures Digits(s) == s
    decreases |s|
  {
    if s != [] {
      assert s == s[..|s| - 1] + [s[|s| - 1]];
      DigitsSnoc(s[..|s| - 1], s[|s| - 1]);
      DigitsOfDigitString(s[..|s| - 1]);
    }
  }

  /** The number a string of decimal digits denotes, most significant first. */
  function DecimalValue(ds: seq<char>): nat
    requires AllDigits(ds)
  {
    if ds == [] then 0
    else DecimalValue(ds[..|ds| - 1]) * 10 + DigitValue(ds[|ds| - 1])
  }

  lemma DecimalValueSnoc(ds: seq<char>, c: char)
    requires AllDigits(ds) && IsDigit(c)
    ensures DecimalValue(ds + [c]) == DecimalValue(ds) * 10 + DigitValue(c)
  {
    assert (ds + [c])[..|ds|] == ds;
  }

  /** Decimal text of a natural number without leading zeros. */
  function NatToString(n: nat): (s: string)
    ensures |s| >= 1 && AllDigits(s)
    ensures |s| > 1 ==> s[0] != '0'
  {
    if n < 10 then [DigitChar(n)] else NatToString(n / 10) + [DigitChar(n % 10)]
  }

  /** The decimal text of `n` reads back as `n`. */
  lemma {:induction false} NatToStringRoundTrip(n: nat)
    ensures DecimalValue(NatToString(n)) == n
  {
    if n >= 10 {
      NatToStringRoundTrip(n / 10);
      DecimalValueSnoc(NatToString(n / 10), DigitChar(n % 10));
    }
  }

  /** Reading a digit string without leading zeros and printing the number
      gives the original string back: the other half of the round trip. */
  lemma {:induction false} DecimalValueRoundTrip(ds: seq<char>)
    requires AllDigits(ds) && |ds| >= 1
    requires |ds| > 1 ==> ds[0] != '0'
    ensures NatToString(DecimalValue(ds)) == ds
    decreases |ds|
  {
    var front := ds[..|ds| - 1];
    var c := ds[|ds| - 1];
    if |ds| == 1 {
      assert front == [];
      assert ds == [c];
    } else {
      assert front[0] == ds[0];
      DecimalValueRoundTrip(front);
      LeadingDigitPositive(front);
      var n := DecimalValue(ds);
      assert n == DecimalValue(front) * 10 + DigitValue(c);
      assert n / 10 == DecimalValue(front) && n % 10 == DigitValue(c);
      assert ds == front + [c];
    }
  }

  lemma {:induction false} LeadingDigitPositive(ds: seq<char>)
    requires AllDigits(ds) && |ds| >= 1 && ds[0] != '0'
    ensures DecimalValue(ds) >= 1
    decreases |ds|
  {
    if |ds| > 1 {
      assert ds[..|ds| - 1][0] == ds[0];
      LeadingDigitPositive(ds[..|ds| - 1]);
    }
  }

  /** Arduino's `print(int)`: a minus sign for negative numbers, then the
      decimal digits. */
  function IntToString(i: int): string
  {
    if i < 0 then "-" + NatToString(-i) else NatToString(i)
  }
}
