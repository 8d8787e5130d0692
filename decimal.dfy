/**
 * Decimal text of natural numbers as Python's str(n) and f"{n:0w}" write
 * it: the counter suffix of a renamed file, and the year and month folder
 * names.
 */
module Decimal {

  predicate IsDigit(ch: char) {
    '0' <= ch <= '9'
  }

  predicate AllDigits(s: string) {
    forall k :: 0 <= k < |s| ==> IsDigit(s[k])
  }

  function DigitChar(d: nat): (ch: char)
    requires d < 10
    ensures IsDigit(ch)
  {
    ('0' as int + d) as char
  }

  function DigitValue(ch: char): (d: nat)
    requires IsDigit(ch)
    ensures d < 10
  {
    ch as int - '0' as int
  }

  /** str(n): the shortest decimal text of `n`, without leading zeros. */
  function Digits(n: nat): (s: string)
    ensures |s| >= 1 && AllDigits(s)
    ensures s[0] == '0' ==> n == 0 && s == "0"
  {
    if n < 10 then [DigitChar(n)] else Digits(n / 10) + [DigitChar(n % 10)]
  }

  /** The number a string of decimal digits denotes. */
  function Value(s: string): nat
    requires AllDigits(s)
  {
    if s == [] then 0 else Value(s[..|s| - 1]) * 10 + DigitValue(s[|s| - 1])
  }

  function Zeros(n: nat): (s: string)
    ensures |s| == n && forall k :: 0 <= k < n ==> s[k] == '0'
  {
    if n == 0 then [] else Zeros(n - 1) + "0"
  }

  /** f"{n:0{width}}": the digits of `n`, padded on the left with zeros to at least `width` characters. */
  function ZeroPad(n: nat, width: nat): (s: string)
    ensures |s| == if width <= |Digits(n)| then |Digits(n)| else width
    ensures AllDigits(s)
    ensures s[|s| - |Digits(n)|..] == Digits(n)
    ensures forall k :: 0 <= k < |s| - |Digits(n)| ==> s[k] == '0'
  {
    var d := Digits(n);
    if width <= |d| then d else Zeros(width - |d|) + d
  }

  /** Reading back the text str(n) gives n. */
  lemma {:induction false} ValueOfDigits(n: nat)
    ensures Value(Digits(n)) == n
  {
    if n >= 10 {
      ValueOfDigits(n / 10);
      var s := Digits(n);
      assert s[..|s| - 1] == Digits(n / 10);
    }
  }

  /** Leading zeros do not change the value of a digit string. */
  lemma {:induction false} ValueOfZerosPrefix(z: nat, s: string)
    requires AllDigits(s)
    ensures AllDigits(Zeros(z) + s) && Value(Zeros(z) + s) == Value(s)
  {
    if s == [] {
      ValueOfZeros(z);
      assert Zeros(z) + s == Zeros(z);
    } else {
      var t := Zeros(z) + s;
      assert t[..|t| - 1] == Zeros(z) + s[..|s| - 1];
      ValueOfZerosPrefix(z, s[..|s| - 1]);
    }
  }

  lemma {:induction false} ValueOfZeros(z: nat)
    ensures Value(Zeros(z)) == 0
  {
    if z > 0 {
      assert Zeros(z)[..z - 1] == Zeros(z - 1);
      ValueOfZeros(z - 1);
    }
  }

  /** Reading back the zero-padded text gives n, whatever the width. */
  lemma ValueOfZeroPad(n: nat, width: nat)
    ensures Value(ZeroPad(n, width)) == n
  {
    var d := Digits(n);
    ValueOfDigits(n);
    if width > |d| {
      assert ZeroPad(n, width) == Zeros(width - |d|) + d;
      ValueOfZerosPrefix(width - |d|, d);
    } else {
      assert ZeroPad(n, width) == d;
    }
  }

  /** Distinct numbers have distinct decimal texts. */
  lemma DigitsInjective(i: nat, j: nat)
    ensures Digits(i) == Digits(j) ==> i == j
  {
    ValueOfDigits(i);
    ValueOfDigits(j);
  }

  /** A number below 10^width needs at most `width` digits. */
  lemma {:induction false} DigitsFit(n: nat, width: nat)
    requires 1 <= width && n < Pow10(width)
    ensures |Digits(n)| <= width
  {
    if n >= 10 {
      assert width > 1;
      DigitsFit(n / 10, width - 1);
    }
  }

  function Pow10(k: nat): (p: nat)
    ensures p >= 1
  {
    if k == 0 then 1 else 10 * Pow10(k - 1)
  }

  /** A year below 10000 is written with exactly four characters, a month below 100 with exactly two. */
  lemma FolderNameWidths(year: nat, month: nat)
    requires year < 10000 && month <= 99
    ensures |ZeroPad(year, 4)| == 4 && |ZeroPad(month, 2)| == 2
  {
    assert Pow10(4) == 10000 && Pow10(2) == 100;
    DigitsFit(year, 4);
    DigitsFit(month, 2);
  }
}
