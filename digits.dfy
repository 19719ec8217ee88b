/**
 * Decimal text of naturals, as Go's fmt verb %d and time's zero-padded
 * fields write them, and the value of a digit string.
 */
module Digits {

  predicate IsDigit(c: char) {
    '0' <= c <= '9'
  }

  predicate AllDigits(s: string) {
    forall i :: 0 <= i < |s| ==> IsDigit(s[i])
  }

  function DigitChar(d: nat): (c: char)
    requires d < 10
    ensures IsDigit(c) && c as int - 48 == d
  {
    (48 + d) as char
  }

  function DigitValue(c: char): (d: nat)
    requires IsDigit(c)
    ensures d < 10 && (48 + d) as char == c
  {
    c as int - 48
  }

  /** The text %d prints for n: at least one digit, no leading zero unless n is 0. */
  function Decimal(n: nat): (r: string)
    ensures 1 <= |r| && AllDigits(r)
    ensures r[0] == '0' ==> n == 0
    decreases n
  {
    if n < 10 then [DigitChar(n)] else Decimal(n / 10) + [DigitChar(n % 10)]
  }

  /** The number a string of digits denotes (most significant digit first). */
  function ValueOf(s: string): nat
    requires AllDigits(s)
  {
    if s == [] then 0 else ValueOf(s[..|s| - 1]) * 10 + DigitValue(s[|s| - 1])
  }

  /** Reading back what %d printed gives the number. */
  lemma {:induction false} ValueOfDecimal(n: nat)
    ensures ValueOf(Decimal(n)) == n
    decreases n
  {
    var r := Decimal(n);
    if n >= 10 {
      ValueOfDecimal(n / 10);
      assert r[..|r| - 1] == Decimal(n / 10);
    }
  }

  /** The text %d prints for a positive number: digits with no leading zero. */
  predicate PositiveDecimal(s: string) {
    s != [] && AllDigits(s) && s[0] != '0'
  }

  /** Digits with no leading zero are what %d prints for their positive value. */
  lemma {:induction false} DecimalOfValue(s: string)
    requires PositiveDecimal(s)
    ensures ValueOf(s) >= 1 && Decimal(ValueOf(s)) == s
    decreases |s|
  {
    var n := |s|;
    if n == 1 {
      assert s[..0] == [];
    } else {
      var init, last := s[..n - 1], s[n - 1];
      assert init[0] == s[0];
      DecimalOfValue(init);
      var v := ValueOf(s);
      assert v == ValueOf(init) * 10 + DigitValue(last);
      LastDigit(ValueOf(init), DigitValue(last));
      assert DigitChar(v % 10) == last;
      assert Decimal(v) == Decimal(v / 10) + [DigitChar(v % 10)];
      assert s == init + [last];
    }
  }

  /** Appending a digit d to the digits of a is the number a * 10 + d. */
  lemma LastDigit(a: nat, d: nat)
    requires a >= 1 && d < 10
    ensures a * 10 + d >= 10 && (a * 10 + d) / 10 == a && (a * 10 + d) % 10 == d
  {
  }

  /** A number of five digits or more prints as at least five characters. */
  lemma {:induction false} DecimalLength(n: nat, k: nat)
    requires k <= 4
    requires n >= Pow10(k)
    ensures |Decimal(n)| >= k + 1
    decreases k
  {
    if k > 0 {
      DecimalLength(n / 10, k - 1);
    }
  }

  function Pow10(k: nat): nat {
    if k == 0 then 1 else 10 * Pow10(k - 1)
  }
}
