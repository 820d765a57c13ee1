/** Decimal numerals: writing a number down and reading one back. */
module Numerals {
  import opened Sequences

  function Digit(d: nat): char
    requires d < 10
  {
    ('0' as int + d) as char
  }

  /** `str(n)`. */
  function Numeral(n: nat): (r: string)
    ensures r != [] && forall i | 0 <= i < |r| :: '0' <= r[i] <= '9'
  {
    if n < 10 then [Digit(n)] else Numeral(n / 10) + [Digit(n % 10)]
  }

  predicate IsDigit(c: char) { '0' <= c <= '9' }

  predicate AllDigits(s: string) { forall c | c in s :: IsDigit(c) }

  /** `int(digits)`. */
  function NumberOf(digits: string): (n: nat)
    requires AllDigits(digits)
    ensures digits != [] && digits[0] != '0' ==> n > 0
  {
    if digits == [] then 0
    else
      var rest := digits[..|digits| - 1];
      assert forall c | c in rest :: c in digits;
      assert digits[|digits| - 1] in digits;
      10 * NumberOf(rest) + (digits[|digits| - 1] as int - '0' as int)
  }

  /** Digits without a leading zero, the text of a positive count. */
  predicate IsCount(k: string) {
    k != [] && AllDigits(k) && k[0] != '0'
  }

  /** Reading a written number gives the number back, and a positive one is written without a leading zero. */
  lemma {:induction false} NumberOfNumeral(n: nat)
    ensures AllDigits(Numeral(n)) && NumberOf(Numeral(n)) == n
    ensures n > 0 ==> IsCount(Numeral(n))
  {
    if n >= 10 {
      NumberOfNumeral(n / 10);
      assert Init(Numeral(n)) == Numeral(n / 10);
    }
  }

  lemma TensAndOnes(tens: nat, ones: nat)
    requires ones < 10
    ensures (10 * tens + ones) / 10 == tens && (10 * tens + ones) % 10 == ones
  {
  }

  lemma LastDigit(k: string)
    requires IsCount(k)
    ensures AllDigits(Init(k)) && IsDigit(Last(k)) && (|k| > 1 ==> IsCount(Init(k)))
    ensures NumberOf(k) == 10 * NumberOf(Init(k)) + (Last(k) as int - '0' as int)
  {
    assert Last(k) in k;
    assert forall c | c in Init(k) :: c in k;
  }

  /** Writing a number that was read gives its digits back. */
  lemma {:induction false} NumeralOfNumber(k: string)
    requires IsCount(k)
    ensures Numeral(NumberOf(k)) == k
  {
    var ones := Last(k) as int - '0' as int;
    LastDigit(k);
    assert k == Init(k) + [Last(k)];
    if |k| > 1 {
      NumeralOfNumber(Init(k));
      TensAndOnes(NumberOf(Init(k)), ones);
      hide NumberOf;
    } else {
      assert Init(k) == [];
    }
  }

  /** So different numbers are written differently. */
  lemma NumeralInjective(m: nat, n: nat)
    requires Numeral(m) == Numeral(n)
    ensures m == n
  {
    NumberOfNumeral(m);
    NumberOfNumeral(n);
  }
}
