/** Facts about products and quotients of reals, each small enough for the solver. */
module Reals {
  function Abs(x: real): real { if x < 0.0 then -x else x }

  function Max(a: real, b: real): real { if a >= b then a else b }

  function Min(a: real, b: real): real { if a <= b then a else b }

  lemma Quotient(a: real, b: real)
    requires b != 0.0
    ensures a / b * b == a
  {
  }

  lemma Positive(a: real, b: real)
    requires a > 0.0 && b > 0.0
    ensures a / b > 0.0
  {
  }

  lemma StrictScale(a: real, b: real)
    requires a > 0.0 && b > 0.0
    ensures a * b > 0.0
  {
  }

  lemma Scale(a: real, b: real, k: real)
    requires a <= b && k >= 0.0
    ensures a * k <= b * k
  {
  }

  lemma CancelFactor(x: real, y: real, size: real)
    requires size > 0.0 && x * size <= y * size
    ensures x <= y
  {
    if x > y { StrictScale(x - y, size); }
  }

  lemma QuotientBetween(lo: real, hi: real, total: real, size: real)
    requires size > 0.0 && lo * size <= total <= hi * size
    ensures lo <= total / size <= hi
  {
    Quotient(total, size);
    CancelFactor(lo, total / size, size);
    CancelFactor(total / size, hi, size);
  }
}
