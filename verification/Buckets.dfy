/** UTC bucket arithmetic: which fixed-length bucket an instant falls into. */
module Buckets {
  import opened Timeframes

  /** Whole seconds of a span that Timeframes.Interval produced. */
  predicate IsSpan(span: int) {
    span > 0 && span % TICKS_PER_SECOND == 0
  }

  /** `int(value.timestamp())`: truncation toward zero, so -0.5 s counts as second 0. */
  function EpochSeconds(t: int): int {
    if t >= 0 then t / TICKS_PER_SECOND else -((-t) / TICKS_PER_SECOND)
  }

  /** The number of the bucket: floor division, as Python's `//`. */
  function BucketIndex(t: int, span: int): int
    requires IsSpan(span)
  {
    EpochSeconds(t) / (span / TICKS_PER_SECOND)
  }

  function BucketStart(t: int, span: int): int
    requires IsSpan(span)
  {
    BucketIndex(t, span) * (span / TICKS_PER_SECOND) * TICKS_PER_SECOND
  }

  /** An instant that lies on a whole second. */
  predicate WholeSecond(t: int) {
    t % TICKS_PER_SECOND == 0
  }

  lemma DivBounds(a: int, b: int)
    requires b > 0
    ensures a / b * b <= a < a / b * b + b
  {
  }

  lemma MulMonotone(a: int, c: int, b: int)
    requires b >= 0 && a <= c
    ensures a * b <= c * b
  {
  }

  lemma FloorOrder(p: int, q: int, b: int, x: int)
    requires b > 0
    requires p * b <= x < q * b + b
    ensures p <= q
  {
    if p >= q + 1 { MulMonotone(q + 1, p, b); }
  }

  lemma DivUnique(a: int, b: int, q: int)
    requires b > 0
    requires q * b <= a < q * b + b
    ensures a / b == q
  {
    DivBounds(a, b);
    FloorOrder(q, a / b, b, a);
    FloorOrder(a / b, q, b, a);
  }

  lemma DivMonotone(a: int, c: int, b: int)
    requires b > 0 && a <= c
    ensures a / b <= c / b
  {
    DivBounds(a, b);
    DivBounds(c, b);
    FloorOrder(a / b, c / b, b, a);
  }

  /** A later instant is never put into an earlier bucket. */
  lemma BucketStartMonotone(t: int, u: int, span: int)
    requires IsSpan(span) && t <= u
    ensures BucketStart(t, span) <= BucketStart(u, span)
  {
    var secs := span / TICKS_PER_SECOND;
    assert EpochSeconds(t) <= EpochSeconds(u);
    DivMonotone(EpochSeconds(t), EpochSeconds(u), secs);
    MulMonotone(BucketIndex(t, span), BucketIndex(u, span), secs);
  }

  /** A bucket start is a multiple of the span. */
  lemma BucketStartIsMultiple(t: int, span: int)
    requires IsSpan(span)
    ensures BucketStart(t, span) == BucketIndex(t, span) * span
    ensures BucketStart(t, span) % span == 0
    ensures WholeSecond(BucketStart(t, span))
  {
    var secs, k := span / TICKS_PER_SECOND, BucketIndex(t, span);
    assert span == secs * TICKS_PER_SECOND;
    assert k * secs * TICKS_PER_SECOND == k * span;
    MultipleOf(k, span);
  }

  lemma MultipleOf(k: int, span: int)
    requires span > 0
    ensures (k * span) % span == 0
    ensures k * span / span == k
  {
    DivUnique(k * span, span, k);
    assert k * span == (k * span) / span * span + (k * span) % span;
  }

  /** On whole seconds the bucket is the half-open interval of length `span` around the instant. */
  lemma BucketContains(t: int, span: int)
    requires IsSpan(span) && WholeSecond(t)
    ensures BucketStart(t, span) <= t < BucketStart(t, span) + span
  {
    DivBounds(EpochSeconds(t), span / TICKS_PER_SECOND);
    assert t == EpochSeconds(t) * TICKS_PER_SECOND;
  }

  /** On whole seconds that interval identifies the bucket. */
  lemma BucketUnique(t: int, start: int, span: int)
    requires IsSpan(span) && WholeSecond(t)
    requires start % span == 0 && start <= t < start + span
    ensures BucketStart(t, span) == start
  {
    var k, j := BucketIndex(t, span), start / span;
    BucketContains(t, span);
    BucketStartIsMultiple(t, span);
    assert start == j * span;
    FloorOrder(k, j, span, t);
    FloorOrder(j, k, span, t);
  }

  /** The whole second of an instant is the nearest one between it and the epoch. */
  lemma EpochSecondsExactly(t: int)
    ensures var whole := EpochSeconds(t) * TICKS_PER_SECOND;
            && (t >= 0 ==> 0 <= whole <= t < whole + TICKS_PER_SECOND)
            && (t <= 0 ==> whole - TICKS_PER_SECOND < t <= whole <= 0)
            && WholeSecond(whole) && EpochSeconds(whole) == EpochSeconds(t)
  {
    if t >= 0 {
      DivBounds(t, TICKS_PER_SECOND);
      DivUnique(EpochSeconds(t) * TICKS_PER_SECOND, TICKS_PER_SECOND, EpochSeconds(t));
    } else {
      DivBounds(-t, TICKS_PER_SECOND);
      DivUnique(-t / TICKS_PER_SECOND * TICKS_PER_SECOND, TICKS_PER_SECOND, -t / TICKS_PER_SECOND);
    }
  }

  lemma BeforeNextMultiple(t: int, whole: int, start: int, span: int)
    requires WholeSecond(whole) && WholeSecond(start + span)
    requires whole < start + span && t < whole + TICKS_PER_SECOND
    ensures t < start + span
  {
    WholeSecondsApart(whole, start + span);
  }

  /**
   For any instant, fractions of a second included: the bucket contains it, except for the instants
   before 1970 less than a second before a multiple of the span, which truncation moves past it.
   */
  lemma BucketContainsExactly(t: int, span: int)
    requires IsSpan(span)
    ensures BucketStart(t, span) <= t < BucketStart(t, span) + span
            <==> !(t < 0 && 0 < -t % span < TICKS_PER_SECOND)
    ensures t < 0 && 0 < -t % span < TICKS_PER_SECOND ==> BucketStart(t, span) == t + -t % span
  {
    var whole, start, r := EpochSeconds(t) * TICKS_PER_SECOND, BucketStart(t, span), -t % span;
    EpochSecondsExactly(t);
    BucketContains(whole, span);
    BucketStartIsMultiple(t, span);
    assert BucketStart(whole, span) == start;
    hide EpochSeconds, BucketStart, BucketIndex;
    if t < 0 && 0 < r < TICKS_PER_SECOND {
      BeforeMultiple(t, whole, span);
    } else {
      if t < 0 { NotJustBefore(t, whole, start, span); }
      DividesSum(start, span, TICKS_PER_SECOND);
      BeforeNextMultiple(t, whole, start, span);
    }
    hide WholeSecond, IsSpan;
  }

  lemma NotJustBefore(t: int, whole: int, start: int, span: int)
    requires span > 0 && WholeSecond(whole) && WholeSecond(start) && start % span == 0 && start <= whole
    requires whole - TICKS_PER_SECOND < t <= whole && TICKS_PER_SECOND <= span
    requires !(0 < -t % span < TICKS_PER_SECOND)
    ensures start <= t
  {
    if start < whole {
      WholeSecondsApart(start, whole);
    } else if t < start {
      var q := start / span;
      assert start == q * span;
      RemainderOf(-t, -q, span);
      assert false;
    }
  }

  /** Less than a second before a multiple of the span, the next whole second is that multiple. */
  lemma BeforeMultiple(t: int, whole: int, span: int)
    requires IsSpan(span) && WholeSecond(whole) && whole - TICKS_PER_SECOND < t <= whole
    requires 0 < -t % span < TICKS_PER_SECOND
    ensures whole == t + -t % span && BucketStart(whole, span) == whole
  {
    var q := -t / span;
    assert t + -t % span == -q * span;
    MultipleOf(-q, span);
    DividesThrough(-q * span, span, TICKS_PER_SECOND);
    if whole < -q * span { WholeSecondsApart(whole, -q * span); }
    if whole > -q * span { WholeSecondsApart(-q * span, whole); }
    BucketUnique(whole, whole, span);
  }

  lemma WholeSecondsApart(a: int, b: int)
    requires WholeSecond(a) && WholeSecond(b) && a < b
    ensures a + TICKS_PER_SECOND <= b
  {
  }

  lemma RemainderOf(a: int, q: int, b: int)
    requires b > 0 && q * b <= a < q * b + b
    ensures a % b == a - q * b
  {
    DivUnique(a, b, q);
    assert a == a / b * b + a % b;
  }

  /** Divisibility is transitive and closed under adding multiples. */
  lemma DividesThrough(a: int, b: int, c: int)
    requires b > 0 && c > 0
    requires a % b == 0 && b % c == 0
    ensures a % c == 0
  {
    assert a == a / b * b && b == b / c * c;
    assert a == (a / b * (b / c)) * c;
    MultipleOf(a / b * (b / c), c);
  }

  lemma DividesSum(a: int, b: int, c: int)
    requires c > 0 && a % c == 0 && b % c == 0
    ensures (a + b) % c == 0
    ensures (a - b) % c == 0
  {
    assert a == a / c * c && b == b / c * c;
    assert a + b == (a / c + b / c) * c;
    assert a - b == (a / c - b / c) * c;
    MultipleOf(a / c + b / c, c);
    MultipleOf(a / c - b / c, c);
  }

  lemma DivisorIsSmaller(a: int, b: int)
    requires a > 0 && b > 0 && a % b == 0
    ensures b <= a
  {
    var q := a / b;
    assert a == q * b;
    if q <= 0 { MulMonotone(q, 0, b); }
    MulMonotone(1, q, b);
  }
}
