/** Largest peak-to-trough loss of an equity curve, found in one pass (`_drawdown`). */
module Drawdown {
  import opened Metrics
  import opened Ordering
  import opened Reals
  import opened Sequences

  datatype EquityPoint = EquityPoint(observedAt: int, equity: real)

  function ObservedAt(p: EquityPoint): int { p.observedAt }

  function Equities(points: seq<EquityPoint>): seq<real> {
    seq(|points|, i requires 0 <= i < |points| => points[i].equity)
  }

  /** The equities in time order; points observed together keep their order. */
  function Curve(points: seq<EquityPoint>): (r: seq<real>)
  {
    Equities(SortBy(points, ObservedAt))
  }

  function ObservedAtTime(t: int): EquityPoint -> bool {
    (p: EquityPoint) => p.observedAt == t
  }

  /** The same points, earlier ones first, points of one instant in the order given. */
  ghost predicate PointsInOrder(points: seq<EquityPoint>, ordered: seq<EquityPoint>) {
    && |ordered| == |points| && multiset(ordered) == multiset(points)
    && (forall i, j | 0 <= i < j < |ordered| :: ordered[i].observedAt <= ordered[j].observedAt)
    && (forall t: int :: Select(ordered, ObservedAtTime(t)) == Select(points, ObservedAtTime(t)))
  }

  ghost predicate EquitiesOf(es: seq<real>, ordered: seq<EquityPoint>) {
    |es| == |ordered| && forall i | 0 <= i < |es| :: es[i] == ordered[i].equity
  }

  /** The equities of the points in time order. */
  ghost predicate CurveOf(points: seq<EquityPoint>, es: seq<real>) {
    exists ordered :: PointsInOrder(points, ordered) && EquitiesOf(es, ordered)
  }

  lemma SameMoment(s: seq<EquityPoint>, t: int)
    ensures Select(s, ObservedAtTime(t)) == Select(s, WithKey(ObservedAt, t))
  {
    SelectAgrees(s, ObservedAtTime(t), WithKey(ObservedAt, t));
  }

  lemma PointOrderExactly(points: seq<EquityPoint>, ordered: seq<EquityPoint>)
    ensures PointsInOrder(points, ordered) <==> ordered == SortBy(points, ObservedAt)
  {
    hide Select, SortBy;
    var sorted := SortBy(points, ObservedAt);
    SortBySpec(points, ObservedAt);
    forall t: int ensures Select(sorted, ObservedAtTime(t)) == Select(points, ObservedAtTime(t)) {
      SortByIsStable(points, ObservedAt, t);
      SameMoment(sorted, t);
      SameMoment(points, t);
    }
    if PointsInOrder(points, ordered) {
      forall t: int ensures Select(ordered, WithKey(ObservedAt, t)) == Select(sorted, WithKey(ObservedAt, t)) {
        SameMoment(ordered, t);
        SameMoment(sorted, t);
      }
      StableOrderIsUnique(ordered, sorted, ObservedAt);
    }
  }

  /** There is exactly one such curve. */
  lemma CurveExactly(points: seq<EquityPoint>, es: seq<real>)
    ensures CurveOf(points, es) <==> es == Curve(points)
    ensures |Curve(points)| == |points|
  {
    hide SortBy, PointsInOrder;
    SortBySpec(points, ObservedAt);
    PointOrderExactly(points, SortBy(points, ObservedAt));
    assert EquitiesOf(Curve(points), SortBy(points, ObservedAt));
    if CurveOf(points, es) {
      var ordered :| PointsInOrder(points, ordered) && EquitiesOf(es, ordered);
      PointOrderExactly(points, ordered);
      assert es == Curve(points);
    }
  }

  /** The highest equity up to and including position `j`. */
  function Peak(es: seq<real>, j: nat): (r: real)
    requires j < |es|
  {
    if j == 0 then es[0]
    else
      var before := Peak(es, j - 1);
      if es[j] > before then es[j] else before
  }

  lemma {:induction false} PeakIsHighest(es: seq<real>, j: nat) returns (at: nat)
    requires j < |es|
    ensures at <= j && es[at] == Peak(es, j)
    ensures forall i | 0 <= i <= j :: es[i] <= Peak(es, j)
  {
    if j == 0 {
      at := 0;
    } else {
      at := PeakIsHighest(es, j - 1);
      if es[j] > Peak(es, j - 1) { at := j; }
    }
  }

  function Drop(es: seq<real>, i: nat, j: nat): real
    requires i < |es| && j < |es|
  {
    es[i] - es[j]
  }

  /** `d` is the largest loss from any point to any later point. */
  ghost predicate LargestDrop(es: seq<real>, d: real) {
    && (forall i, j | 0 <= i <= j < |es| :: Drop(es, i, j) <= d)
    && (exists i, j :: 0 <= i <= j < |es| && Drop(es, i, j) == d)
  }

  function RelativeDrop(from: real, to: real): real
    requires from > 0.0
  {
    (from - to) / from
  }

  /** `m` is the largest loss at any point, as a share of the highest equity before it. */
  ghost predicate LargestDropFromPeak(es: seq<real>, m: real) {
    && (forall j | 0 <= j < |es| :: Peak(es, j) > 0.0 && RelativeDrop(Peak(es, j), es[j]) <= m)
    && (exists j :: 0 <= j < |es| && Peak(es, j) > 0.0 && RelativeDrop(Peak(es, j), es[j]) == m)
  }

  ghost predicate LargestSoFar(es: seq<real>, k: nat, d: real)
    requires k <= |es|
  {
    && (forall i, j | 0 <= i <= j < k :: Drop(es, i, j) <= d)
    && (d == 0.0 || exists i, j :: 0 <= i <= j < k && Drop(es, i, j) == d)
  }

  ghost predicate LargestShareSoFar(es: seq<real>, k: nat, m: real)
    requires k <= |es|
  {
    && (forall j | 0 <= j < k :: Peak(es, j) > 0.0 && RelativeDrop(Peak(es, j), es[j]) <= m)
    && (m == 0.0 || exists j :: 0 <= j < k && Peak(es, j) > 0.0 && RelativeDrop(Peak(es, j), es[j]) == m)
  }

  /** The two figures reported for a history of equity points. */
  ghost predicate Draws(points: seq<EquityPoint>, abs: Metric, pct: Metric) {
    if |points| < 2 then abs == pct == Unavailable(InsufficientEquityHistory)
    else exists es :: CurveOf(points, es) && DrawsCurve(es, abs, pct)
  }

  ghost predicate DrawsCurve(es: seq<real>, abs: Metric, pct: Metric) {
    && es != [] && abs.Available? && LargestDrop(es, abs.value)
    && if es[0] > 0.0
       then pct.Available? && LargestDropFromPeak(es, pct.value)
       else pct == Unavailable(NonPositiveEquityPeak)
  }

  method MaxDrawdown(points: seq<EquityPoint>) returns (abs: Metric, pct: Metric)
    ensures Draws(points, abs, pct)
  {
    hide LargestDrop, LargestDropFromPeak, CurveOf, Curve;
    if |points| < 2 {
      return Unavailable(InsufficientEquityHistory), Unavailable(InsufficientEquityHistory);
    }
    CurveExactly(points, Curve(points));
    var maxAbs, maxPct, available := OnePass(Curve(points));
    abs, pct := Available(maxAbs), if available then Available(maxPct) else Unavailable(NonPositiveEquityPeak);
    assert DrawsCurve(Curve(points), abs, pct);
  }

  /** The loop: a running peak, the largest drop below it, and the largest drop as a share of it. */
  method OnePass(es: seq<real>) returns (maxAbs: real, maxPct: real, available: bool)
    requires es != []
    ensures LargestDrop(es, maxAbs)
    ensures available <==> es[0] > 0.0
    ensures available ==> LargestDropFromPeak(es, maxPct)
  {
    hide LargestSoFar, LargestShareSoFar, LargestDrop, LargestDropFromPeak, RelativeDrop, Peak;
    StartsEmpty(es);
    PeakStep(es, 0);
    var peak := es[0];
    maxAbs, maxPct := 0.0, 0.0;
    available := peak > 0.0;
    for k := 0 to |es|
      invariant peak == Peak(es, if k == 0 then 0 else k - 1)
      invariant maxAbs >= 0.0 && LargestSoFar(es, k, maxAbs)
      invariant available <==> es[0] > 0.0
      invariant available ==> maxPct >= 0.0 && LargestShareSoFar(es, k, maxPct)
    {
      PeakStep(es, k);
      DropStep(es, k, maxAbs);
      if available { ShareStep(es, k, maxPct); }
      if es[k] > peak { peak := es[k]; }
      var drawdown := peak - es[k];
      if drawdown > maxAbs { maxAbs := drawdown; }
      if peak > 0.0 {
        var share := RelativeDrop(peak, es[k]);
        if share > maxPct { maxPct := share; }
      } else {
        available := false;
      }
    }
    Conclude(es, maxAbs, maxPct);
  }

  lemma PeakStep(es: seq<real>, k: nat)
    requires k < |es|
    ensures var before := Peak(es, if k == 0 then 0 else k - 1);
            Peak(es, k) == if es[k] > before then es[k] else before
    ensures Peak(es, 0) == es[0]
  {
  }

  lemma StartsEmpty(es: seq<real>)
    ensures LargestSoFar(es, 0, 0.0) && LargestShareSoFar(es, 0, 0.0)
  {
  }

  /** The running maxima over the whole curve are the largest drops: a drop of zero is attained at the start. */
  lemma Conclude(es: seq<real>, d: real, m: real)
    requires es != []
    ensures d >= 0.0 && LargestSoFar(es, |es|, d) ==> LargestDrop(es, d)
    ensures es[0] > 0.0 && LargestShareSoFar(es, |es|, m) ==> LargestDropFromPeak(es, m)
  {
    assert Drop(es, 0, 0) == 0.0;
    if es[0] > 0.0 { assert RelativeDrop(Peak(es, 0), es[0]) == 0.0; }
  }

  lemma ShareStep(es: seq<real>, k: nat, m: real)
    requires k < |es| && es[0] > 0.0 && m >= 0.0 && LargestShareSoFar(es, k, m)
    ensures Peak(es, k) > 0.0
    ensures var share := RelativeDrop(Peak(es, k), es[k]);
            LargestShareSoFar(es, k + 1, if share > m then share else m)
  {
    hide RelativeDrop;
    var at := PeakIsHighest(es, k);
  }

  /** Comparing with the running peak is comparing with every earlier point. */
  lemma DropStep(es: seq<real>, k: nat, d: real)
    requires k < |es| && d >= 0.0 && LargestSoFar(es, k, d)
    ensures var drop := Peak(es, k) - es[k];
            drop >= 0.0 && LargestSoFar(es, k + 1, if drop > d then drop else d)
  {
    var at := PeakIsHighest(es, k);
    var drop := Peak(es, k) - es[k];
    assert Drop(es, at, k) == drop;
    hide Peak;
    forall i, j | 0 <= i <= j < k + 1 ensures Drop(es, i, j) <= if drop > d then drop else d {
      if j == k { assert es[i] <= Peak(es, k); }
    }
  }

  // ---------------------------------------------------------------- the percentage as a ratio of pairs

  ghost predicate NonNegative(es: seq<real>) {
    forall i | 0 <= i < |es| :: es[i] >= 0.0
  }

  lemma RemainderShare(from: real, to: real)
    requires from > 0.0
    ensures (1.0 - RelativeDrop(from, to)) * from == to
  {
    Quotient(from - to, from);
  }

  lemma HigherStartDropsMore(low: real, high: real, to: real)
    requires 0.0 < low <= high && to >= 0.0
    ensures RelativeDrop(low, to) <= RelativeDrop(high, to) <= 1.0
  {
    hide RelativeDrop;
    var u, v := 1.0 - RelativeDrop(low, to), 1.0 - RelativeDrop(high, to);
    RemainderShare(low, to);
    RemainderShare(high, to);
    CancelFactor(0.0, v, high);
    CancelFactor(0.0, u, low);
    Scale(low, high, v);
    CancelFactor(v, u, low);
  }

  /** `m` is the largest relative loss from any positive point to any later one. */
  ghost predicate LargestPairwise(es: seq<real>, m: real) {
    && (forall i, j | 0 <= i <= j < |es| && es[i] > 0.0 :: RelativeDrop(es[i], es[j]) <= m)
    && (exists i, j :: 0 <= i <= j < |es| && es[i] > 0.0 && RelativeDrop(es[i], es[j]) == m)
  }

  /** Some point lost at least the share `share` of the highest equity before it. */
  ghost predicate MatchedFromPeak(es: seq<real>, share: real) {
    exists k :: 0 <= k < |es| && Peak(es, k) > 0.0 && share <= RelativeDrop(Peak(es, k), es[k])
  }

  /** Every fall below zero is matched, as a share of where it started, by a fall from some peak. */
  ghost predicate NegativesMatched(es: seq<real>) {
    forall i, j | 0 <= i <= j < |es| && es[i] > 0.0 && es[j] < 0.0 :: MatchedFromPeak(es, RelativeDrop(es[i], es[j]))
  }

  lemma PeakDropIsPairwise(es: seq<real>, m: real)
    requires LargestDropFromPeak(es, m)
    ensures exists i, j :: 0 <= i <= j < |es| && es[i] > 0.0 && RelativeDrop(es[i], es[j]) == m
  {
    hide RelativeDrop;
    var j :| 0 <= j < |es| && Peak(es, j) > 0.0 && RelativeDrop(Peak(es, j), es[j]) == m;
    var i := PeakIsHighest(es, j);
    assert RelativeDrop(es[i], es[j]) == m;
  }

  /** The percentage is the largest pairwise loss exactly when every fall below zero is matched from a peak. */
  lemma PercentageIsPairwiseExactly(es: seq<real>, m: real)
    requires LargestDropFromPeak(es, m)
    ensures LargestPairwise(es, m) <==> NegativesMatched(es)
  {
    hide RelativeDrop;
    PeakDropIsPairwise(es, m);
    if NegativesMatched(es) {
      forall i, j | 0 <= i <= j < |es| && es[i] > 0.0 ensures RelativeDrop(es[i], es[j]) <= m {
        if es[j] < 0.0 {
          var k :| 0 <= k < |es| && Peak(es, k) > 0.0 && RelativeDrop(es[i], es[j]) <= RelativeDrop(Peak(es, k), es[k]);
        } else {
          var at := PeakIsHighest(es, j);
          HigherStartDropsMore(es[i], Peak(es, j), es[j]);
        }
      }
    }
    if LargestPairwise(es, m) {
      var k :| 0 <= k < |es| && Peak(es, k) > 0.0 && RelativeDrop(Peak(es, k), es[k]) == m;
      forall i, j | 0 <= i <= j < |es| && es[i] > 0.0 && es[j] < 0.0
        ensures MatchedFromPeak(es, RelativeDrop(es[i], es[j]))
      {
        assert RelativeDrop(es[i], es[j]) <= m;
      }
    }
  }

  /** In particular for equities that never go negative, where the percentage lies in [0, 1]. */
  lemma PercentageIsLargestPairwise(es: seq<real>, m: real)
    requires es != [] && es[0] > 0.0 && NonNegative(es) && LargestDropFromPeak(es, m)
    ensures 0.0 <= m <= 1.0 && LargestPairwise(es, m)
  {
    assert RelativeDrop(Peak(es, 0), es[0]) == 0.0;
    hide RelativeDrop;
    PercentageIsPairwiseExactly(es, m);
    var i, j :| 0 <= i <= j < |es| && es[i] > 0.0 && RelativeDrop(es[i], es[j]) == m;
    HigherStartDropsMore(es[i], es[i], es[j]);
  }

  /** A curve on which it is not: the fall from 1 to -2 is a larger share than the fall from the peak 2. */
  lemma NegativeEquityBreaksPairwise()
    ensures var es := [1.0, 2.0, -2.0];
            LargestDropFromPeak(es, 2.0) && RelativeDrop(es[0], es[2]) > 2.0 && !LargestPairwise(es, 2.0)
  {
    var es := [1.0, 2.0, -2.0];
    assert Peak(es, 0) == 1.0;
    assert Peak(es, 1) == 2.0;
    assert Peak(es, 2) == 2.0;
    KnownDrops();
    hide Peak, RelativeDrop;
    forall j | 0 <= j < |es| ensures Peak(es, j) > 0.0 && RelativeDrop(Peak(es, j), es[j]) <= 2.0 {
      if j == 0 {
      } else if j == 1 {
      } else {
        assert j == 2;
      }
    }
  }

  lemma KnownDrops()
    ensures RelativeDrop(2.0, -2.0) == 2.0 && RelativeDrop(2.0, 2.0) == 0.0
    ensures RelativeDrop(1.0, 1.0) == 0.0 && RelativeDrop(1.0, -2.0) == 3.0
  {
  }
}
