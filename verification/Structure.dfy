/**
 Market structure over a candle series (app/market/structure.py): strict swing pivots, the prior
 range, the breakout state and the per-timeframe summary.  Pivots are shown to be final once
 confirmed, and the whole summary to be symmetric under turning prices upside down.
 */
module Structure {
  import opened Wrappers
  import opened Sequences
  import opened Timeframes
  import opened Candles

  datatype Kind = High | Low

  datatype SwingPoint = SwingPoint(kind: Kind, price: real, closeTime: int)

  datatype Swing = BullishHhHl | BearishLhLl | MixedSwing | UnknownSwing

  datatype Breakout =
    | BreakoutUp | BreakoutDown
    | RetestUp | RetestDown
    | FalseBreakUp | FalseBreakDown
    | SweepBoth | StillInside | UnknownBreakout

  datatype Location = AboveRange | BelowRange | InsideRange | UnknownLocation

  datatype Range = Range(high: real, low: real)

  datatype TimeframeStructure = TimeframeStructure(
    timeframe: string,
    observedAt: int,
    candleCount: nat,
    close: real,
    priorRange: Option<Range>,
    location: Location,
    breakout: Breakout,
    swing: Swing,
    previousHigh: Option<SwingPoint>,
    latestHigh: Option<SwingPoint>,
    previousLow: Option<SwingPoint>,
    latestLow: Option<SwingPoint>,
    missing: set<string>)

  datatype StructureError = NoCandles | OpenCandle | Lookahead

  // ---------------------------------------------------------------- pivots

  function Price(c: Candle, kind: Kind): real {
    if kind == High then c.high else c.low
  }

  /** Prices oriented so that a pivot of either kind is a maximum. */
  function Level(c: Candle, kind: Kind): real {
    if kind == High then c.high else -c.low
  }

  /** Strictly beyond every other candle within `span` on both sides, all of which must exist. */
  predicate IsPivot(s: seq<Candle>, span: nat, kind: Kind, i: nat) {
    && span <= i < |s| - span
    && forall j | i - span <= j <= i + span && j != i :: Level(s[j], kind) < Level(s[i], kind)
  }

  function PointOf(c: Candle, kind: Kind): SwingPoint {
    SwingPoint(kind, Price(c, kind), c.closeTime)
  }

  /** The pivots among the first `n` positions, in order. */
  function PivotIndices(s: seq<Candle>, span: nat, kind: Kind, n: nat): (r: seq<nat>)
    requires n <= |s|
    ensures forall k | 0 <= k < |r| :: r[k] < n
  {
    if n == 0 then []
    else PivotIndices(s, span, kind, n - 1) + if IsPivot(s, span, kind, n - 1) then [n - 1] else []
  }

  function Points(s: seq<Candle>, indices: seq<nat>, kind: Kind): seq<SwingPoint>
    requires forall k | 0 <= k < |indices| :: indices[k] < |s|
  {
    seq(|indices|, k requires 0 <= k < |indices| => PointOf(s[indices[k]], kind))
  }

  function PivotsBelow(s: seq<Candle>, span: nat, kind: Kind, n: nat): seq<SwingPoint>
    requires n <= |s|
  {
    Points(s, PivotIndices(s, span, kind, n), kind)
  }

  function Pivots(s: seq<Candle>, span: nat, kind: Kind): seq<SwingPoint> {
    PivotsBelow(s, span, kind, |s|)
  }

  /** The listed positions are exactly the strict local extrema with a full window, in order. */
  lemma {:induction false} PivotsExactly(s: seq<Candle>, span: nat, kind: Kind, n: nat)
    requires n <= |s|
    ensures var r := PivotIndices(s, span, kind, n);
            && (forall i: nat :: i in r <==> i < n && IsPivot(s, span, kind, i))
            && (forall k, l | 0 <= k < l < |r| :: r[k] < r[l])
  {
    hide IsPivot;
    if n > 0 { PivotsExactly(s, span, kind, n - 1); }
  }

  lemma PivotBeats(s: seq<Candle>, span: nat, kind: Kind, i: nat, j: nat)
    requires IsPivot(s, span, kind, i) && i - span <= j <= i + span && j != i
    ensures i < |s| && j < |s| && Level(s[j], kind) < Level(s[i], kind)
  {
  }

  lemma NotBothPivots(s: seq<Candle>, span: nat, kind: Kind, i: nat, j: nat)
    requires IsPivot(s, span, kind, i) && IsPivot(s, span, kind, j) && i < j
    ensures j - i > span
  {
    hide IsPivot, Level;
    if j - i <= span {
      PivotBeats(s, span, kind, i, j);
      PivotBeats(s, span, kind, j, i);
    }
  }

  /** Two pivots of one kind are always more than `span` candles apart. */
  lemma PivotsAreSpaced(s: seq<Candle>, span: nat, kind: Kind, k: nat, l: nat)
    requires k < l < |PivotIndices(s, span, kind, |s|)|
    ensures PivotIndices(s, span, kind, |s|)[l] - PivotIndices(s, span, kind, |s|)[k] > span
  {
    var r := PivotIndices(s, span, kind, |s|);
    PivotsExactly(s, span, kind, |s|);
    assert r[k] in r && r[l] in r;
    NotBothPivots(s, span, kind, r[k], r[l]);
  }

  lemma PivotOfPrefix(s: seq<Candle>, m: nat, span: nat, kind: Kind, i: nat)
    requires m <= |s|
    ensures IsPivot(s[..m], span, kind, i) <==> IsPivot(s, span, kind, i) && i + span < m
  {
    if i + span < m {
      assert forall j | i - span <= j <= i + span :: 0 <= j ==> s[..m][j] == s[j];
    }
  }

  /** With `m` candles seen, the confirmed pivots are those of the whole series that `span` candles have followed. */
  lemma {:induction false} ConfirmedBelow(s: seq<Candle>, m: nat, span: nat, kind: Kind, n: nat)
    requires n <= m <= |s|
    ensures PivotIndices(s[..m], span, kind, n)
            == PivotIndices(s, span, kind, if n + span <= m then n else if span <= m then m - span else 0)
  {
    hide IsPivot;
    if n > 0 {
      ConfirmedBelow(s, m, span, kind, n - 1);
      PivotOfPrefix(s, m, span, kind, n - 1);
    }
  }

  lemma {:induction false} IndicesExtend(s: seq<Candle>, span: nat, kind: Kind, n: nat, m: nat)
    requires n <= m <= |s|
    ensures PivotIndices(s, span, kind, n) <= PivotIndices(s, span, kind, m)
  {
    if n < m { IndicesExtend(s, span, kind, n, m - 1); }
  }

  lemma PointsOfPrefix(s: seq<Candle>, early: seq<nat>, all: seq<nat>, m: nat, kind: Kind)
    requires m <= |s| && early <= all
    requires forall k | 0 <= k < |early| :: early[k] < m
    requires forall k | 0 <= k < |all| :: all[k] < |s|
    ensures Points(s[..m], early, kind) == Points(s, early, kind) <= Points(s, all, kind)
  {
    assert forall k | 0 <= k < |early| :: early[k] == all[k];
  }

  /** Pivots never repaint: what any prefix confirms, the full series begins with. */
  lemma PivotsNeverRepaint(s: seq<Candle>, m: nat, span: nat, kind: Kind)
    requires m <= |s|
    ensures Pivots(s[..m], span, kind) <= Pivots(s, span, kind)
    ensures Pivots(s[..m], span, kind) == PivotsBelow(s, span, kind, if span <= m then m - span else 0)
  {
    var n := if span <= m then m - span else 0;
    ConfirmedBelow(s, m, span, kind, m);
    IndicesExtend(s, span, kind, n, |s|);
    hide PivotIndices, Points;
    PointsOfPrefix(s, PivotIndices(s, span, kind, n), PivotIndices(s, span, kind, |s|), m, kind);
  }

  lemma {:induction false} NoneBeyond(s: seq<Candle>, span: nat, kind: Kind, n: nat, m: nat)
    requires n <= m <= |s| && |s| <= n + span
    ensures PivotIndices(s, span, kind, m) == PivotIndices(s, span, kind, n)
  {
    if n < m { NoneBeyond(s, span, kind, n, m - 1); }
  }

  lemma {:induction false} NoneBefore(s: seq<Candle>, span: nat, kind: Kind, n: nat)
    requires n <= |s| && (n <= span || |s| <= 2 * span)
    ensures PivotIndices(s, span, kind, n) == []
  {
    if n > 0 { NoneBefore(s, span, kind, n - 1); }
  }

  /** The neighbours of position `i`: its window without the center. */
  function Neighbours(s: seq<Candle>, span: nat, i: nat): seq<Candle>
    requires span <= i < |s| - span
  {
    var window := s[i - span..i + span + 1];
    window[..span] + window[span + 1..]
  }

  lemma NeighbourAt(s: seq<Candle>, span: nat, i: nat, k: nat)
    requires span <= i < |s| - span && k < 2 * span
    ensures k < |Neighbours(s, span, i)|
    ensures Neighbours(s, span, i)[k] == s[if k < span then i - span + k else i - span + k + 1]
  {
    var window := s[i - span..i + span + 1];
    if k < span {
      assert window[..span][k] == window[k] == s[i - span + k];
    } else {
      assert window[span + 1..][k - span] == window[k + 1] == s[i - span + k + 1];
    }
  }

  /** Every position of the window but the center is that of a neighbour, and the other way round. */
  lemma BeatsNeighbours(s: seq<Candle>, span: nat, kind: Kind, i: nat)
    requires 1 <= span <= i < |s| - span
    ensures IsPivot(s, span, kind, i)
            <==> forall k | 0 <= k < 2 * span :: Level(Neighbours(s, span, i)[k], kind) < Level(s[i], kind)
  {
    var others := Neighbours(s, span, i);
    forall k | 0 <= k < 2 * span
      ensures others[k] == s[if k < span then i - span + k else i - span + k + 1]
    {
      NeighbourAt(s, span, i, k);
    }
    hide Neighbours, Level;
    if forall k | 0 <= k < 2 * span :: Level(others[k], kind) < Level(s[i], kind) {
      forall j | i - span <= j <= i + span && j != i ensures Level(s[j], kind) < Level(s[i], kind) {
        assert s[j] == others[if j < i then j - (i - span) else j - (i - span) - 1];
      }
    }
  }

  /** The comparison made in the loop decides whether the center is a pivot. */
  lemma CenterDecides(s: seq<Candle>, span: nat, i: nat)
    requires 1 <= span <= i < |s| - span
    ensures var others := Neighbours(s, span, i);
            && others != []
            && (s[i].high > MaxHigh(others) <==> IsPivot(s, span, High, i))
            && (s[i].low < MinLow(others) <==> IsPivot(s, span, Low, i))
  {
    var others := Neighbours(s, span, i);
    assert |others| == 2 * span;
    MaxHighBounds(others);
    MinLowBounds(others);
    BeatsNeighbours(s, span, High, i);
    BeatsNeighbours(s, span, Low, i);
    hide IsPivot, Neighbours, MaxHigh, MinLow;
  }

  lemma NextPoint(s: seq<Candle>, span: nat, kind: Kind, n: nat)
    requires n < |s|
    ensures PivotsBelow(s, span, kind, n + 1)
            == PivotsBelow(s, span, kind, n) + if IsPivot(s, span, kind, n) then [PointOf(s[n], kind)] else []
  {
  }

  /** `_strict_pivots`. */
  method StrictPivots(candles: seq<Candle>, span: nat) returns (highs: seq<SwingPoint>, lows: seq<SwingPoint>)
    requires span >= 1
    ensures highs == Pivots(candles, span, High) && lows == Pivots(candles, span, Low)
  {
    hide IsPivot, PivotIndices, PivotsBelow;
    highs, lows := [], [];
    NothingBelow(candles, span, High);
    NothingBelow(candles, span, Low);
    if |candles| < span * 2 + 1 { return; }
    for index := span to |candles| - span
      invariant highs == PivotsBelow(candles, span, High, index)
      invariant lows == PivotsBelow(candles, span, Low, index)
    {
      var center := candles[index];
      var window := candles[index - span..index + span + 1];
      var others := window[..span] + window[span + 1..];
      CenterDecides(candles, span, index);
      assert others == Neighbours(candles, span, index);
      NextPoint(candles, span, High, index);
      NextPoint(candles, span, Low, index);
      if center.high > MaxHigh(others) {
        highs := highs + [SwingPoint(High, center.high, center.closeTime)];
      }
      if center.low < MinLow(others) {
        lows := lows + [SwingPoint(Low, center.low, center.closeTime)];
      }
    }
    NothingAbove(candles, span, High);
    NothingAbove(candles, span, Low);
  }

  lemma NothingBelow(s: seq<Candle>, span: nat, kind: Kind)
    ensures span <= |s| ==> PivotsBelow(s, span, kind, span) == []
    ensures |s| <= 2 * span ==> Pivots(s, span, kind) == []
  {
    if span <= |s| { NoneBefore(s, span, kind, span); }
    if |s| <= 2 * span { NoneBefore(s, span, kind, |s|); }
  }

  lemma NothingAbove(s: seq<Candle>, span: nat, kind: Kind)
    requires span <= |s|
    ensures Pivots(s, span, kind) == PivotsBelow(s, span, kind, |s| - span)
  {
    NoneBeyond(s, span, kind, |s| - span, |s|);
  }

  // ---------------------------------------------------------------- the summary

  function SwingOf(highs: seq<SwingPoint>, lows: seq<SwingPoint>): Swing {
    if |highs| < 2 || |lows| < 2 then UnknownSwing
    else
      var h, h', l, l' := highs[|highs| - 2].price, Last(highs).price, lows[|lows| - 2].price, Last(lows).price;
      if h' > h && l' > l then BullishHhHl
      else if h' < h && l' < l then BearishLhLl
      else MixedSwing
  }

  /** `_prior_range`: the extremes of `lookback` candles, leaving out the last `exclude`. */
  function PriorRange(s: seq<Candle>, lookback: nat, exclude: nat): Option<Range>
    requires lookback >= 1
  {
    if |s| < lookback + exclude then None
    else
      var stop := |s| - exclude;
      var window := s[stop - lookback..stop];
      Some(Range(MaxHigh(window), MinLow(window)))
  }

  function LocationOf(close: real, range: Option<Range>): Location {
    if range.None? then UnknownLocation
    else if close > range.value.high then AboveRange
    else if close < range.value.low then BelowRange
    else InsideRange
  }

  function BreakoutOf(s: seq<Candle>, lookback: nat, prior: Option<Range>): Breakout
    requires s != [] && lookback >= 1
  {
    if prior.None? then UnknownBreakout
    else
      var current := Last(s);
      var sweptHigh := current.high > prior.value.high && current.close <= prior.value.high;
      var sweptLow := current.low < prior.value.low && current.close >= prior.value.low;
      if sweptHigh && sweptLow then SweepBoth
      else if sweptHigh then FalseBreakUp
      else if sweptLow then FalseBreakDown
      else
        var ref := PriorRange(s, lookback, 2);
        if |s| >= 2 && ref.Some? && s[|s| - 2].close > ref.value.high
           && current.low <= ref.value.high && current.close > ref.value.high then RetestUp
        else if |s| >= 2 && ref.Some? && s[|s| - 2].close < ref.value.low
                && current.high >= ref.value.low && current.close < ref.value.low then RetestDown
        else if current.close > prior.value.high then BreakoutUp
        else if current.close < prior.value.low then BreakoutDown
        else StillInside
  }

  function Missing(prior: Option<Range>, highs: seq<SwingPoint>, lows: seq<SwingPoint>): set<string> {
    (if prior.None? then {"prior_range"} else {})
    + (if |highs| < 2 then {"swing_highs"} else {})
    + (if |lows| < 2 then {"swing_lows"} else {})
  }

  function FromEnd(points: seq<SwingPoint>, k: nat): Option<SwingPoint> {
    if |points| > k then Some(points[|points| - 1 - k]) else None
  }

  function StructureOf(s: seq<Candle>, observedAt: int, lookback: nat, highs: seq<SwingPoint>, lows: seq<SwingPoint>)
    : TimeframeStructure
    requires s != [] && lookback >= 1
  {
    var prior := PriorRange(s, lookback, 1);
    TimeframeStructure(
      Normalize(Last(s).timeframe), observedAt, |s|, Last(s).close, prior,
      LocationOf(Last(s).close, prior), BreakoutOf(s, lookback, prior), SwingOf(highs, lows),
      FromEnd(highs, 1), FromEnd(highs, 0), FromEnd(lows, 1), FromEnd(lows, 0), Missing(prior, highs, lows))
  }

  function SummaryOf(s: seq<Candle>, observedAt: int, lookback: nat, span: nat): Result<TimeframeStructure, StructureError>
    requires lookback >= 1
  {
    if s == [] then Err(NoCandles)
    else if exists i | 0 <= i < |s| :: !s[i].isClosed then Err(OpenCandle)
    else if exists i | 0 <= i < |s| :: s[i].closeTime > observedAt then Err(Lookahead)
    else Ok(StructureOf(s, observedAt, lookback, Pivots(s, span, High), Pivots(s, span, Low)))
  }

  // ---------------------------------------------------------------- what the summary means, candle by candle

  /** Candle `i` has a strictly higher high than each of the `span` candles before it and after it. */
  predicate TopsNeighbours(s: seq<Candle>, span: nat, i: nat) {
    span <= i && i + span < |s| && forall j | i - span <= j <= i + span && j != i :: s[j].high < s[i].high
  }

  /** Candle `i` has a strictly lower low than each of them. */
  predicate UndercutsNeighbours(s: seq<Candle>, span: nat, i: nat) {
    span <= i && i + span < |s| && forall j | i - span <= j <= i + span && j != i :: s[j].low > s[i].low
  }

  lemma PivotIsExtreme(s: seq<Candle>, span: nat, i: nat)
    ensures IsPivot(s, span, High, i) <==> TopsNeighbours(s, span, i)
    ensures IsPivot(s, span, Low, i) <==> UndercutsNeighbours(s, span, i)
  {
  }

  /** `previous` and `latest` are the last two high pivots, as far as there are two. */
  ghost predicate LastTwoHighs(s: seq<Candle>, span: nat, previous: Option<SwingPoint>, latest: Option<SwingPoint>) {
    if latest.None? then previous.None? && forall i: nat :: !TopsNeighbours(s, span, i)
    else
      exists j | 0 <= j < |s| ::
        && TopsNeighbours(s, span, j) && (forall k: nat | k > j :: !TopsNeighbours(s, span, k))
        && latest == Some(SwingPoint(High, s[j].high, s[j].closeTime))
        && if previous.None? then forall i: nat | i < j :: !TopsNeighbours(s, span, i)
           else exists i | 0 <= i < j ::
             && TopsNeighbours(s, span, i) && (forall k: nat | i < k < j :: !TopsNeighbours(s, span, k))
             && previous == Some(SwingPoint(High, s[i].high, s[i].closeTime))
  }

  /** The same for low pivots. */
  ghost predicate LastTwoLows(s: seq<Candle>, span: nat, previous: Option<SwingPoint>, latest: Option<SwingPoint>) {
    if latest.None? then previous.None? && forall i: nat :: !UndercutsNeighbours(s, span, i)
    else
      exists j | 0 <= j < |s| ::
        && UndercutsNeighbours(s, span, j) && (forall k: nat | k > j :: !UndercutsNeighbours(s, span, k))
        && latest == Some(SwingPoint(Low, s[j].low, s[j].closeTime))
        && if previous.None? then forall i: nat | i < j :: !UndercutsNeighbours(s, span, i)
           else exists i | 0 <= i < j ::
             && UndercutsNeighbours(s, span, i) && (forall k: nat | i < k < j :: !UndercutsNeighbours(s, span, k))
             && previous == Some(SwingPoint(Low, s[i].low, s[i].closeTime))
  }

  /** The last pivot listed is the last one there is, and the one listed before it comes right before it. */
  lemma LastIndices(s: seq<Candle>, span: nat, kind: Kind)
    ensures var r := PivotIndices(s, span, kind, |s|);
            && (forall i: nat :: i in r <==> IsPivot(s, span, kind, i))
            && (r != [] ==> forall k: nat | k > Last(r) :: !IsPivot(s, span, kind, k))
            && (|r| == 1 ==> forall k: nat | k < r[0] :: !IsPivot(s, span, kind, k))
            && (|r| > 1 ==>
                  && r[|r| - 2] < Last(r)
                  && forall k: nat | r[|r| - 2] < k < Last(r) :: !IsPivot(s, span, kind, k))
  {
    var r := PivotIndices(s, span, kind, |s|);
    PivotsExactly(s, span, kind, |s|);
    forall i: nat ensures i in r <==> IsPivot(s, span, kind, i) {
      if IsPivot(s, span, kind, i) { assert i < |s|; }
    }
    hide IsPivot, PivotIndices;
  }

  /** The two predicates above, for either kind. */
  ghost predicate LastTwo(
    s: seq<Candle>, span: nat, kind: Kind, previous: Option<SwingPoint>, latest: Option<SwingPoint>)
  {
    if latest.None? then previous.None? && forall i: nat :: !IsPivot(s, span, kind, i)
    else exists j | 0 <= j < |s| :: LatestAt(s, span, kind, j, previous, latest)
  }

  ghost predicate LatestAt(
    s: seq<Candle>, span: nat, kind: Kind, j: nat, previous: Option<SwingPoint>, latest: Option<SwingPoint>)
    requires j < |s|
  {
    && IsPivot(s, span, kind, j) && (forall k: nat | k > j :: !IsPivot(s, span, kind, k))
    && latest == Some(PointOf(s[j], kind))
    && if previous.None? then forall i: nat | i < j :: !IsPivot(s, span, kind, i)
       else exists i | 0 <= i < j ::
         && IsPivot(s, span, kind, i) && (forall k: nat | i < k < j :: !IsPivot(s, span, kind, k))
         && previous == Some(PointOf(s[i], kind))
  }

  lemma PointsNamed(s: seq<Candle>, span: nat, kind: Kind)
    ensures var points := Pivots(s, span, kind); LastTwo(s, span, kind, FromEnd(points, 1), FromEnd(points, 0))
  {
    hide IsPivot, PivotIndices, PointOf;
    var r, points := PivotIndices(s, span, kind, |s|), Pivots(s, span, kind);
    LastIndices(s, span, kind);
    if r == [] {
      forall i: nat ensures !IsPivot(s, span, kind, i) {
        assert i !in r;
      }
    } else {
      assert Last(r) in r;
      if |r| > 1 {
        var i := r[|r| - 2];
        assert i in r && FromEnd(points, 1) == Some(PointOf(s[i], kind));
      }
      assert LatestAt(s, span, kind, Last(r), FromEnd(points, 1), FromEnd(points, 0));
    }
  }

  lemma HighsNamed(s: seq<Candle>, span: nat)
    ensures var highs := Pivots(s, span, High); LastTwoHighs(s, span, FromEnd(highs, 1), FromEnd(highs, 0))
  {
    forall i: nat ensures IsPivot(s, span, High, i) <==> TopsNeighbours(s, span, i) {
      PivotIsExtreme(s, span, i);
    }
    hide IsPivot, TopsNeighbours, Pivots, FromEnd;
    PointsNamed(s, span, High);
  }

  lemma LowsNamed(s: seq<Candle>, span: nat)
    ensures var lows := Pivots(s, span, Low); LastTwoLows(s, span, FromEnd(lows, 1), FromEnd(lows, 0))
  {
    forall i: nat ensures IsPivot(s, span, Low, i) <==> UndercutsNeighbours(s, span, i) {
      PivotIsExtreme(s, span, i);
    }
    hide IsPivot, UndercutsNeighbours, Pivots, FromEnd;
    PointsNamed(s, span, Low);
  }

  /** `range` holds the extremes of the candles from `start` up to `stop`. */
  ghost predicate Extremes(s: seq<Candle>, start: nat, stop: nat, range: Range)
    requires start < stop <= |s|
  {
    && (forall i | start <= i < stop :: range.low <= s[i].low && s[i].high <= range.high)
    && (exists i | start <= i < stop :: s[i].high == range.high)
    && (exists i | start <= i < stop :: s[i].low == range.low)
  }

  /** The prior range covers exactly the `lookback` candles before the last `exclude`, if there are that many. */
  lemma PriorRangeExactly(s: seq<Candle>, lookback: nat, exclude: nat)
    requires lookback >= 1
    ensures var prior := PriorRange(s, lookback, exclude);
            && (prior.Some? <==> |s| >= lookback + exclude)
            && (prior.Some? ==> Extremes(s, |s| - exclude - lookback, |s| - exclude, prior.value))
  {
    if |s| >= lookback + exclude {
      var start := |s| - exclude - lookback;
      var window := s[start..|s| - exclude];
      MaxHighBounds(window);
      MinLowBounds(window);
      var i :| 0 <= i < |window| && window[i].high == MaxHigh(window);
      var j :| 0 <= j < |window| && window[j].low == MinLow(window);
      assert s[start + i].high == MaxHigh(window) && s[start + j].low == MinLow(window);
      forall k | start <= k < |s| - exclude ensures MinLow(window) <= s[k].low && s[k].high <= MaxHigh(window) {
        assert s[k] == window[k - start];
      }
    }
  }

  /** The swing reported follows from the points reported. */
  predicate SwingFits(t: TimeframeStructure) {
    var complete := t.previousHigh.Some? && t.latestHigh.Some? && t.previousLow.Some? && t.latestLow.Some?;
    && (t.swing == UnknownSwing <==> !complete)
    && (t.swing == BullishHhHl <==>
          && complete && t.latestHigh.value.price > t.previousHigh.value.price
          && t.latestLow.value.price > t.previousLow.value.price)
    && (t.swing == BearishLhLl <==>
          && complete && t.latestHigh.value.price < t.previousHigh.value.price
          && t.latestLow.value.price < t.previousLow.value.price)
  }

  /** So does the location, from the close and the range reported. */
  predicate LocationFits(t: TimeframeStructure) {
    && (t.location == UnknownLocation <==> t.priorRange.None?)
    && (t.location == AboveRange <==> t.priorRange.Some? && t.close > t.priorRange.value.high)
    && (t.location == BelowRange <==>
          t.priorRange.Some? && t.close < t.priorRange.value.low && t.close <= t.priorRange.value.high)
  }

  predicate NamesMissing(t: TimeframeStructure) {
    && t.missing <= {"prior_range", "swing_highs", "swing_lows"}
    && ("prior_range" in t.missing <==> t.priorRange.None?)
    && ("swing_highs" in t.missing <==> t.previousHigh.None?)
    && ("swing_lows" in t.missing <==> t.previousLow.None?)
  }

  /** What each field of a summary says about the candles. */
  ghost predicate Summarised(s: seq<Candle>, observedAt: int, lookback: nat, span: nat, t: TimeframeStructure)
    requires s != [] && lookback >= 1
  {
    var last := s[|s| - 1];
    && t.timeframe == Normalize(last.timeframe) && t.observedAt == observedAt
    && t.candleCount == |s| && t.close == last.close
    && (t.priorRange.Some? <==> |s| > lookback)
    && (t.priorRange.Some? ==> Extremes(s, |s| - 1 - lookback, |s| - 1, t.priorRange.value))
    && LocationFits(t) && t.breakout == BreakoutOf(s, lookback, t.priorRange)
    && LastTwoHighs(s, span, t.previousHigh, t.latestHigh) && LastTwoLows(s, span, t.previousLow, t.latestLow)
    && SwingFits(t) && NamesMissing(t)
  }

  lemma FieldsFit(s: seq<Candle>, observedAt: int, lookback: nat, highs: seq<SwingPoint>, lows: seq<SwingPoint>)
    requires s != [] && lookback >= 1
    ensures var t := StructureOf(s, observedAt, lookback, highs, lows);
            SwingFits(t) && LocationFits(t) && NamesMissing(t)
  {
    hide PriorRange, BreakoutOf, Normalize;
  }

  lemma SummaryMeans(s: seq<Candle>, observedAt: int, lookback: nat, span: nat)
    requires s != [] && lookback >= 1
    ensures Summarised(s, observedAt, lookback, span,
              StructureOf(s, observedAt, lookback, Pivots(s, span, High), Pivots(s, span, Low)))
  {
    FieldsFit(s, observedAt, lookback, Pivots(s, span, High), Pivots(s, span, Low));
    HighsNamed(s, span);
    LowsNamed(s, span);
    PriorRangeExactly(s, lookback, 1);
    hide PriorRange, BreakoutOf, Normalize, Pivots, LastTwoHighs, LastTwoLows, SwingFits, LocationFits, NamesMissing,
      Extremes, FromEnd, SwingOf, LocationOf, Missing;
  }

  /** `_summary`. */
  method Summary(candles: seq<Candle>, observedAt: int, lookback: nat, span: nat)
    returns (r: Result<TimeframeStructure, StructureError>)
    requires lookback >= 1 && span >= 1
    ensures r == SummaryOf(candles, observedAt, lookback, span)
    ensures r == Err(NoCandles) <==> candles == []
    ensures r == Err(OpenCandle) <==> exists c | c in candles :: !c.isClosed
    ensures r == Err(Lookahead) <==>
              (exists c | c in candles :: c.closeTime > observedAt) && forall c | c in candles :: c.isClosed
    ensures r.Ok? ==> candles != [] && Summarised(candles, observedAt, lookback, span, r.value)
  {
    hide Summarised, StructureOf;
    if candles != [] { SummaryMeans(candles, observedAt, lookback, span); }
    if candles == [] { return Err(NoCandles); }
    if exists i | 0 <= i < |candles| :: !candles[i].isClosed { return Err(OpenCandle); }
    if exists i | 0 <= i < |candles| :: candles[i].closeTime > observedAt { return Err(Lookahead); }
    var highs, lows := StrictPivots(candles, span);
    return Ok(StructureOf(candles, observedAt, lookback, highs, lows));
  }
}
