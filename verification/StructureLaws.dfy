/** Laws of the structure summary: up/down symmetry, and how the breakout state fits the location. */
module StructureLaws {
  import opened Wrappers
  import opened Sequences
  import opened Timeframes
  import opened Candles
  import opened Structure

  // ---------------------------------------------------------------- prices turned upside down

  /** Every price p becomes `k - p`, so highs and lows trade places. */
  function MirrorCandle(c: Candle, k: real): Candle {
    c.(open := k - c.open, high := k - c.low, low := k - c.high, close := k - c.close)
  }

  function Mirror(s: seq<Candle>, k: real): seq<Candle> {
    seq(|s|, i requires 0 <= i < |s| => MirrorCandle(s[i], k))
  }

  function FlipKind(kind: Kind): Kind { if kind == High then Low else High }

  function MirrorPoint(p: SwingPoint, k: real): SwingPoint {
    SwingPoint(FlipKind(p.kind), k - p.price, p.closeTime)
  }

  function MirrorPoints(points: seq<SwingPoint>, k: real): seq<SwingPoint> {
    seq(|points|, i requires 0 <= i < |points| => MirrorPoint(points[i], k))
  }

  function MirrorOptional(p: Option<SwingPoint>, k: real): Option<SwingPoint> {
    if p.None? then None else Some(MirrorPoint(p.value, k))
  }

  function MirrorRange(r: Option<Range>, k: real): Option<Range> {
    if r.None? then None else Some(Range(k - r.value.low, k - r.value.high))
  }

  function FlipSwing(swing: Swing): Swing {
    match swing
    case BullishHhHl => BearishLhLl
    case BearishLhLl => BullishHhHl
    case _ => swing
  }

  function FlipLocation(location: Location): Location {
    match location
    case AboveRange => BelowRange
    case BelowRange => AboveRange
    case _ => location
  }

  function FlipBreakout(breakout: Breakout): Breakout {
    match breakout
    case BreakoutUp => BreakoutDown
    case BreakoutDown => BreakoutUp
    case RetestUp => RetestDown
    case RetestDown => RetestUp
    case FalseBreakUp => FalseBreakDown
    case FalseBreakDown => FalseBreakUp
    case _ => breakout
  }

  function FlipMissing(missing: set<string>): set<string> {
    missing - {"swing_highs", "swing_lows"}
    + (if "swing_highs" in missing then {"swing_lows"} else {})
    + (if "swing_lows" in missing then {"swing_highs"} else {})
  }

  function MirrorStructure(t: TimeframeStructure, k: real): TimeframeStructure {
    t.(close := k - t.close, priorRange := MirrorRange(t.priorRange, k),
       location := FlipLocation(t.location), breakout := FlipBreakout(t.breakout), swing := FlipSwing(t.swing),
       previousHigh := MirrorOptional(t.previousLow, k), latestHigh := MirrorOptional(t.latestLow, k),
       previousLow := MirrorOptional(t.previousHigh, k), latestLow := MirrorOptional(t.latestHigh, k),
       missing := FlipMissing(t.missing))
  }

  /** The mirror image of a candle is a candle whenever all its prices stay positive. */
  lemma MirrorIsCandle(c: Candle, k: real)
    requires WellFormed(c)
    ensures WellFormed(MirrorCandle(c, k)) <==> c.high < k
    ensures MirrorCandle(MirrorCandle(c, k), k) == c
  {
  }

  predicate HighsAboveLows(s: seq<Candle>) {
    forall i | 0 <= i < |s| :: s[i].low <= s[i].high
  }

  // ---------------------------------------------------------------- pieces of the symmetry

  lemma PivotMirrors(s: seq<Candle>, k: real, span: nat, kind: Kind, i: nat)
    ensures IsPivot(Mirror(s, k), span, FlipKind(kind), i) <==> IsPivot(s, span, kind, i)
  {
    var m, flip := Mirror(s, k), FlipKind(kind);
    var shift := if kind == High then -k else k;
    assert forall j | 0 <= j < |s| :: Level(m[j], flip) == Level(s[j], kind) + shift;
  }

  lemma {:induction false} PivotIndicesMirror(s: seq<Candle>, k: real, span: nat, kind: Kind, n: nat)
    requires n <= |s|
    ensures PivotIndices(Mirror(s, k), span, FlipKind(kind), n) == PivotIndices(s, span, kind, n)
  {
    hide IsPivot;
    if n > 0 {
      PivotIndicesMirror(s, k, span, kind, n - 1);
      PivotMirrors(s, k, span, kind, n - 1);
    }
  }

  lemma PivotsMirror(s: seq<Candle>, k: real, span: nat, kind: Kind)
    ensures Pivots(Mirror(s, k), span, FlipKind(kind)) == MirrorPoints(Pivots(s, span, kind), k)
  {
    PivotIndicesMirror(s, k, span, kind, |s|);
    hide PivotIndices;
  }

  lemma {:induction false} ExtremesMirror(s: seq<Candle>, k: real)
    requires s != []
    ensures MaxHigh(Mirror(s, k)) == k - MinLow(s)
    ensures MinLow(Mirror(s, k)) == k - MaxHigh(s)
  {
    if |s| > 1 {
      assert Mirror(s, k)[1..] == Mirror(s[1..], k);
      ExtremesMirror(s[1..], k);
    }
  }

  lemma RangeMirrors(s: seq<Candle>, k: real, lookback: nat, exclude: nat)
    requires lookback >= 1
    ensures PriorRange(Mirror(s, k), lookback, exclude) == MirrorRange(PriorRange(s, lookback, exclude), k)
  {
    if |s| >= lookback + exclude {
      var stop := |s| - exclude;
      assert Mirror(s, k)[stop - lookback..stop] == Mirror(s[stop - lookback..stop], k);
      ExtremesMirror(s[stop - lookback..stop], k);
    }
  }

  lemma RangeIsOrdered(s: seq<Candle>, lookback: nat, exclude: nat)
    requires lookback >= 1 && HighsAboveLows(s)
    ensures var r := PriorRange(s, lookback, exclude); r.Some? ==> r.value.low <= r.value.high
  {
    if |s| >= lookback + exclude {
      var stop := |s| - exclude;
      var window := s[stop - lookback..stop];
      MaxHighBounds(window);
      MinLowBounds(window);
      assert window[0] == s[stop - lookback];
      assert window[0].low <= window[0].high;
    }
  }

  /** Whatever the order in which the branches are tried, up and down are treated alike. */
  lemma BreakoutMirrors(s: seq<Candle>, k: real, lookback: nat, prior: Option<Range>)
    requires s != [] && lookback >= 1 && HighsAboveLows(s)
    requires prior.Some? ==> prior.value.low <= prior.value.high
    ensures BreakoutOf(Mirror(s, k), lookback, MirrorRange(prior, k)) == FlipBreakout(BreakoutOf(s, lookback, prior))
  {
    RangeMirrors(s, k, lookback, 2);
    RangeIsOrdered(s, lookback, 2);
    hide PriorRange;
  }

  lemma SwingMirrors(highs: seq<SwingPoint>, lows: seq<SwingPoint>, k: real)
    ensures SwingOf(MirrorPoints(lows, k), MirrorPoints(highs, k)) == FlipSwing(SwingOf(highs, lows))
  {
  }

  // ---------------------------------------------------------------- the whole summary

  /** Turning prices upside down turns the whole summary, or its error, upside down. */
  lemma SummaryMirrors(s: seq<Candle>, k: real, observedAt: int, lookback: nat, span: nat)
    requires lookback >= 1 && HighsAboveLows(s)
    ensures SummaryOf(Mirror(s, k), observedAt, lookback, span)
            == match SummaryOf(s, observedAt, lookback, span)
               case Ok(t) => Ok(MirrorStructure(t, k))
               case Err(e) => Err(e)
  {
    hide StructureOf, Pivots, MirrorStructure, MirrorPoints, HighsAboveLows;
    SameTimes(s, k);
    if s != [] {
      PivotsMirror(s, k, span, High);
      PivotsMirror(s, k, span, Low);
      StructureMirrors(s, k, observedAt, lookback, Pivots(s, span, High), Pivots(s, span, Low));
    }
    hide Mirror;
  }

  lemma SameTimes(s: seq<Candle>, k: real)
    ensures |Mirror(s, k)| == |s|
    ensures forall i | 0 <= i < |s| :: Mirror(s, k)[i].isClosed == s[i].isClosed
    ensures forall i | 0 <= i < |s| :: Mirror(s, k)[i].closeTime == s[i].closeTime
  {
  }

  lemma StructureMirrors(
    s: seq<Candle>, k: real, observedAt: int, lookback: nat, highs: seq<SwingPoint>, lows: seq<SwingPoint>)
    requires s != [] && lookback >= 1 && HighsAboveLows(s)
    ensures StructureOf(Mirror(s, k), observedAt, lookback, MirrorPoints(lows, k), MirrorPoints(highs, k))
            == MirrorStructure(StructureOf(s, observedAt, lookback, highs, lows), k)
  {
    hide PriorRange, BreakoutOf, SwingOf, Normalize, HighsAboveLows;
    var prior := PriorRange(s, lookback, 1);
    RangeMirrors(s, k, lookback, 1);
    RangeIsOrdered(s, lookback, 1);
    BreakoutMirrors(s, k, lookback, prior);
    SwingMirrors(highs, lows, k);
  }

  // ---------------------------------------------------------------- breakout state and location

  /**
   What each breakout state says about where the last close lies.  A retest needs two windows to
   overlap to be kept on its own side of the range, hence a lookback of at least two.
   */
  lemma StateFitsLocation(s: seq<Candle>, lookback: nat)
    requires s != [] && lookback >= 2 && AllWellFormed(s)
    ensures var prior := PriorRange(s, lookback, 1);
            var state, location := BreakoutOf(s, lookback, prior), LocationOf(Last(s).close, prior);
            && (state == UnknownBreakout <==> location == UnknownLocation)
            && (state == UnknownBreakout <==> |s| <= lookback)
            && (state == BreakoutUp ==> location == AboveRange)
            && (state == BreakoutDown ==> location == BelowRange)
            && (state == SweepBoth || state == StillInside ==> location == InsideRange)
            && (state == RetestUp || state == FalseBreakDown ==> location != BelowRange)
            && (state == RetestDown || state == FalseBreakUp ==> location != AboveRange)
  {
    hide MaxHigh, MinLow, AllWellFormed;
    if |s| > lookback {
      BreakoutStatesExactly(s, lookback);
      RangeIsOrderedHere(s, lookback);
      if |s| >= lookback + 2 { WindowsOverlap(s, lookback); }
    }
    hide BreakoutOf;
  }

  lemma RangeIsOrderedHere(s: seq<Candle>, lookback: nat)
    requires lookback >= 1 && |s| > lookback && AllWellFormed(s)
    ensures PriorRange(s, lookback, 1).value.low <= PriorRange(s, lookback, 1).value.high
  {
    assert HighsAboveLows(s);
    RangeIsOrdered(s, lookback, 1);
  }

  lemma WindowsOverlap(s: seq<Candle>, lookback: nat)
    requires lookback >= 2 && |s| >= lookback + 2 && AllWellFormed(s)
    ensures PriorRange(s, lookback, 1).value.low <= PriorRange(s, lookback, 2).value.high
    ensures PriorRange(s, lookback, 2).value.low <= PriorRange(s, lookback, 1).value.high
  {
    var shared := s[|s| - 3];
    var near, far := s[|s| - 1 - lookback..|s| - 1], s[|s| - 2 - lookback..|s| - 2];
    assert near[lookback - 2] == shared == far[lookback - 1];
    assert WellFormed(shared);
    MaxHighBounds(near);
    MinLowBounds(near);
    MaxHighBounds(far);
    MinLowBounds(far);
    hide MaxHigh, MinLow;
    assert near[lookback - 2].low >= MinLow(near) && near[lookback - 2].high <= MaxHigh(near);
    assert far[lookback - 1].low >= MinLow(far) && far[lookback - 1].high <= MaxHigh(far);
  }

  predicate FailsAbove(c: Candle, r: Range) { c.high > r.high && c.close <= r.high }
  predicate FailsBelow(c: Candle, r: Range) { c.low < r.low && c.close >= r.low }

  /** The candle before broke the range before it, and the current one came back to its edge and held. */
  predicate RetestsAbove(s: seq<Candle>, r: Range)
    requires |s| >= 2
  {
    s[|s| - 2].close > r.high && Last(s).low <= r.high < Last(s).close
  }

  predicate RetestsBelow(s: seq<Candle>, r: Range)
    requires |s| >= 2
  {
    s[|s| - 2].close < r.low && Last(s).high >= r.low > Last(s).close
  }

  predicate Retests(s: seq<Candle>, lookback: nat, upwards: bool)
    requires |s| >= 2 && lookback >= 1
  {
    var ref := PriorRange(s, lookback, 2);
    ref.Some? && if upwards then RetestsAbove(s, ref.value) else RetestsBelow(s, ref.value)
  }

  /**
   The states without any order of checks: every condition is a condition on prices alone, and a
   retest upwards never competes with anything downwards, nor the other way round.  A series one
   candle longer than the lookback has a range to break but none to retest.
   */
  lemma BreakoutStatesExactly(s: seq<Candle>, lookback: nat)
    requires lookback >= 2 && |s| > lookback && AllWellFormed(s)
    ensures var prior := PriorRange(s, lookback, 1).value;
            var state, close := BreakoutOf(s, lookback, Some(prior)), Last(s).close;
            var above, below := FailsAbove(Last(s), prior), FailsBelow(Last(s), prior);
            var up, down := Retests(s, lookback, true), Retests(s, lookback, false);
            && (state == SweepBoth <==> above && below)
            && (state == FalseBreakUp <==> above && !below)
            && (state == FalseBreakDown <==> below && !above)
            && (state == RetestUp <==> !above && !below && up)
            && (state == RetestDown <==> !above && !below && down)
            && (state == BreakoutUp <==> !below && close > prior.high && !up)
            && (state == BreakoutDown <==> !above && close < prior.low && !down)
            && state != UnknownBreakout && (|s| == lookback + 1 ==> !up && !down)
  {
    if |s| >= lookback + 2 { WindowsOverlap(s, lookback); }
    assert HighsAboveLows(s);
    RangeIsOrdered(s, lookback, 1);
    RangeIsOrdered(s, lookback, 2);
    hide MaxHigh, MinLow, AllWellFormed, HighsAboveLows;
  }
}
