/**
 Batch construction of higher-timeframe candles from a contiguous closed series
 (app/market/multitimeframe.py): the source validator, the visible prefix at a cutoff,
 and the grouping of the whole series into UTC buckets.

 `Resampled` is the reference the grouping is proved against: it reads the series one
 candle at a time and has a candle for exactly those positions where a full bucket closes.
 The streaming cursor is proved against the same reference.
 */
module Resampling {
  import opened Wrappers
  import opened Sequences
  import opened Timeframes
  import opened Buckets
  import opened Candles

  datatype MtfError =
    | EmptySource
    | UnsupportedTimeframe(spelling: string)
    | MixedSymbol
    | MixedTimeframe
    | UnclosedCandle
    | WrongDuration
    | NotChronological
    | GapInSource
    | BrokenBoundary
    | TargetTooSmall(target: string)
    | TargetNotMultiple(target: string)
    | NothingVisible
    | BlankPolicy
    | NoTargets
    | BlankTarget
    | DuplicateTargets
    | NotConfigured(key: string)
    | WrongSourceTimeframe
    | NothingConsumed

  // ---------------------------------------------------------------- source validation

  /** The checks made on one candle, in the order the source makes them. */
  function CandleFault(first: Candle, span: int, previous: Option<Candle>, c: Candle): Option<MtfError> {
    if c.symbol != first.symbol then Some(MixedSymbol)
    else if c.timeframe != first.timeframe then Some(MixedTimeframe)
    else if !c.isClosed then Some(UnclosedCandle)
    else if c.closeTime - c.openTime != span then Some(WrongDuration)
    else if previous.None? then None
    else if c.openTime <= previous.value.openTime then Some(NotChronological)
    else if c.openTime != previous.value.openTime + span then Some(GapInSource)
    else if previous.value.closeTime != c.openTime then Some(BrokenBoundary)
    else None
  }

  function Previous(s: seq<Candle>, i: nat): Option<Candle>
    requires i < |s|
  {
    if i == 0 then None else Some(s[i - 1])
  }

  function FirstFault(s: seq<Candle>, span: int, k: nat): Option<MtfError>
    requires k <= |s|
  {
    if k == 0 then None
    else
      var earlier := FirstFault(s, span, k - 1);
      if earlier.Some? then earlier else CandleFault(s[0], span, Previous(s, k - 1), s[k - 1])
  }

  function SourceCheck(s: seq<Candle>): Result<seq<Candle>, MtfError> {
    if s == [] then Err(EmptySource)
    else
      var span := Interval(s[0].timeframe);
      if span.None? then Err(UnsupportedTimeframe(s[0].timeframe))
      else
        var fault := FirstFault(s, span.value, |s|);
        if fault.Some? then Err(fault.value) else Ok(s)
  }

  /** Candle `i` is followed by one that opens `d` later. */
  predicate Adjoins(s: seq<Candle>, d: int, i: int)
    requires 0 <= i < |s| - 1
  {
    s[i + 1].openTime == s[i].openTime + d
  }

  /** Every candle lasts `d` and opens exactly when its predecessor closes. */
  ghost predicate Grid(s: seq<Candle>, d: int) {
    && (forall i | 0 <= i < |s| :: s[i].closeTime == s[i].openTime + d)
    && (forall i | 0 <= i < |s| - 1 :: Adjoins(s, d, i))
  }

  ghost predicate Uniform(s: seq<Candle>, symbol: string, timeframe: string) {
    forall i | 0 <= i < |s| :: s[i].symbol == symbol && s[i].timeframe == timeframe && s[i].isClosed
  }

  /** One symbol, one supported timeframe, all closed, and gap-free: what a source must be. */
  ghost predicate ValidSource(s: seq<Candle>) {
    && s != []
    && Interval(s[0].timeframe).Some?
    && Uniform(s, s[0].symbol, s[0].timeframe)
    && Grid(s, Interval(s[0].timeframe).value)
  }

  lemma {:induction false} FaultPersists(s: seq<Candle>, span: int, k: nat, m: nat)
    requires k <= m <= |s| && FirstFault(s, span, k).Some?
    ensures FirstFault(s, span, m) == FirstFault(s, span, k)
  {
    if k < m { FaultPersists(s, span, k, m - 1); }
  }

  lemma {:induction false} FirstFaultNone(s: seq<Candle>, span: int, k: nat)
    requires k <= |s|
    ensures FirstFault(s, span, k).None? <==>
              forall i | 0 <= i < k :: CandleFault(s[0], span, Previous(s, i), s[i]).None?
  {
    hide CandleFault;
    if k > 0 { FirstFaultNone(s, span, k - 1); }
  }

  /** The validator accepts exactly the valid sources, and returns what it was given. */
  lemma SourceCheckExact(s: seq<Candle>)
    ensures SourceCheck(s).Ok? <==> ValidSource(s)
    ensures SourceCheck(s).Ok? ==> SourceCheck(s).value == s
  {
    if s != [] && Interval(s[0].timeframe).Some? {
      var d := Interval(s[0].timeframe).value;
      FirstFaultNone(s, d, |s|);
      if SourceCheck(s).Ok? {
        forall i | 0 <= i < |s| - 1 ensures Adjoins(s, d, i) {
          assert CandleFault(s[0], d, Previous(s, i + 1), s[i + 1]).None?;
        }
      }
      if ValidSource(s) {
        forall i | 0 <= i < |s| ensures CandleFault(s[0], d, Previous(s, i), s[i]).None? {
          if i > 0 { assert Adjoins(s, d, i - 1); }
        }
      }
    }
  }

  /** What each complaint says about candle `i`, checked in this order. */
  predicate Breaks(s: seq<Candle>, i: nat, span: int, complaint: MtfError)
    requires i < |s|
  {
    match complaint
    case MixedSymbol => s[i].symbol != s[0].symbol
    case MixedTimeframe => s[i].timeframe != s[0].timeframe
    case UnclosedCandle => !s[i].isClosed
    case WrongDuration => s[i].closeTime != s[i].openTime + span
    case NotChronological => i > 0 && s[i].openTime <= s[i - 1].openTime
    case GapInSource => i > 0 && s[i].openTime != s[i - 1].closeTime
    case _ => false
  }

  const COMPLAINTS: seq<MtfError> :=
    [MixedSymbol, MixedTimeframe, UnclosedCandle, WrongDuration, NotChronological, GapInSource]

  /** Everything before candle `i` is in order, and `complaint` is the first one that applies to it. */
  ghost predicate FirstBroken(s: seq<Candle>, i: nat, span: int, complaint: MtfError)
    requires i < |s|
  {
    && (i > 0 ==> ValidSource(s[..i]))
    && exists k | 0 <= k < |COMPLAINTS| ::
         && COMPLAINTS[k] == complaint && Breaks(s, i, span, complaint)
         && forall j | 0 <= j < k :: !Breaks(s, i, span, COMPLAINTS[j])
  }

  /** Why a series that is no valid source is refused. */
  ghost predicate Refused(s: seq<Candle>, complaint: MtfError) {
    if s == [] then complaint == EmptySource
    else if forall span: int :: !Denotes(Normalize(s[0].timeframe), span)
      then complaint == UnsupportedTimeframe(s[0].timeframe)
    else exists i, span | 0 <= i < |s| && Denotes(Normalize(s[0].timeframe), span) ::
           FirstBroken(s, i, span, complaint)
  }

  lemma FaultIsComplaint(s: seq<Candle>, i: nat, span: int, e: MtfError)
    requires i < |s| && span > 0 && CandleFault(s[0], span, Previous(s, i), s[i]) == Some(e)
    requires i > 0 ==> s[i - 1].closeTime == s[i - 1].openTime + span
    ensures exists k | 0 <= k < |COMPLAINTS| ::
              && COMPLAINTS[k] == e && Breaks(s, i, span, e)
              && forall j | 0 <= j < k :: !Breaks(s, i, span, COMPLAINTS[j])
  {
    var k :=
      match e
      case MixedSymbol => 0
      case MixedTimeframe => 1
      case UnclosedCandle => 2
      case WrongDuration => 3
      case NotChronological => 4
      case _ => 5;
    assert COMPLAINTS[k] == e;
  }

  lemma {:induction false} FirstFaultSplits(s: seq<Candle>, span: int, k: nat) returns (i: nat)
    requires k <= |s| && FirstFault(s, span, k).Some?
    ensures i < k && FirstFault(s, span, i).None?
    ensures CandleFault(s[0], span, Previous(s, i), s[i]) == FirstFault(s, span, k)
  {
    hide CandleFault;
    if FirstFault(s, span, k - 1).Some? {
      i := FirstFaultSplits(s, span, k - 1);
    } else {
      i := k - 1;
    }
  }

  lemma {:induction false} FirstFaultOfPrefix(s: seq<Candle>, span: int, i: nat, k: nat)
    requires k <= i <= |s|
    ensures FirstFault(s[..i], span, k) == FirstFault(s, span, k)
  {
    hide CandleFault;
    if k > 0 { FirstFaultOfPrefix(s, span, i, k - 1); }
  }

  /** A series is refused for the first candle up to which it is no valid source, and for the reason given. */
  lemma RefusedForFirstBroken(s: seq<Candle>)
    requires SourceCheck(s).Err?
    ensures Refused(s, SourceCheck(s).error)
  {
    if s != [] {
      IntervalMeans(s[0].timeframe);
      if Interval(s[0].timeframe).Some? { BrokenSomewhere(s, Interval(s[0].timeframe).value); }
    }
    hide Denotes, Normalize, Interval, FirstBroken;
  }

  lemma BrokenSomewhere(s: seq<Candle>, span: int)
    requires s != [] && Interval(s[0].timeframe) == Some(span) && SourceCheck(s).Err?
    ensures exists i | 0 <= i < |s| :: FirstBroken(s, i, span, SourceCheck(s).error)
  {
    var i := FirstFaultSplits(s, span, |s|);
    if i > 0 {
      FirstFaultOfPrefix(s, span, i, i);
      SourceCheckExact(s[..i]);
      assert s[..i][i - 1] == s[i - 1];
    }
    hide CandleFault, FirstFault, Interval;
    FaultIsComplaint(s, i, span, SourceCheck(s).error);
    assert FirstBroken(s, i, span, SourceCheck(s).error);
  }

  /** The last check of the validator can never fail: the checks before it already decide it. */
  lemma {:induction false} BoundaryCheckIsRedundant(s: seq<Candle>, span: int, k: nat)
    requires k <= |s| && span > 0
    ensures FirstFault(s, span, k) != Some(BrokenBoundary)
  {
    if k > 0 {
      FirstFaultNone(s, span, k - 1);
      BoundaryCheckIsRedundant(s, span, k - 1);
    }
  }

  method ValidateSource(s: seq<Candle>) returns (r: Result<seq<Candle>, MtfError>)
    ensures r == SourceCheck(s)
    ensures r.Ok? <==> ValidSource(s)
    ensures r.Err? ==> Refused(s, r.error)
  {
    hide Refused;
    SourceCheckExact(s);
    if SourceCheck(s).Err? { RefusedForFirstBroken(s); }
    if s == [] { return Err(EmptySource); }
    var span := Interval(s[0].timeframe);
    if span.None? { return Err(UnsupportedTimeframe(s[0].timeframe)); }
    var previous: Option<Candle> := None;
    for i := 0 to |s|
      invariant FirstFault(s, span.value, i).None?
      invariant i < |s| ==> previous == Previous(s, i)
    {
      var fault := CandleFault(s[0], span.value, previous, s[i]);
      if fault.Some? {
        FaultPersists(s, span.value, i + 1, |s|);
        return Err(fault.value);
      }
      previous := Some(s[i]);
    }
    return Ok(s);
  }

  // ---------------------------------------------------------------- visible prefix

  /** The candles before the first one that closes after the cutoff. */
  function VisiblePrefix(s: seq<Candle>, cutoff: int): (r: seq<Candle>)
    ensures r <= s
  {
    if s == [] || s[0].closeTime > cutoff then [] else [s[0]] + VisiblePrefix(s[1..], cutoff)
  }

  function VisibleSource(s: seq<Candle>, asOf: Option<int>): Result<seq<Candle>, MtfError> {
    if s == [] then Err(EmptySource)
    else if asOf.None? then SourceCheck(s)
    else
      var visible := VisiblePrefix(s, asOf.value);
      if visible == [] then Ok([]) else SourceCheck(visible)
  }

  lemma {:induction false} VisiblePrefixAt(s: seq<Candle>, cutoff: int, k: nat)
    requires k <= |s|
    requires forall i | 0 <= i < k :: s[i].closeTime <= cutoff
    requires k < |s| ==> s[k].closeTime > cutoff
    ensures VisiblePrefix(s, cutoff) == s[..k]
  {
    if k > 0 {
      VisiblePrefixAt(s[1..], cutoff, k - 1);
      assert s[..k] == [s[0]] + s[1..][..k - 1];
    }
  }

  /** The visible candles are the longest prefix of candles that close by the cutoff. */
  lemma {:induction false} VisibleExactly(s: seq<Candle>, cutoff: int)
    ensures var k := |VisiblePrefix(s, cutoff)|;
            && k <= |s| && VisiblePrefix(s, cutoff) == s[..k]
            && (forall i | 0 <= i < k :: s[i].closeTime <= cutoff)
            && (k < |s| ==> s[k].closeTime > cutoff)
  {
    if s != [] && s[0].closeTime <= cutoff {
      VisibleExactly(s[1..], cutoff);
    }
  }

  method ReadVisibleSource(s: seq<Candle>, asOf: Option<int>) returns (r: Result<seq<Candle>, MtfError>)
    ensures r == VisibleSource(s, asOf)
  {
    if s == [] { return Err(EmptySource); }
    if asOf.None? {
      r := ValidateSource(s);
      return;
    }
    var visible := [];
    var i := 0;
    while i < |s| && s[i].closeTime <= asOf.value
      invariant 0 <= i <= |s| && visible == s[..i]
      invariant forall j | 0 <= j < i :: s[j].closeTime <= asOf.value
    {
      visible := visible + [s[i]];
      i := i + 1;
    }
    VisiblePrefixAt(s, asOf.value, i);
    if visible == [] { return Ok([]); }
    r := ValidateSource(visible);
  }

  // ---------------------------------------------------------------- the reference

  function Aggregate(bucket: seq<Candle>, target: string, start: int, span: int): Candle
    requires bucket != []
  {
    Candle(
      bucket[0].symbol, target, start, start + span,
      bucket[0].open, MaxHigh(bucket), MinLow(bucket), Last(bucket).close,
      TotalVolume(bucket), true)
  }

  /** What a derived candle says about the candles it replaces. */
  ghost predicate Summarises(c: Candle, bucket: seq<Candle>)
    requires bucket != []
  {
    && c.symbol == bucket[0].symbol && c.isClosed
    && c.open == bucket[0].open && c.close == bucket[|bucket| - 1].close
    && (forall i | 0 <= i < |bucket| :: bucket[i].low >= c.low && bucket[i].high <= c.high)
    && (exists i | 0 <= i < |bucket| :: bucket[i].high == c.high)
    && (exists i | 0 <= i < |bucket| :: bucket[i].low == c.low)
    && c.volume == TotalVolume(bucket)
  }

  lemma AggregateSummarises(bucket: seq<Candle>, target: string, start: int, span: int)
    requires bucket != []
    ensures var c := Aggregate(bucket, target, start, span);
            Summarises(c, bucket) && c.timeframe == target && c.openTime == start && c.closeTime == start + span
  {
    MaxHighBounds(bucket);
    MinLowBounds(bucket);
  }

  /** The last candle of `s` ends a UTC bucket of which `s` holds all `n` candles. */
  predicate ClosesBucket(s: seq<Candle>, n: nat, span: int)
    requires IsSpan(span) && n >= 1
  {
    && |s| >= n
    && var start := BucketStart(Last(s).openTime, span);
       Last(s).closeTime == start + span && s[|s| - n].openTime == start
  }

  /** The candle emitted for the last `n` candles of `s`. */
  function Emission(s: seq<Candle>, target: string, n: nat, span: int): Candle
    requires 1 <= n <= |s|
  {
    Aggregate(s[|s| - n..], target, s[|s| - n].openTime, span)
  }

  function Resampled(s: seq<Candle>, target: string, n: nat, span: int): seq<Candle>
    requires IsSpan(span) && n >= 1
  {
    if s == [] then []
    else
      Resampled(Init(s), target, n, span)
      + if ClosesBucket(s, n, span) then [Emission(s, target, n, span)] else []
  }

  /** `n` times `d`, by repeated addition. */
  function Times(n: nat, d: int): int {
    if n == 0 then 0 else Times(n - 1, d) + d
  }

  lemma {:induction false} TimesIsProduct(n: nat, d: int)
    ensures Times(n, d) == n * d
  {
    if n > 0 { TimesIsProduct(n - 1, d); }
  }

  lemma TimesPositive(n: nat, d: int)
    requires n >= 1 && d >= 1
    ensures Times(n, d) == Times(n - 1, d) + d && Times(n - 1, d) >= 0 && Times(n, d) >= n
  {
    TimesIsProduct(n - 1, d);
    MulMonotone(0, n - 1, d);
    MulMonotone(1, d, n - 1);
  }

  /** Source span `d`, target span `span`, `n` source candles to a bucket. */
  predicate Fits(d: int, n: nat, span: int) {
    IsSpan(d) && IsSpan(span) && n >= 1 && span == Times(n, d)
  }

  function ResampleVisible(series: seq<Candle>, target: string): Result<seq<Candle>, MtfError>
    requires series != [] && Interval(series[0].timeframe).Some?
  {
    var key := Normalize(target);
    var d, span := Interval(series[0].timeframe).value, Interval(key);
    if span.None? then Err(UnsupportedTimeframe(key))
    else if span.value < d then Err(TargetTooSmall(key))
    else if span.value % d != 0 then Err(TargetNotMultiple(key))
    else if span.value == d then Ok(series)
    else
      assert span.value / d >= 1;
      Ok(Resampled(series, key, span.value / d, span.value))
  }

  function ResampleResult(s: seq<Candle>, target: string, asOf: Option<int>): Result<seq<Candle>, MtfError> {
    var visible := VisibleSource(s, asOf);
    if visible.Err? then visible
    else if visible.value == [] then Ok([])
    else
      ResampleVisible(visible.value, target)
  }
}
