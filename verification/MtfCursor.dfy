/**
 The incremental multi-timeframe cursor (class HistoricalMultiTimeframeCursor): one source
 candle at a time, one pending bucket per target timeframe, only complete buckets emitted.
 Its class invariant ties every field to the candles accepted so far, so at every moment the
 cursor holds what the batch form would build from them.
 */
module MtfCursor {
  import opened Wrappers
  import opened Sequences
  import opened Timeframes
  import opened Buckets
  import opened Candles
  import opened Resampling
  import opened ResampledLaws
  import opened BucketRuns
  import opened MtfConfig

  // ---------------------------------------------------------------- what the cursor must hold

  function Relabeled(s: seq<Candle>, target: string): seq<Candle> {
    seq(|s|, i requires 0 <= i < |s| => s[i].(timeframe := target, isClosed := true))
  }

  /** The series of one target after the candles `s`. */
  function TargetSeries(s: seq<Candle>, target: string, n: nat, span: int): seq<Candle>
    requires IsSpan(span) && n >= 1
  {
    if n == 1 then Relabeled(s, target) else Resampled(s, target, n, span)
  }

  predicate Emits(s: seq<Candle>, n: nat, span: int)
    requires IsSpan(span) && n >= 1
  {
    n == 1 || ClosesBucket(s, n, span)
  }

  predicate Covers(targets: seq<string>, counts: map<string, nat>, spans: map<string, int>) {
    forall t | t in targets :: t in counts && t in spans && IsSpan(spans[t]) && counts[t] >= 1
  }

  /** The configured timeframes that emit when `s` has just been completed, in configured order. */
  function EmittedTargets(
    targets: seq<string>, s: seq<Candle>, counts: map<string, nat>, spans: map<string, int>): seq<string>
    requires Covers(targets, counts, spans)
  {
    if targets == [] then []
    else
      assert forall t | t in Init(targets) :: t in targets;
      assert Last(targets) in targets;
      EmittedTargets(Init(targets), s, counts, spans)
      + if Emits(s, counts[Last(targets)], spans[Last(targets)]) then [Last(targets)] else []
  }

  lemma EmittedNext(targets: seq<string>, i: nat, s: seq<Candle>, counts: map<string, nat>, spans: map<string, int>)
    requires Covers(targets, counts, spans)
    requires i < |targets|
    ensures var t := targets[i];
            EmittedTargets(targets[..i + 1], s, counts, spans)
            == EmittedTargets(targets[..i], s, counts, spans) + if Emits(s, counts[t], spans[t]) then [t] else []
  {
    assert Init(targets[..i + 1]) == targets[..i];
  }

  /** A push that completes a candle of one timeframe completes one of every configured divisor of it. */
  lemma {:induction false} FineEmitsWithCoarse(
    targets: seq<string>, s: seq<Candle>, counts: map<string, nat>, spans: map<string, int>, d: int,
    fine: string, coarse: string)
    requires Covers(targets, counts, spans)
    requires forall t | t in targets :: Fits(d, counts[t], spans[t])
    requires Grid(s, d) && fine in targets && coarse in targets && spans[coarse] % spans[fine] == 0
    requires coarse in EmittedTargets(targets, s, counts, spans)
    ensures fine in EmittedTargets(targets, s, counts, spans)
  {
    EmittedExactly(targets, s, counts, spans, fine);
    EmittedExactly(targets, s, counts, spans, coarse);
    if counts[fine] != 1 {
      if counts[coarse] == 1 {
        SpanFacts(d, counts[fine], spans[fine]);
        DivisorIsSmaller(spans[coarse], spans[fine]);
        TimesIsProduct(1, d);
        CountIsOne(d, counts[fine], spans[fine]);
      } else {
        CoarseCloseImpliesFineClose(s, d, counts[fine], spans[fine], counts[coarse], spans[coarse]);
      }
    }
  }

  lemma CountIsOne(d: int, n: nat, span: int)
    requires Fits(d, n, span) && span <= d
    ensures n == 1
  {
    TimesIsProduct(n, d);
    if n >= 2 { MulMonotone(2, n, d); }
  }

  lemma {:induction false} EmittedExactly(
    targets: seq<string>, s: seq<Candle>, counts: map<string, nat>, spans: map<string, int>, t: string)
    requires Covers(targets, counts, spans)
    ensures t in EmittedTargets(targets, s, counts, spans) <==> t in targets && Emits(s, counts[t], spans[t])
  {
    if targets != [] {
      assert targets == Init(targets) + [Last(targets)];
      EmittedExactly(Init(targets), s, counts, spans, t);
    }
  }

  function PendingEntry(s: seq<Candle>, n: nat, span: int): Option<(int, seq<Candle>)>
    requires IsSpan(span)
  {
    var held := Pending(s, span);
    if n == 1 || held == [] then None else Some((BucketOf(Last(s), span), held))
  }

  /** The bucket the cursor completes from its pending one is the last run of the whole history. */
  lemma HeldPlusNext(before: seq<Candle>, c: Candle, d: int, n: nat, span: int)
    requires Grid(before + [c], d) && Fits(d, n, span)
    ensures var held := Pending(before, span);
            var start := BucketOf(c, span);
            var bucket := if held != [] && BucketOf(Last(before), span) == start then held + [c] else [c];
            var s := before + [c];
            bucket == s[RunStart(s, span)..]
  {
    var s := before + [c];
    assert Init(s) == before && Last(s) == c;
    if before != [] {
      var i := |before| - 1;
      assert s[i] == Last(before) && s[|s| - 2] == Last(before);
      if Pending(before, span) == [] { NextAfterEnd(s, d, n, span, i); }
    }
  }

  lemma NothingYet(target: string, n: nat, span: int)
    requires IsSpan(span) && n >= 1
    ensures TargetSeries([], target, n, span) == [] && PendingEntry([], n, span) == None
  {
  }

  /** The checks of `push` accept a candle exactly when the extended history is a valid source. */
  lemma AcceptedExactly(before: seq<Candle>, c: Candle, d: int)
    requires Interval(c.timeframe) == Some(d)
    requires before != [] ==> ValidSource(before) && before[0].timeframe == c.timeframe
    ensures ValidSource(before + [c]) <==>
              && c.isClosed && c.closeTime - c.openTime == d
              && (before != [] ==> c.symbol == before[0].symbol && c.openTime == Last(before).openTime + d)
    ensures before != [] ==> Last(before).closeTime == Last(before).openTime + d
    ensures ValidSource(before + [c]) ==> Grid(before + [c], d)
  {
    var s := before + [c];
    assert s[|before|] == c;
    if before != [] {
      var last := |before| - 1;
      assert s[0] == before[0] && s[last] == Last(before);
      if ValidSource(s) { assert Adjoins(s, d, last); }
      if c.openTime == Last(before).openTime + d && c.closeTime - c.openTime == d {
        GridAppend(before, c, d);
      }
      if c.isClosed && c.symbol == before[0].symbol {
        assert Uniform(s, before[0].symbol, before[0].timeframe);
      }
    }
  }

  /** The bucket the loop of `push` builds for a target. */
  function NextBucket(before: seq<Candle>, c: Candle, n: nat, span: int): seq<Candle>
    requires IsSpan(span)
  {
    var entry := PendingEntry(before, n, span);
    if entry.None? || entry.value.0 != BucketOf(c, span) then [c] else entry.value.1 + [c]
  }

  /** It is the last run of the longer history. */
  lemma NextBucketIsRun(before: seq<Candle>, c: Candle, d: int, n: nat, span: int)
    requires Grid(before + [c], d) && Fits(d, n, span) && n > 1
    ensures var s := before + [c];
            NextBucket(before, c, n, span) == s[RunStart(s, span)..]
  {
    hide BucketStart, Grid, RunStart;
    HeldPlusNext(before, c, d, n, span);
  }

  /** What one round of the cursor's loop computes, against the reference for the longer history. */
  lemma FeedStep(before: seq<Candle>, c: Candle, target: string, d: int, n: nat, span: int)
    requires Grid(before + [c], d) && Fits(d, n, span) && n > 1
    ensures var s, start, bucket := before + [c], BucketOf(c, span), NextBucket(before, c, n, span);
            var full := |bucket| == n && bucket[0].openTime == start && Last(bucket).closeTime == start + span;
            && (full <==> ClosesBucket(s, n, span))
            && TargetSeries(s, target, n, span) == TargetSeries(before, target, n, span)
                 + (if full then [Aggregate(bucket, target, start, span)] else [])
            && PendingEntry(s, n, span) == (if c.closeTime == start + span then None else Some((start, bucket)))
  {
    hide BucketStart, Grid, ClosesBucket, RunStart, NextBucket, Times, MaxHigh, MinLow, TotalVolume;
    var s := before + [c];
    assert Init(s) == before && Last(s) == c;
    NextBucketIsRun(before, c, d, n, span);
    RunDecides(s, RunStart(s, span), d, n, span);
  }

  /** Batch and cursor agree on a target, except that the cursor relabels an equal-length alias. */
  lemma MatchesBatch(s: seq<Candle>, target: string)
    requires ValidSource(s) && Normalize(target) == target
    requires TargetFault(target, Interval(s[0].timeframe).value).None?
    ensures var d := Interval(s[0].timeframe).value;
            var n, span := CountOf(target, d), Interval(target).value;
            && IsSpan(span) && n >= 1
            && (ResampleVisible(s, target) == Ok(TargetSeries(s, target, n, span))
                <==> !(n == 1 && target != s[0].timeframe))
  {
    var d := Interval(s[0].timeframe).value;
    UsableTarget(target, d);
    var n, span := CountOf(target, d), Interval(target).value;
    if n == 1 {
      assert ResampleVisible(s, target) == Ok(s);
      assert Relabeled(s, target)[0].timeframe == target;
      if target == s[0].timeframe { assert Relabeled(s, target) == s; }
    }
  }

  /** The series of a target in terms of the accepted candles alone. */
  ghost predicate Follows(s: seq<Candle>, t: string, d: int, out: seq<Candle>)
    requires d > 0
  {
    forall span: int | Denotes(Normalize(t), span) :: FollowsSpan(s, t, d, span, out)
  }

  ghost predicate FollowsSpan(s: seq<Candle>, t: string, d: int, span: int, out: seq<Candle>)
    requires d > 0
  {
    && (span == d ==> |out| == |s| && forall i | 0 <= i < |s| :: out[i] == s[i].(timeframe := t))
    && (span > d ==> DerivedFrom(s, t, span, out))
    && (forall c | c in out :: c.closeTime - c.openTime == span)
  }

  /** The reference series is such a series, and its candles last as long as the label says. */
  lemma SeriesFollows(s: seq<Candle>, t: string, d: int, n: nat, span: int)
    requires Grid(s, d) && (forall c | c in s :: c.isClosed)
    requires Usable(t, d, n, span)
    ensures IsSpan(span) && n >= 1 && d > 0
    ensures Follows(s, t, d, TargetSeries(s, t, n, span))
    ensures forall c | c in TargetSeries(s, t, n, span) :: Denotes(Normalize(t), c.closeTime - c.openTime)
  {
    IntervalMeans(t);
    hide Interval, Normalize, Denotes;
    SeriesFollowsSpan(s, t, d, n, span);
    hide DerivedFrom, TargetSeries, Grid, Times, FollowsSpan;
    EachLastsSpan(s, t, d, span, TargetSeries(s, t, n, span));
  }

  lemma EachLastsSpan(s: seq<Candle>, t: string, d: int, span: int, out: seq<Candle>)
    requires d > 0 && FollowsSpan(s, t, d, span, out)
    ensures forall c | c in out :: c.closeTime - c.openTime == span
  {
  }

  lemma SeriesFollowsSpan(s: seq<Candle>, t: string, d: int, n: nat, span: int)
    requires Grid(s, d) && (forall c | c in s :: c.isClosed)
    requires Fits(d, n, span) && (n == 1 <==> span == d)
    ensures FollowsSpan(s, t, d, span, TargetSeries(s, t, n, span))
  {
    var out := TargetSeries(s, t, n, span);
    if n > 1 {
      ResampledDerives(s, t, d, n, span);
      ResampledIsGrid(s, t, d, n, span);
    } else {
      hide Times;
      forall i | 0 <= i < |s| ensures out[i] == s[i].(timeframe := t) {
        assert s[i] in s;
      }
    }
    hide DerivedFrom, TargetSeries, Times;
  }

  /** How one more candle changes a series: it grows by one candle when the target emits, and not otherwise. */
  lemma SeriesGrows(before: seq<Candle>, c: Candle, t: string, n: nat, span: int)
    requires IsSpan(span) && n >= 1
    ensures var s := before + [c];
            var a, b := TargetSeries(before, t, n, span), TargetSeries(s, t, n, span);
            a <= b && |b| == |a| + (if Emits(s, n, span) then 1 else 0)
  {
    assert Init(before + [c]) == before && Last(before + [c]) == c;
    hide ClosesBucket;
  }

  /** Why a candle is refused: the first check that fails, in the order of the checks. */
  predicate PushComplaint(source: string, d: int, before: seq<Candle>, c: Candle, e: MtfError) {
    match e
    case WrongSourceTimeframe => c.timeframe != source
    case UnclosedCandle => c.timeframe == source && !c.isClosed
    case WrongDuration => c.timeframe == source && c.isClosed && c.closeTime != c.openTime + d
    case MixedSymbol =>
      && c.timeframe == source && c.isClosed && c.closeTime == c.openTime + d
      && before != [] && c.symbol != before[0].symbol
    case GapInSource =>
      && c.timeframe == source && c.isClosed && c.closeTime == c.openTime + d
      && before != [] && c.symbol == before[0].symbol && c.openTime != before[|before| - 1].closeTime
    case _ => false
  }

  // ---------------------------------------------------------------- the cursor

  datatype CursorState = CursorState(
    symbol: string,
    sourceTimeframe: string,
    sourceCount: nat,
    targets: seq<string>,
    asOf: int,
    policy: string,
    sourceFingerprint: Digest,
    seriesFingerprints: seq<(string, Digest, nat)>,
    candleCounts: seq<(string, nat)>,
    latestCloseTimes: seq<(string, int)>)

  function SeriesDigests(targets: seq<string>, counts: map<string, nat>, spans: map<string, int>, s: seq<Candle>)
    : seq<(string, Digest, nat)>
    requires Covers(targets, counts, spans)
  {
    seq(|targets|, i requires 0 <= i < |targets| =>
      var t := targets[i];
      var out := TargetSeries(s, t, counts[t], spans[t]);
      (t, Digest(SERIES_HEADER + t, out), |out|))
  }

  function SeriesSizes(targets: seq<string>, counts: map<string, nat>, spans: map<string, int>, s: seq<Candle>)
    : seq<(string, nat)>
    requires Covers(targets, counts, spans)
  {
    seq(|targets|, i requires 0 <= i < |targets| =>
      (targets[i], |TargetSeries(s, targets[i], counts[targets[i]], spans[targets[i]])|))
  }

  function LatestCloses(targets: seq<string>, counts: map<string, nat>, spans: map<string, int>, s: seq<Candle>)
    : seq<(string, int)>
    requires Covers(targets, counts, spans)
  {
    if targets == [] then []
    else
      var t := Last(targets);
      var out := TargetSeries(s, t, counts[t], spans[t]);
      LatestCloses(Init(targets), counts, spans, s) + if out == [] then [] else [(t, Last(out).closeTime)]
  }

  function StateOf(c: Config, counts: map<string, nat>, spans: map<string, int>, s: seq<Candle>): CursorState
    requires s != [] && Covers(c.targets, counts, spans)
  {
    CursorState(
      s[0].symbol, c.source, |s|, c.targets, Last(s).closeTime, c.policy, SeriesFingerprint(s),
      SeriesDigests(c.targets, counts, spans, s), SeriesSizes(c.targets, counts, spans, s),
      LatestCloses(c.targets, counts, spans, s))
  }

  /** Targets that have a candle, in the order configured. */
  function Started(targets: seq<string>, series: map<string, seq<Candle>>): seq<string>
    requires forall t | t in targets :: t in series
  {
    if targets == [] then []
    else if series[targets[0]] == [] then Started(targets[1..], series)
    else [targets[0]] + Started(targets[1..], series)
  }

  /** The state's three lists: per target a digest with its count, the count, and for each one begun its last close. */
  ghost predicate Reports(
    targets: seq<string>, series: map<string, seq<Candle>>,
    digests: seq<(string, Digest, nat)>, sizes: seq<(string, nat)>, latest: seq<(string, int)>)
  {
    && (forall t | t in targets :: t in series)
    && |digests| == |sizes| == |targets|
    && (forall i | 0 <= i < |targets| ::
          && sizes[i] == (targets[i], |series[targets[i]]|)
          && digests[i] == (targets[i],
               Digest("money-heist.incremental-mtf-series.v1:" + targets[i], series[targets[i]]),
               |series[targets[i]]|))
    && ClosesOf(Started(targets, series), series, latest)
  }

  lemma ListsReport(
    targets: seq<string>, counts: map<string, nat>, spans: map<string, int>, s: seq<Candle>,
    series: map<string, seq<Candle>>)
    requires Covers(targets, counts, spans)
    requires forall t | t in targets :: t in series && series[t] == TargetSeries(s, t, counts[t], spans[t])
    ensures Reports(targets, series, SeriesDigests(targets, counts, spans, s), SeriesSizes(targets, counts, spans, s),
              LatestCloses(targets, counts, spans, s))
  {
    LatestAreLast(targets, counts, spans, s, series);
    hide TargetSeries, LatestCloses, ClosesOf, Started;
  }

  ghost predicate ClosesOf(started: seq<string>, series: map<string, seq<Candle>>, latest: seq<(string, int)>) {
    && |latest| == |started|
    && forall i | 0 <= i < |started| ::
         && started[i] in series && series[started[i]] != []
         && latest[i] == (started[i], series[started[i]][|series[started[i]]| - 1].closeTime)
  }

  lemma StartedAppend(targets: seq<string>, t: string, series: map<string, seq<Candle>>)
    requires t in series && forall u | u in targets :: u in series
    ensures Started(targets + [t], series) == Started(targets, series) + if series[t] == [] then [] else [t]
  {
    if targets != [] {
      assert (targets + [t])[1..] == targets[1..] + [t];
      StartedAppend(targets[1..], t, series);
    }
  }

  lemma {:induction false} LatestAreLast(
    targets: seq<string>, counts: map<string, nat>, spans: map<string, int>, s: seq<Candle>,
    series: map<string, seq<Candle>>)
    requires Covers(targets, counts, spans)
    requires forall t | t in targets :: t in series && series[t] == TargetSeries(s, t, counts[t], spans[t])
    ensures ClosesOf(Started(targets, series), series, LatestCloses(targets, counts, spans, s))
  {
    hide TargetSeries;
    if targets != [] {
      assert targets == Init(targets) + [Last(targets)];
      LatestAreLast(Init(targets), counts, spans, s, series);
      StartedAppend(Init(targets), Last(targets), series);
    }
  }

  class Cursor {
    const config: Config
    const d: int
    const spans: map<string, int>
    const counts: map<string, nat>
    var symbol: Option<string>
    var lastSource: Option<Candle>
    var sourceCount: nat
    var asOf: Option<int>
    var series: map<string, seq<Candle>>
    var pending: map<string, Option<(int, seq<Candle>)>>
    var sourceHasher: Digest
    var targetHashers: map<string, Digest>

    /** Every candle accepted so far. */
    ghost var pushed: seq<Candle>

    ghost predicate Configured() {
      && ConfigFault(config).None?
      && Interval(config.source) == Some(d)
      && (forall t | t in config.targets ::
            && t in spans && t in counts && TargetFault(t, d).None?
            && counts[t] == CountOf(t, d) && Usable(t, d, counts[t], spans[t]))
    }

    ghost predicate SourceState()
      reads this
    {
      && AllWellFormed(pushed)
      && sourceCount == |pushed|
      && sourceHasher == SeriesFingerprint(pushed)
      && (pushed == [] ==> symbol.None? && lastSource.None? && asOf.None?)
      && (pushed != [] ==>
            && ValidSource(pushed) && pushed[0].timeframe == config.source
            && symbol == Some(pushed[0].symbol)
            && lastSource == Some(Last(pushed)) && asOf == Some(Last(pushed).closeTime))
    }

    /** Target `t` reflects exactly the source candles `s`. */
    ghost predicate Reflects(t: string, s: seq<Candle>)
      requires Configured() && t in config.targets
      reads this`series, this`pending, this`targetHashers
    {
      && t in series && t in pending && t in targetHashers
      && series[t] == TargetSeries(s, t, counts[t], spans[t])
      && pending[t] == PendingEntry(s, counts[t], spans[t])
      && targetHashers[t] == Digest(SERIES_HEADER + t, series[t])
    }

    ghost predicate Valid()
      reads this
    {
      && Configured() && SourceState()
      && series.Keys == (set t | t in config.targets)
      && (forall t | t in config.targets :: Reflects(t, pushed))
    }

    lemma UsableMeans(target: string, d: int, n: nat, span: int)
      requires Usable(target, d, n, span)
      ensures IsSpan(span) && n >= 1
    {
    }

    constructor (c: Config)
      requires ConfigFault(c).None?
      ensures Valid() && config == c && pushed == []
    {
      hide TargetFault, CountOf, Interval, TargetSeries, PendingEntry, Fits, ConfigFault, ValidSource, WellFormed,
        Usable;
      config := c;
      var span := Interval(c.source).value;
      d := span;
      AllUsable(c, span);
      spans := map t | t in c.targets :: Interval(t).value;
      counts := map t | t in c.targets :: CountOf(t, span);
      symbol, lastSource, sourceCount, asOf := None, None, 0, None;
      series := map t | t in c.targets :: [];
      pending := map t | t in c.targets :: None;
      sourceHasher := Digest(SOURCE_HEADER, []);
      targetHashers := map t | t in c.targets :: Digest(SERIES_HEADER + t, []);
      pushed := [];
      new;
      hide ValidSource, NoRepeats;
      assert Configured();
      assert SourceState();
      forall t | t in config.targets ensures Reflects(t, []) {
        UsableMeans(t, d, counts[t], spans[t]);
        NothingYet(t, counts[t], spans[t]);
      }
    }

    /** Every configured series, in terms of the accepted candles alone. */
    lemma ConfiguredFollows(t: string)
      requires Valid() && t in config.targets
      ensures d > 0 && Follows(pushed, t, d, series[t])
      ensures forall c | c in series[t] :: Denotes(Normalize(t), c.closeTime - c.openTime)
    {
      hide Normalize, Follows, Denotes, TargetSeries, Interval, ConfigFault, TargetFault, Times, CountOf;
      assert Reflects(t, pushed);
      SeriesFollows(pushed, t, d, counts[t], spans[t]);
    }

    lemma AllFollow()
      requires Valid()
      ensures forall t | t in config.targets ::
                && d > 0 && Follows(pushed, t, d, series[t])
                && forall c | c in series[t] :: Denotes(Normalize(t), c.closeTime - c.openTime)
    {
      hide Normalize, Follows, Denotes, TargetSeries, Interval, ConfigFault, TargetFault, Times, CountOf;
      forall t | t in config.targets
        ensures d > 0 && Follows(pushed, t, d, series[t])
        ensures forall c | c in series[t] :: Denotes(Normalize(t), c.closeTime - c.openTime)
      {
        ConfiguredFollows(t);
      }
    }

    /** `series(timeframe)`. */
    method Series(timeframe: string) returns (r: Result<seq<Candle>, MtfError>)
      requires Valid()
      ensures r.Ok? <==> Normalize(timeframe) in config.targets
      ensures r.Ok? ==>
                var t := Normalize(timeframe);
                r.value == TargetSeries(pushed, t, counts[t], spans[t])
      ensures r.Ok? ==> Follows(pushed, Normalize(timeframe), d, r.value)
      ensures r.Ok? ==> forall c | c in r.value :: Denotes(Normalize(timeframe), c.closeTime - c.openTime)
    {
      NormalizeIdempotent(timeframe);
      var key := Normalize(timeframe);
      if key in config.targets { ConfiguredFollows(key); }
      hide Follows, Denotes, Normalize;
      if key !in series { return Err(NotConfigured(timeframe)); }
      return Ok(series[key]);
    }

    method Emit(t: string, c: Candle)
      requires t in series && t in targetHashers
      modifies this`series, this`targetHashers
      ensures series == old(series)[t := old(series[t]) + [c]]
      ensures targetHashers == old(targetHashers)[t :=
                Digest(old(targetHashers[t]).header, old(targetHashers[t]).log + [c])]
    {
      series := series[t := series[t] + [c]];
      targetHashers := targetHashers[t := Digest(targetHashers[t].header, targetHashers[t].log + [c])];
    }

    /** One round of the loop over targets. */
    method Feed(t: string, c: Candle, ghost before: seq<Candle>) returns (emitted: bool)
      requires Configured() && t in config.targets && Reflects(t, before)
      requires Grid(before + [c], d) && c.isClosed
      modifies this`series, this`pending, this`targetHashers
      ensures Reflects(t, before + [c])
      ensures emitted <==> Emits(before + [c], counts[t], spans[t])
      ensures series.Keys == old(series).Keys
      ensures forall u, h | u in config.targets && u != t && old(Reflects(u, h)) :: Reflects(u, h)
    {
      var span, expected := spans[t], counts[t];
      if expected == 1 {
        Emit(t, c.(timeframe := t, isClosed := true));
        assert Relabeled(before + [c], t) == Relabeled(before, t) + [c.(timeframe := t, isClosed := true)];
        return true;
      }
      FeedStep(before, c, t, d, expected, span);
      var start := BucketStart(c.openTime, span);
      var bucket :=
        if pending[t].None? || pending[t].value.0 != start then [c] else pending[t].value.1 + [c];
      if c.closeTime != start + span {
        pending := pending[t := Some((start, bucket))];
        return false;
      }
      pending := pending[t := None];
      if |bucket| != expected || bucket[0].openTime != start || Last(bucket).closeTime != start + span {
        return false;
      }
      Emit(t, Aggregate(bucket, t, start, span));
      return true;
    }

    /** The loop of `push` over the configured targets. */
    method FeedAll(c: Candle, ghost before: seq<Candle>) returns (emitted: seq<string>)
      requires Configured() && Grid(before + [c], d) && c.isClosed
      requires forall t | t in config.targets :: Reflects(t, before)
      modifies this`series, this`pending, this`targetHashers
      ensures series.Keys == old(series).Keys
      ensures forall t | t in config.targets :: Reflects(t, before + [c])
      ensures emitted == EmittedTargets(config.targets, before + [c], counts, spans)
    {
      hide Reflects, Emits, TargetFault, CountOf, Grid, ConfigFault, Interval, Times, NoRepeats;
      emitted := [];
      for i := 0 to |config.targets|
        invariant series.Keys == old(series).Keys
        invariant forall j | 0 <= j < i :: Reflects(config.targets[j], before + [c])
        invariant forall j | i <= j < |config.targets| :: Reflects(config.targets[j], before)
        invariant emitted == EmittedTargets(config.targets[..i], before + [c], counts, spans)
      {
        var t := config.targets[i];
        DistinctTarget(i);
        var fired := Feed(t, c, before);
        if fired { emitted := emitted + [t]; }
        EmittedNext(config.targets, i, before + [c], counts, spans);
      }
      assert config.targets[..|config.targets|] == config.targets;
    }

    lemma DistinctTarget(i: nat)
      requires Configured() && i < |config.targets|
      ensures forall j | 0 <= j < |config.targets| && j != i :: config.targets[j] != config.targets[i]
    {
    }

    /** The series a target has after the candles `s`. */
    ghost predicate HasSeries(s: seq<Candle>, t: string, out: seq<Candle>)
      requires Configured() && t in config.targets
    {
      out == TargetSeries(s, t, counts[t], spans[t])
    }

    lemma AllHaveSeries()
      requires Valid()
      ensures forall t | t in config.targets :: t in series && HasSeries(pushed, t, series[t])
    {
      hide TargetSeries, ConfigFault, TargetFault, CountOf, Interval;
      forall t | t in config.targets ensures t in series && HasSeries(pushed, t, series[t]) {
        assert Reflects(t, pushed);
      }
    }

    /** What the loop leaves behind, target by target. */
    lemma AfterPush(c: Candle, before: seq<Candle>, earlier: map<string, seq<Candle>>, emitted: seq<string>)
      requires Valid() && pushed == before + [c]
      requires forall t | t in config.targets :: t in earlier && HasSeries(before, t, earlier[t])
      requires emitted == EmittedTargets(config.targets, pushed, counts, spans)
      ensures forall t | t in config.targets ::
                && earlier[t] <= series[t]
                && |series[t]| == |earlier[t]| + (if t in emitted then 1 else 0)
    {
      hide TargetSeries, EmittedTargets, Emits, Normalize, ConfigFault, TargetFault, CountOf, Interval;
      forall t | t in config.targets
        ensures earlier[t] <= series[t] && |series[t]| == |earlier[t]| + (if t in emitted then 1 else 0)
      {
        assert Reflects(t, pushed);
        SeriesGrows(before, c, t, counts[t], spans[t]);
        EmittedExactly(config.targets, pushed, counts, spans, t);
      }
    }

    /** The part of `push` behind its checks: hashes and counts the candle, then feeds every target. */
    method Consume(c: Candle) returns (emitted: seq<string>)
      requires Valid() && WellFormed(c) && c.timeframe == config.source && ValidSource(pushed + [c])
      requires Grid(pushed + [c], d)
      modifies this
      ensures Valid() && pushed == old(pushed) + [c]
      ensures emitted == EmittedTargets(config.targets, pushed, counts, spans)
      ensures forall t | t in config.targets ::
                && old(series)[t] <= series[t]
                && |series[t]| == |old(series)[t]| + (if t in emitted then 1 else 0)
    {
      hide Reflects, TargetFault, CountOf, Grid, ConfigFault, EmittedTargets, ValidSource, Times, Uniform, Normalize,
        Interval, HasSeries;
      AllHaveSeries();
      ghost var before := pushed;
      if symbol.None? { symbol := Some(c.symbol); }
      sourceHasher := Digest(sourceHasher.header, sourceHasher.log + [c]);
      sourceCount := sourceCount + 1;
      asOf := Some(c.closeTime);
      lastSource := Some(c);
      pushed := before + [c];
      LastOfSource(before, c);

      emitted := FeedAll(c, before);
      AfterPush(c, before, old(series), emitted);
    }

    lemma LastOfSource(before: seq<Candle>, c: Candle)
      requires ValidSource(before + [c])
      ensures c.isClosed
      ensures before != [] ==> (before + [c])[0] == before[0] && c.symbol == before[0].symbol
    {
      assert (before + [c])[|before|] == c;
    }

    /** Consumes the next closed source candle and returns the timeframes that emitted one. */
    method Push(c: Candle) returns (r: Result<seq<string>, MtfError>)
      requires Valid() && WellFormed(c)
      modifies this
      ensures Valid()
      ensures r.Ok? <==> c.timeframe == config.source && ValidSource(old(pushed) + [c])
      ensures r.Err? ==> unchanged(this) && PushComplaint(config.source, d, pushed, c, r.error)
      ensures r.Ok? ==> pushed == old(pushed) + [c]
      ensures r.Ok? ==> r.value == EmittedTargets(config.targets, pushed, counts, spans)
      ensures r.Ok? ==> forall t | t in config.targets ::
                && old(series)[t] <= series[t]
                && |series[t]| == |old(series)[t]| + (if t in r.value then 1 else 0)
      ensures forall t | t in config.targets ::
                && d > 0 && Follows(pushed, t, d, series[t])
                && forall c | c in series[t] :: Denotes(Normalize(t), c.closeTime - c.openTime)
    {
      hide Reflects, TargetFault, CountOf, Grid, ConfigFault, EmittedTargets, ValidSource, Times, Uniform, Follows,
        Denotes, Normalize, Interval;
      if c.timeframe == config.source { AcceptedExactly(pushed, c, d); }
      AllFollow();
      if c.timeframe != config.source { return Err(WrongSourceTimeframe); }
      if !c.isClosed { return Err(UnclosedCandle); }
      if c.closeTime - c.openTime != d { return Err(WrongDuration); }
      if symbol.Some? && c.symbol != symbol.value { return Err(MixedSymbol); }
      if lastSource.Some? {
        if c.openTime != lastSource.value.openTime + d { return Err(GapInSource); }
        if lastSource.value.closeTime != c.openTime { return Err(BrokenBoundary); }
      }
      var emitted := Consume(c);
      AllFollow();
      return Ok(emitted);
    }

    lemma AllReport()
      requires Valid()
      ensures Reports(config.targets, series, SeriesDigests(config.targets, counts, spans, pushed),
                SeriesSizes(config.targets, counts, spans, pushed), LatestCloses(config.targets, counts, spans, pushed))
    {
      hide TargetSeries, ConfigFault, TargetFault, CountOf, Interval, Reports, ValidSource;
      forall t | t in config.targets ensures t in series && series[t] == TargetSeries(pushed, t, counts[t], spans[t]) {
        assert Reflects(t, pushed);
      }
      ListsReport(config.targets, counts, spans, pushed, series);
    }

    /** The three loops of `state` over the targets. */
    method StateLists() returns (digests: seq<(string, Digest, nat)>, sizes: seq<(string, nat)>, latest: seq<(string, int)>)
      requires Valid()
      ensures digests == SeriesDigests(config.targets, counts, spans, pushed)
      ensures sizes == SeriesSizes(config.targets, counts, spans, pushed)
      ensures latest == LatestCloses(config.targets, counts, spans, pushed)
    {
      hide TargetSeries, PendingEntry, TargetFault, CountOf, ConfigFault, Interval, ValidSource, Times;
      digests, sizes, latest := [], [], [];
      for i := 0 to |config.targets|
        invariant digests == SeriesDigests(config.targets[..i], counts, spans, pushed)
        invariant sizes == SeriesSizes(config.targets[..i], counts, spans, pushed)
        invariant latest == LatestCloses(config.targets[..i], counts, spans, pushed)
      {
        var t := config.targets[i];
        assert Init(config.targets[..i + 1]) == config.targets[..i];
        assert Reflects(t, pushed);
        digests := digests + [(t, targetHashers[t], |series[t]|)];
        sizes := sizes + [(t, |series[t]|)];
        if series[t] != [] { latest := latest + [(t, Last(series[t]).closeTime)]; }
      }
      assert config.targets[..|config.targets|] == config.targets;
    }

    /** `state()`: a function of the configuration and the accepted candles alone. */
    method State() returns (r: Result<CursorState, MtfError>)
      requires Valid()
      ensures r.Err? <==> pushed == []
      ensures r.Ok? ==> r.value == StateOf(config, counts, spans, pushed)
      ensures r.Ok? ==>
                && r.value.symbol == pushed[0].symbol && r.value.sourceTimeframe == config.source
                && r.value.sourceCount == |pushed| && r.value.asOf == pushed[|pushed| - 1].closeTime
                && r.value.targets == config.targets && r.value.policy == config.policy
                && r.value.sourceFingerprint == Digest("money-heist.visible-source-candles.v1", pushed)
                && Reports(config.targets, series, r.value.seriesFingerprints, r.value.candleCounts,
                           r.value.latestCloseTimes)
    {
      hide TargetSeries, PendingEntry, TargetFault, CountOf, ConfigFault, Interval, ValidSource, Times;
      if symbol.None? || asOf.None? || sourceCount == 0 { return Err(NothingConsumed); }
      AllReport();
      var digests, sizes, latest := StateLists();
      hide Reports, SeriesDigests, SeriesSizes, LatestCloses;
      return Ok(CursorState(
        symbol.value, config.source, sourceCount, config.targets, asOf.value, config.policy,
        sourceHasher, digests, sizes, latest));
    }
  }

  /** The constructor as callers see it: arguments are normalised, then checked. */
  method Create(source: string, targets: seq<string>, policy: string) returns (r: Result<Cursor, MtfError>)
    ensures var c := Config(Normalize(source), NormalizeAll(targets), Strip(policy));
            match ConfigFault(c)
            case Some(e) => r == Err(e)
            case None => r.Ok? && fresh(r.value) && r.value.Valid() && r.value.config == c && r.value.pushed == []
    ensures r.Ok? <==>
              exists d: int :: d > 0 && Denotes(Normalize(source), d) && Acceptable(NormalizeAll(targets), Strip(policy), d)
    ensures r.Err? ==> ConfigComplaint(Config(Normalize(source), NormalizeAll(targets), Strip(policy)), r.error)
  {
    var c := Config(Normalize(source), NormalizeAll(targets), Strip(policy));
    NormalizeIdempotent(source);
    AllAreNormalized(targets);
    ConfigFaultExactly(c);
    hide Normalize, NormalizeAll, Strip, Denotes, Acceptable, ConfigComplaint, ConfigFault, AllNormalized;
    var fault := ConfigFault(c);
    if fault.Some? { return Err(fault.value); }
    var cursor := new Cursor(c);
    return Ok(cursor);
  }

  /** Feeding a whole series: it is consumed to the end exactly when it is a valid source. */
  method Replay(c: Config, candles: seq<Candle>) returns (cursor: Cursor, consumed: bool)
    requires ConfigFault(c).None? && AllWellFormed(candles)
    ensures cursor.Valid() && cursor.config == c && cursor.pushed <= candles
    ensures consumed <==> candles == [] || (ValidSource(candles) && candles[0].timeframe == c.source)
    ensures consumed ==> cursor.pushed == candles
  {
    hide ConfigFault, ValidSource;
    cursor := new Cursor(c);
    for i := 0 to |candles|
      invariant fresh(cursor) && cursor.Valid() && cursor.config == c && cursor.pushed == candles[..i]
    {
      var r := cursor.Push(candles[i]);
      assert candles[..i] + [candles[i]] == candles[..i + 1];
      if r.Err? {
        if ValidSource(candles) && candles[0].timeframe == c.source { ValidPrefix(candles, i + 1); }
        return cursor, false;
      }
    }
    assert candles[..|candles|] == candles;
    return cursor, true;
  }

  lemma ValidPrefix(s: seq<Candle>, k: nat)
    requires 0 < k <= |s| && ValidSource(s)
    ensures ValidSource(s[..k]) && s[..k][0] == s[0] && s[k - 1].timeframe == s[0].timeframe
  {
    GridSlice(s, Interval(s[0].timeframe).value, 0, k);
  }
}
