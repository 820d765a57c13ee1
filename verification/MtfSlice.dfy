/**
 `build_historical_mtf_slice`: every configured timeframe as it could be known at one instant.
 The laws say what the instant hides (nothing that closes later can matter, with one exact
 exception), what a later instant adds, and that the slice is what the cursor holds.
 */
module MtfSlice {
  import opened Wrappers
  import opened Sequences
  import opened Timeframes
  import opened Buckets
  import opened Candles
  import opened Resampling
  import opened ResampledLaws
  import opened BatchResampler
  import opened MtfConfig
  import opened MtfCursor

  datatype Slice = Slice(
    symbol: string,
    sourceTimeframe: string,
    sourceCount: nat,
    sourceFingerprint: Digest,
    targets: seq<string>,
    asOf: int,
    policy: string,
    candles: map<string, seq<Candle>>)

  /** The checks on the arguments, in the order the source makes them, once candles are visible. */
  function ArgumentFault(policy: string, targets: seq<string>, d: int): Option<MtfError>
    requires d > 0
  {
    if policy == "" then Some(BlankPolicy)
    else if targets == [] then Some(NoTargets)
    else if "" in targets then Some(BlankTarget)
    else if !NoRepeats(targets) then Some(DuplicateTargets)
    else TargetsFault(targets, d)
  }

  /** What a complaint about the arguments says: the checks before it passed and this one did not. */
  ghost predicate ArgumentComplaint(policy: string, targets: seq<string>, d: int, e: MtfError)
    requires d > 0
  {
    match e
    case BlankPolicy => policy == ""
    case NoTargets => policy != "" && targets == []
    case BlankTarget => policy != "" && "" in targets
    case DuplicateTargets => policy != "" && "" !in targets && !NoRepeats(targets)
    case _ =>
      && policy != "" && targets != [] && "" !in targets && NoRepeats(targets)
      && FirstComplaint(targets, d, e)
  }

  lemma ArgumentFaultExactly(policy: string, targets: seq<string>, d: int)
    requires d > 0 && AllNormalized(targets)
    ensures ArgumentFault(policy, targets, d).None? <==> Acceptable(targets, policy, d)
    ensures ArgumentFault(policy, targets, d).Some? ==>
              ArgumentComplaint(policy, targets, d, ArgumentFault(policy, targets, d).value)
  {
    TargetsFaultExactly(targets, d);
    hide TargetsFault, FirstComplaint, Reachable;
  }

  function BuiltSeries(visible: seq<Candle>, t: string): seq<Candle>
    requires ValidSource(visible)
  {
    var r := ResampleVisible(visible, t);
    if r.Ok? then r.value else []
  }

  function SliceOf(visible: seq<Candle>, asOf: int, targets: seq<string>, policy: string): Result<Slice, MtfError>
    requires ValidSource(visible)
  {
    var keys, trimmed := NormalizeAll(targets), Strip(policy);
    var fault := ArgumentFault(trimmed, keys, Interval(visible[0].timeframe).value);
    if fault.Some? then Err(fault.value)
    else Ok(Slice(
      visible[0].symbol, visible[0].timeframe, |visible|, SeriesFingerprint(visible), keys, asOf, trimmed,
      map t | t in keys :: BuiltSeries(visible, t)))
  }

  function SliceResult(s: seq<Candle>, asOf: int, targets: seq<string>, policy: string): Result<Slice, MtfError> {
    var visible := VisibleSource(s, Some(asOf));
    if visible.Err? then Err(visible.error)
    else if visible.value == [] then Err(NothingVisible)
    else
      VisibleIsValid(s, Some(asOf));
      SliceOf(visible.value, asOf, targets, policy)
  }

  /** Resampling the already validated prefix again cannot fail for a checked target. */
  lemma RebuiltFromVisible(visible: seq<Candle>, target: string, d: int)
    requires ValidSource(visible) && Interval(visible[0].timeframe) == Some(d)
    requires TargetFault(Normalize(target), d).None?
    ensures ResampleResult(visible, Normalize(target), None) == Ok(BuiltSeries(visible, Normalize(target)))
  {
    SourceCheckExact(visible);
    NormalizeIdempotent(target);
  }

  /** A slice in terms of the visible candles alone. */
  ghost predicate Shows(
    slice: Slice, visible: seq<Candle>, d: int, asOf: int, targets: seq<string>, policy: string)
    requires d > 0 && visible != []
  {
    && slice.symbol == visible[0].symbol && slice.sourceTimeframe == visible[0].timeframe
    && slice.sourceCount == |visible| && slice.asOf == asOf && slice.policy == policy
    && slice.sourceFingerprint == Digest("money-heist.visible-source-candles.v1", visible)
    && slice.targets == targets && slice.candles.Keys == (set t | t in targets)
    && forall t | t in targets :: Answers(visible, t, d, Ok(slice.candles[t]))
  }

  lemma SliceShows(visible: seq<Candle>, d: int, asOf: int, targets: seq<string>, policy: string)
    requires ValidSource(visible) && Interval(visible[0].timeframe) == Some(d)
    ensures var keys, r := NormalizeAll(targets), SliceOf(visible, asOf, targets, policy);
            && (r.Ok? <==> Acceptable(keys, Strip(policy), d))
            && (r.Err? ==> ArgumentComplaint(Strip(policy), keys, d, r.error))
            && (r.Ok? ==> Shows(r.value, visible, d, asOf, keys, Strip(policy)))
  {
    var keys, r := NormalizeAll(targets), SliceOf(visible, asOf, targets, policy);
    AllAreNormalized(targets);
    ArgumentFaultExactly(Strip(policy), keys, d);
    hide Interval, Normalize, NormalizeAll, Acceptable, ArgumentComplaint, ArgumentFault, ResampleVisible, Strip;
    if r.Ok? {
      forall t | t in keys ensures Answers(visible, t, d, Ok(r.value.candles[t])) {
        KeyAnswers(visible, t, d);
      }
    }
    hide Answers;
  }

  lemma KeyAnswers(visible: seq<Candle>, t: string, d: int)
    requires ValidSource(visible) && Interval(visible[0].timeframe) == Some(d) && Normalize(t) == t
    requires Reachable(t, d)
    ensures Answers(visible, t, d, Ok(BuiltSeries(visible, t)))
  {
    VisibleAnswers(visible, t, d);
    hide Interval, Normalize, Denotes, ResampleVisible, DerivedFrom;
    var span: int :| Denotes(t, span) && span >= d && span % d == 0;
    assert AnswersSpan(visible, t, d, span, ResampleVisible(visible, t));
  }

  lemma ResultShows(s: seq<Candle>, asOf: int, targets: seq<string>, policy: string)
    ensures var visible, r := VisiblePrefix(s, asOf), SliceResult(s, asOf, targets, policy);
            && (visible != [] && !ValidSource(visible) ==> r.Err? && Refused(visible, r.error))
            && (ValidSource(visible) ==>
                  var d, keys := Interval(visible[0].timeframe).value, NormalizeAll(targets);
                  && (r.Ok? <==> Acceptable(keys, Strip(policy), d))
                  && (r.Err? ==> ArgumentComplaint(Strip(policy), keys, d, r.error))
                  && (r.Ok? ==> Shows(r.value, visible, d, asOf, keys, Strip(policy))))
  {
    var visible := VisiblePrefix(s, asOf);
    hide Refused, Acceptable, ArgumentComplaint, Shows, SliceOf, Interval, NormalizeAll, Strip;
    SourceCheckExact(visible);
    if ValidSource(visible) {
      SliceShows(visible, Interval(visible[0].timeframe).value, asOf, targets, policy);
    } else if visible != [] {
      RefusedForFirstBroken(visible);
    }
  }

  method BuildHistoricalMtfSlice(s: seq<Candle>, asOf: int, targets: seq<string>, policy: string)
    returns (r: Result<Slice, MtfError>)
    ensures r == SliceResult(s, asOf, targets, policy)
    ensures s == [] ==> r == Err(EmptySource)
    ensures s != [] && VisiblePrefix(s, asOf) == [] ==> r == Err(NothingVisible)
    ensures var visible := VisiblePrefix(s, asOf);
            && (visible != [] && !ValidSource(visible) ==> r.Err? && Refused(visible, r.error))
            && (ValidSource(visible) ==>
                  var d, keys := Interval(visible[0].timeframe).value, NormalizeAll(targets);
                  && (r.Ok? <==> Acceptable(keys, Strip(policy), d))
                  && (r.Err? ==> ArgumentComplaint(Strip(policy), keys, d, r.error))
                  && (r.Ok? ==> Shows(r.value, visible, d, asOf, keys, Strip(policy))))
  {
    ResultShows(s, asOf, targets, policy);
    hide Refused, Acceptable, ArgumentComplaint, Shows;
    var read := ReadVisibleSource(s, Some(asOf));
    if read.Err? { return Err(read.error); }
    var visible := read.value;
    if visible == [] { return Err(NothingVisible); }
    VisibleIsValid(s, Some(asOf));
    var keys, trimmed := NormalizeAll(targets), Strip(policy);
    var d := Interval(visible[0].timeframe).value;
    var fault := ArgumentFault(trimmed, keys, d);
    if fault.Some? { return Err(fault.value); }
    TargetsFaultNone(keys, d);
    SourceCheckExact(visible);
    var built := BuildAll(visible, targets, keys, d);
    return Ok(Slice(
      visible[0].symbol, visible[0].timeframe, |visible|, SeriesFingerprint(visible), keys, asOf, trimmed, built));
  }

  method BuildOne(visible: seq<Candle>, target: string, d: int) returns (series: seq<Candle>)
    requires ValidSource(visible) && Interval(visible[0].timeframe) == Some(d)
    requires TargetFault(Normalize(target), d).None?
    ensures series == BuiltSeries(visible, Normalize(target))
  {
    hide TargetFault, Interval, ValidSource, Normalize, ResampleResult, BuiltSeries;
    RebuiltFromVisible(visible, target, d);
    var out := ResampleClosedCandles(visible, Normalize(target), None);
    return out.value;
  }

  /** The dictionary of target series. */
  method BuildAll(visible: seq<Candle>, targets: seq<string>, keys: seq<string>, d: int)
    returns (built: map<string, seq<Candle>>)
    requires ValidSource(visible) && Interval(visible[0].timeframe) == Some(d) && keys == NormalizeAll(targets)
    requires forall i | 0 <= i < |keys| :: TargetFault(keys[i], d).None?
    ensures built == map t | t in keys :: BuiltSeries(visible, t)
  {
    hide TargetFault, Interval, ValidSource, Normalize, BuiltSeries;
    built := map[];
    for i := 0 to |keys|
      invariant built == map t | t in keys[..i] :: BuiltSeries(visible, t)
    {
      var series := BuildOne(visible, targets[i], d);
      assert keys[..i + 1] == keys[..i] + [keys[i]];
      built := built[keys[i] := series];
    }
    assert keys[..|keys|] == keys;
  }

  // ---------------------------------------------------------------- no look-ahead

  /**
   Two inputs with the same visible prefix give the same slice or the same error, whatever
   follows that prefix, unless nothing is visible and exactly one of them is empty: an empty
   input is reported differently from one whose first candle closes too late.
   */
  lemma NoLookAhead(s: seq<Candle>, u: seq<Candle>, asOf: int, targets: seq<string>, policy: string)
    requires VisiblePrefix(s, asOf) == VisiblePrefix(u, asOf)
    ensures SliceResult(s, asOf, targets, policy) == SliceResult(u, asOf, targets, policy)
            <==> (VisiblePrefix(s, asOf) != [] || (s == [] <==> u == []))
  {
  }

  /** The exception is real. */
  lemma EmptyInputIsDistinguishable(c: Candle, targets: seq<string>, policy: string)
    ensures VisiblePrefix([c], c.closeTime - 1) == VisiblePrefix([], c.closeTime - 1)
    ensures SliceResult([c], c.closeTime - 1, targets, policy) == Err(NothingVisible)
    ensures SliceResult([], c.closeTime - 1, targets, policy) == Err(EmptySource)
  {
  }

  lemma {:induction false} LaterCutoffSeesMore(s: seq<Candle>, early: int, late: int)
    requires early <= late
    ensures VisiblePrefix(s, early) <= VisiblePrefix(s, late)
  {
    if s != [] && s[0].closeTime <= early { LaterCutoffSeesMore(s[1..], early, late); }
  }

  /** What the series of a successful slice are built from. */
  lemma SliceSeries(s: seq<Candle>, asOf: int, targets: seq<string>, policy: string)
    requires SliceResult(s, asOf, targets, policy).Ok?
    ensures ValidSource(VisiblePrefix(s, asOf))
    ensures var v, candles := VisiblePrefix(s, asOf), SliceResult(s, asOf, targets, policy).value.candles;
            && candles.Keys == (set t | t in NormalizeAll(targets))
            && (forall t | t in candles :: candles[t] == BuiltSeries(v, t))
  {
    VisibleIsValid(s, Some(asOf));
  }

  lemma BuiltSeriesGrows(a: seq<Candle>, b: seq<Candle>, t: string)
    requires ValidSource(a) && ValidSource(b) && a <= b
    ensures BuiltSeries(a, t) <= BuiltSeries(b, t)
  {
    var d, key := Interval(a[0].timeframe).value, Normalize(t);
    var span := Interval(key);
    if span.Some? && span.value > d && span.value % d == 0 {
      CountFits(d, span.value);
      assert b == a + b[|a|..];
      ExtensionOnlyAppends(a, b[|a|..], key, span.value / d, span.value);
    }
  }

  /** Over a valid source, a slice that could be built at one instant can be built at every later one. */
  lemma LaterCutoffSucceeds(s: seq<Candle>, early: int, late: int, targets: seq<string>, policy: string)
    requires ValidSource(s) && early <= late && SliceResult(s, early, targets, policy).Ok?
    ensures SliceResult(s, late, targets, policy).Ok?
  {
    hide Interval, BuiltSeries, ArgumentFault, NormalizeAll;
    LaterCutoffSeesMore(s, early, late);
    var seen, more := VisiblePrefix(s, early), VisiblePrefix(s, late);
    PrefixOfVisible(s, late);
    ValidPrefix(s, |more|);
    SourceCheckExact(more);
    assert seen[0] == more[0];
  }

  lemma {:induction false} PrefixOfVisible(s: seq<Candle>, cutoff: int)
    ensures VisiblePrefix(s, cutoff) <= s && VisiblePrefix(s, cutoff) == s[..|VisiblePrefix(s, cutoff)|]
  {
    if s != [] && s[0].closeTime <= cutoff { PrefixOfVisible(s[1..], cutoff); }
  }

  /** A later cutoff only appends candles to each target series; nothing already shown changes. */
  lemma LaterCutoffOnlyAppends(
    s: seq<Candle>, early: int, late: int, targets: seq<string>, policy: string, t: string)
    requires early <= late && SliceResult(s, early, targets, policy).Ok?
    requires ValidSource(s) || SliceResult(s, late, targets, policy).Ok?
    requires t in SliceResult(s, early, targets, policy).value.candles
    ensures SliceResult(s, late, targets, policy).Ok?
    ensures t in SliceResult(s, late, targets, policy).value.candles
    ensures SliceResult(s, early, targets, policy).value.candles[t]
            <= SliceResult(s, late, targets, policy).value.candles[t]
  {
    hide SliceResult, ValidSource, BuiltSeries, NormalizeAll;
    if ValidSource(s) { LaterCutoffSucceeds(s, early, late, targets, policy); }
    SliceSeries(s, early, targets, policy);
    SliceSeries(s, late, targets, policy);
    LaterCutoffSeesMore(s, early, late);
    BuiltSeriesGrows(VisiblePrefix(s, early), VisiblePrefix(s, late), t);
  }

  /** Every candle of a built series closes together with some source candle. */
  lemma BuiltCandleCloses(v: seq<Candle>, t: string, c: Candle)
    requires ValidSource(v) && c in BuiltSeries(v, t)
    ensures exists i :: 0 <= i < |v| && v[i].closeTime == c.closeTime
  {
    var d, key := Interval(v[0].timeframe).value, Normalize(t);
    var span := Interval(key).value;
    if span != d {
      CountFits(d, span);
      EmittedClose(v, key, d, span / d, span, c);
    }
  }

  lemma EmittedClose(v: seq<Candle>, key: string, d: int, n: nat, span: int, c: Candle)
    requires Grid(v, d) && Fits(d, n, span) && c in Resampled(v, key, n, span)
    ensures exists i :: 0 <= i < |v| && v[i].closeTime == c.closeTime
  {
    EmittedIsComplete(v, key, d, n, span, c);
    var i :| BucketAt(v, i, c, key, n, span);
    var u := v[..i + n];
    GridSlice(v, d, 0, i + n);
    TailOpens(u, d, n, span);
    assert Last(u) == v[i + n - 1];
  }

  /** No candle of a slice closes after its cutoff. */
  lemma NothingClosesAfterCutoff(
    s: seq<Candle>, asOf: int, targets: seq<string>, policy: string, t: string, c: Candle)
    requires SliceResult(s, asOf, targets, policy).Ok?
    requires t in SliceResult(s, asOf, targets, policy).value.candles
    requires c in SliceResult(s, asOf, targets, policy).value.candles[t]
    ensures c.closeTime <= asOf
  {
    SliceSeries(s, asOf, targets, policy);
    AllVisibleClose(s, asOf);
    BuiltCandleCloses(VisiblePrefix(s, asOf), t, c);
  }

  lemma {:induction false} AllVisibleClose(s: seq<Candle>, asOf: int)
    ensures forall i | 0 <= i < |VisiblePrefix(s, asOf)| :: VisiblePrefix(s, asOf)[i].closeTime <= asOf
  {
    if s != [] && s[0].closeTime <= asOf { AllVisibleClose(s[1..], asOf); }
  }

  // ---------------------------------------------------------------- slice and cursor

  lemma {:induction false} AllVisibleAtEnd(s: seq<Candle>, d: int, k: nat)
    requires Grid(s, d) && d > 0 && k < |s|
    ensures s[k].closeTime <= Last(s).closeTime
  {
    OpenAt(s, d, k, |s| - 1);
    MulMonotone(0, |s| - 1 - k, d);
  }

  /**
   The slice taken when the last candle closes reports the same source digest, count, symbol and
   instant as a cursor that consumed the same candles, and the same series for every target whose
   label is not an alias of the source's own length.
   */
  lemma SliceMatchesCursor(c: Config, s: seq<Candle>, t: string)
    requires ConfigFault(c).None? && ValidSource(s) && s[0].timeframe == c.source
    requires c.targets == NormalizeAll(c.targets) && c.policy == Strip(c.policy) && t in c.targets
    ensures var d := Interval(c.source).value;
            && TargetFault(t, d).None?
            && IsSpan(Interval(t).value) && CountOf(t, d) >= 1
            && SliceResult(s, Last(s).closeTime, c.targets, c.policy).Ok?
            && var slice := SliceResult(s, Last(s).closeTime, c.targets, c.policy).value;
               && slice.sourceFingerprint == SeriesFingerprint(s)
               && slice.sourceCount == |s| && slice.symbol == s[0].symbol && slice.asOf == Last(s).closeTime
               && t in slice.candles
               && (slice.candles[t] == TargetSeries(s, t, CountOf(t, d), Interval(t).value)
                   <==> !(CountOf(t, d) == 1 && t != c.source))
  {
    var d, asOf := Interval(c.source).value, Last(s).closeTime;
    forall i | 0 <= i < |s| ensures s[i].closeTime <= asOf {
      AllVisibleAtEnd(s, d, i);
    }
    VisiblePrefixAt(s, asOf, |s|);
    assert s[..|s|] == s;
    SourceCheckExact(s);
    AllUsable(c, d);
    var i :| 0 <= i < |c.targets| && c.targets[i] == t;
    assert Normalize(t) == t;
    MatchesBatch(s, t);
  }
}
