/**
 `build_market_structure_context`: one summary per configured timeframe, taken from a
 multi-timeframe cursor.  The only way it can fail is a mismatch of the observation time: what
 the cursor holds can never trip the summary's own look-ahead and closed-candle checks.
 */
module StructureContext {
  import opened Wrappers
  import opened Sequences
  import opened Timeframes
  import opened Buckets
  import opened Candles
  import opened Resampling
  import opened ResampledLaws
  import opened MtfConfig
  import opened MtfCursor
  import opened Structure

  datatype Context = Context(
    symbol: string,
    observedAt: int,
    summaries: map<string, TimeframeStructure>,
    missing: set<string>,
    incomplete: set<string>)

  datatype ContextError = NothingObserved | WrongObservationTime | LabelMismatch

  /** What a context says about one configured timeframe. */
  ghost predicate Describes(c: Context, cursor: Cursor, t: string, lookback: nat, span: nat)
    requires cursor.Valid() && t in cursor.config.targets && lookback >= 1
    reads cursor
  {
    var series := SeriesOf(cursor, t);
    && (t in c.missing <==> series == [])
    && (t in c.summaries <==> series != [])
    && (t in c.summaries ==>
          && SummaryOf(series, c.observedAt, lookback, span) == Ok(c.summaries[t])
          && (t in c.incomplete <==> c.summaries[t].missing != {}))
  }

  ghost predicate ClosedBy(s: seq<Candle>, time: int) {
    forall i | 0 <= i < |s| :: s[i].isClosed && s[i].closeTime <= time
  }

  lemma SourceClosedBy(s: seq<Candle>, d: int)
    requires Grid(s, d) && d > 0 && s != [] && (forall i | 0 <= i < |s| :: s[i].isClosed)
    ensures ClosedBy(s, Last(s).closeTime)
  {
    forall i | 0 <= i < |s| ensures s[i].closeTime <= Last(s).closeTime {
      OpenAt(s, d, i, |s| - 1);
      Longer(|s| - 1 - i, d);
    }
  }

  lemma Longer(steps: nat, d: int)
    requires d > 0
    ensures steps * d >= 0
  {
  }

  /** Everything resampled from a source is closed by the time the source's last candle closes. */
  lemma ResampledClosedBy(s: seq<Candle>, target: string, d: int, n: nat, span: int)
    requires Grid(s, d) && Fits(d, n, span) && s != [] && ClosedBy(s, Last(s).closeTime)
    ensures ClosedBy(Resampled(s, target, n, span), Last(s).closeTime)
  {
    var out := Resampled(s, target, n, span);
    forall k | 0 <= k < |out| ensures out[k].isClosed && out[k].closeTime <= Last(s).closeTime {
      EmittedIsComplete(s, target, d, n, span, out[k]);
      var i :| BucketAt(s, i, out[k], target, n, span);
      GridSlice(s, d, i, i + n);
      TailOpens(s[i..i + n], d, n, span);
      assert Last(s[i..i + n]) == s[i + n - 1];
    }
  }

  lemma SeriesClosedBy(s: seq<Candle>, target: string, d: int, n: nat, span: int)
    requires ValidSource(s) && Interval(s[0].timeframe) == Some(d) && Fits(d, n, span)
    ensures ClosedBy(TargetSeries(s, target, n, span), Last(s).closeTime)
  {
    SpanFacts(d, n, span);
    SourceClosedBy(s, d);
    ResampledClosedBy(s, target, d, n, span);
    hide Resampled;
  }

  lemma ClosedSeriesIsSummarised(s: seq<Candle>, observedAt: int, lookback: nat, span: nat)
    requires ClosedBy(s, observedAt) && lookback >= 1
    ensures SummaryOf(s, observedAt, lookback, span).Ok? <==> s != []
  {
  }

  /** The cursor's series of one configured timeframe. */
  ghost function SeriesOf(cursor: Cursor, t: string): seq<Candle>
    requires cursor.Valid() && t in cursor.config.targets
    reads cursor
  {
    TargetSeries(cursor.pushed, t, cursor.counts[t], cursor.spans[t])
  }

  /** Every candle of a target series carries the target's label. */
  lemma SeriesLabel(s: seq<Candle>, target: string, n: nat, span: int)
    requires ValidSource(s) && IsSpan(span) && n >= 1
    ensures forall i | 0 <= i < |TargetSeries(s, target, n, span)| :: TargetSeries(s, target, n, span)[i].timeframe == target
  {
    ResampledIsUniform(s, s[0].symbol, s[0].timeframe, target, n, span);
    hide Resampled;
  }

  lemma SummaryLabel(s: seq<Candle>, observedAt: int, lookback: nat, span: nat)
    requires lookback >= 1 && SummaryOf(s, observedAt, lookback, span).Ok?
    ensures s != [] && SummaryOf(s, observedAt, lookback, span).value.timeframe == Normalize(Last(s).timeframe)
  {
  }

  /** Every configured label with a series is its own normal form, so its summary is filed under it. */
  ghost predicate LabelsKept(cursor: Cursor)
    requires cursor.Valid()
    reads cursor
  {
    forall t | t in cursor.config.targets && SeriesOf(cursor, t) != [] :: Normalize(t) == t
  }

  /** A cursor that was created the ordinary way keeps its labels. */
  lemma CreatedLabelsAreKept(cursor: Cursor, targets: seq<string>)
    requires cursor.Valid() && cursor.config.targets == NormalizeAll(targets)
    ensures LabelsKept(cursor)
  {
    hide Cursor.Valid, SeriesOf;
    forall t | t in NormalizeAll(targets) ensures Normalize(t) == t {
      var i :| 0 <= i < |targets| && NormalizeAll(targets)[i] == t;
      NormalizeIdempotent(targets[i]);
    }
  }

  method SummariseTarget(cursor: Cursor, t: string, observedAt: int, lookback: nat, span: nat)
    returns (r: Option<TimeframeStructure>)
    requires cursor.Valid() && t in cursor.config.targets && lookback >= 2 && span >= 1
    requires cursor.pushed != [] && Last(cursor.pushed).closeTime == observedAt
    ensures r.None? <==> SeriesOf(cursor, t) == []
    ensures r.Some? ==> SummaryOf(SeriesOf(cursor, t), observedAt, lookback, span) == Ok(r.value)
    ensures r.Some? ==> r.value.timeframe == Normalize(t)
  {
    hide Cursor.Valid, SeriesOf, SummaryOf, Normalize, ClosedBy;
    SeriesFacts(cursor, t);
    var series := cursor.series[t];
    ClosedSeriesIsSummarised(series, observedAt, lookback, span);
    if series == [] { return None; }
    var summary := Summary(series, observedAt, lookback, span);
    SummaryLabel(series, observedAt, lookback, span);
    return Some(summary.value);
  }

  /** What the cursor's invariant says of one stored series. */
  lemma SeriesFacts(cursor: Cursor, t: string)
    requires cursor.Valid() && t in cursor.config.targets && cursor.pushed != []
    ensures t in cursor.series && cursor.series[t] == SeriesOf(cursor, t)
    ensures ClosedBy(cursor.series[t], Last(cursor.pushed).closeTime)
    ensures forall i | 0 <= i < |cursor.series[t]| :: cursor.series[t][i].timeframe == t
  {
    hide TargetSeries, ValidSource, Fits, TargetFault, ConfigFault, ClosedBy;
    assert cursor.Reflects(t, cursor.pushed);
    FitsMean(cursor.d, cursor.counts[t], cursor.spans[t]);
    SeriesClosedBy(cursor.pushed, t, cursor.d, cursor.counts[t], cursor.spans[t]);
    SeriesLabel(cursor.pushed, t, cursor.counts[t], cursor.spans[t]);
  }

  lemma FitsMean(d: int, n: nat, width: int)
    requires Fits(d, n, width)
    ensures IsSpan(width) && n >= 1
  {
  }

  function Extended(c: Context, t: string, summary: Option<TimeframeStructure>): Context {
    if summary.None? then c.(missing := c.missing + {t})
    else
      c.(summaries := c.summaries[t := summary.value],
         incomplete := if summary.value.missing != {} then c.incomplete + {t} else c.incomplete)
  }

  function Names(targets: seq<string>): set<string> {
    set t | t in targets
  }

  lemma ExtendedKeys(c: Context, t: string, summary: Option<TimeframeStructure>)
    requires c.incomplete <= c.summaries.Keys
    ensures var e := Extended(c, t, summary);
            && e.missing + e.summaries.Keys == c.missing + c.summaries.Keys + {t}
            && e.incomplete <= e.summaries.Keys && e.symbol == c.symbol && e.observedAt == c.observedAt
            && e.summaries == if summary.None? then c.summaries else c.summaries[t := summary.value]
  {
  }

  lemma ExtendedDescribes(
    c: Context, cursor: Cursor, t: string, summary: Option<TimeframeStructure>, lookback: nat, span: nat)
    requires cursor.Valid() && t in cursor.config.targets && lookback >= 1
    requires t !in c.missing && t !in c.summaries && t !in c.incomplete
    requires summary.None? <==> SeriesOf(cursor, t) == []
    requires summary.Some? ==> SummaryOf(SeriesOf(cursor, t), c.observedAt, lookback, span) == Ok(summary.value)
    ensures Describes(Extended(c, t, summary), cursor, t, lookback, span)
    ensures forall u | u in cursor.config.targets && u != t && Describes(c, cursor, u, lookback, span) ::
              Describes(Extended(c, t, summary), cursor, u, lookback, span)
  {
    hide SeriesOf, SummaryOf, Cursor.Valid;
  }

  /** What the context needs of `state()`. */
  method ObservedState(cursor: Cursor) returns (symbol: string, asOf: Option<int>)
    requires cursor.Valid()
    ensures asOf == if cursor.pushed == [] then None else Some(Last(cursor.pushed).closeTime)
    ensures asOf.Some? ==> symbol == cursor.pushed[0].symbol
  {
    hide TargetSeries, ValidSource, Fits, TargetFault, ConfigFault;
    var state := cursor.State();
    if state.Err? { return "", None; }
    return state.value.symbol, Some(state.value.asOf);
  }

  lemma TargetsDiffer(cursor: Cursor)
    requires cursor.Valid()
    ensures NoRepeats(cursor.config.targets)
  {
    hide TargetFault;
  }

  /** The check that each summary carries the label of its key. */
  lemma LabelsChecked(c: Context, cursor: Cursor, lookback: nat, span: nat)
    requires cursor.Valid() && lookback >= 1
    requires forall t | t in cursor.config.targets :: Describes(c, cursor, t, lookback, span)
    requires forall t | t in c.summaries :: t in cursor.config.targets && c.summaries[t].timeframe == Normalize(t)
    ensures LabelsKept(cursor) <==> forall t | t in c.summaries :: c.summaries[t].timeframe == t
  {
    hide Cursor.Valid, SeriesOf, SummaryOf, Normalize;
  }

  method BuildMarketStructureContext(cursor: Cursor, observedAt: int, lookback: nat, span: nat)
    returns (r: Result<Context, ContextError>)
    requires cursor.Valid() && lookback >= 2 && span >= 1
    ensures r.Ok? <==> cursor.pushed != [] && Last(cursor.pushed).closeTime == observedAt && LabelsKept(cursor)
    ensures r == Err(NothingObserved) <==> cursor.pushed == []
    ensures r == Err(WrongObservationTime) <==>
              cursor.pushed != [] && cursor.pushed[|cursor.pushed| - 1].closeTime != observedAt
    ensures r.Ok? ==> forall t | t in r.value.summaries :: r.value.summaries[t].timeframe == t
    ensures r.Ok? ==> r.value.symbol == cursor.pushed[0].symbol && r.value.observedAt == observedAt
    ensures r.Ok? ==> forall t | t in cursor.config.targets :: Describes(r.value, cursor, t, lookback, span)
    ensures r.Ok? ==> r.value.incomplete <= r.value.summaries.Keys
    ensures r.Ok? ==> r.value.missing + r.value.summaries.Keys == Names(cursor.config.targets)
  {
    hide Cursor.Valid, SummaryOf, SeriesOf, Describes, Extended, Normalize, LabelsKept;
    var symbol, asOf := ObservedState(cursor);
    if asOf.None? { return Err(NothingObserved); }
    if asOf.value != observedAt { return Err(WrongObservationTime); }
    TargetsDiffer(cursor);
    var c := Context(symbol, observedAt, map[], {}, {});
    var targets := cursor.config.targets;
    for i := 0 to |targets|
      invariant c.symbol == cursor.pushed[0].symbol && c.observedAt == observedAt
      invariant c.missing + c.summaries.Keys == Names(targets[..i]) && c.incomplete <= c.summaries.Keys
      invariant forall j | 0 <= j < i :: Describes(c, cursor, targets[j], lookback, span)
      invariant forall t | t in c.summaries :: c.summaries[t].timeframe == Normalize(t)
    {
      var t := targets[i];
      var summary := SummariseTarget(cursor, t, observedAt, lookback, span);
      ExtendedDescribes(c, cursor, t, summary, lookback, span);
      ExtendedKeys(c, t, summary);
      assert targets[..i + 1] == targets[..i] + [t];
      c := Extended(c, t, summary);
    }
    assert targets[..|targets|] == targets;
    LabelsChecked(c, cursor, lookback, span);
    if exists t | t in c.summaries :: c.summaries[t].timeframe != t { return Err(LabelMismatch); }
    return Ok(c);
  }

  /** Pivots confirmed on any target timeframe stay as they are, whatever is pushed later. */
  lemma PivotsSurvivePushes(
    before: seq<Candle>, more: seq<Candle>, target: string, n: nat, width: int, span: nat, kind: Kind)
    requires IsSpan(width) && n >= 1
    ensures Pivots(TargetSeries(before, target, n, width), span, kind)
            <= Pivots(TargetSeries(before + more, target, n, width), span, kind)
  {
    var early, late := TargetSeries(before, target, n, width), TargetSeries(before + more, target, n, width);
    if n == 1 {
      assert early == late[..|early|];
    } else {
      ExtensionOnlyAppends(before, more, target, n, width);
      assert early == late[..|early|];
    }
    PivotsNeverRepaint(late, |early|, span, kind);
  }
}
