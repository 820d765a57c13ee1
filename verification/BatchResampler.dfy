/**
 `resample_closed_candles` as the source runs it: a dictionary from bucket start to the
 candles of that bucket, filled in one pass, then read in sorted order of the keys.
 */
module BatchResampler {
  import opened Wrappers
  import opened Sequences
  import opened Timeframes
  import opened Buckets
  import opened Candles
  import opened Resampling
  import opened ResampledLaws
  import opened BucketRuns
  import opened Ordering

  /** The candles of bucket `b`, in source order. */
  function InBucket(s: seq<Candle>, b: int, span: int): seq<Candle>
    requires IsSpan(span)
  {
    if s == [] then []
    else InBucket(Init(s), b, span) + if BucketOf(Last(s), span) == b then [Last(s)] else []
  }

  /** How many leading candles lie in buckets before `b`. */
  function Below(s: seq<Candle>, b: int, span: int): (k: nat)
    requires IsSpan(span)
    ensures k <= |s|
    ensures forall i | 0 <= i < k :: BucketOf(s[i], span) < b
    ensures k < |s| ==> BucketOf(s[k], span) >= b
  {
    if s == [] || BucketOf(s[0], span) >= b then 0 else 1 + Below(s[1..], b, span)
  }

  function Clip(x: nat, k: nat): nat { if x < k then x else k }

  /** One more candle belongs to the bucket exactly when it lies between the bucket's bounds. */
  lemma SliceStep(s: seq<Candle>, k: nat, lo: nat, hi: nat, inside: bool)
    requires k < |s| && lo <= hi <= |s| && (inside <==> lo <= k < hi)
    ensures Clip(lo, k) <= Clip(hi, k) && Clip(lo, k + 1) <= Clip(hi, k + 1)
    ensures s[Clip(lo, k + 1)..Clip(hi, k + 1)] == s[Clip(lo, k)..Clip(hi, k)] + if inside then [s[k]] else []
  {
  }

  /** On a gap-free series the candles of one bucket are consecutive. */
  lemma {:induction false} InBucketIsSlice(s: seq<Candle>, k: nat, b: int, d: int, span: int)
    requires Grid(s, d) && d > 0 && IsSpan(span) && k <= |s|
    ensures var lo, hi := Below(s, b, span), Below(s, b + 1, span);
            lo <= hi && InBucket(s[..k], b, span) == s[Clip(lo, k)..Clip(hi, k)]
  {
    hide BucketStart, Grid, Below;
    var lo, hi := Below(s, b, span), Below(s, b + 1, span);
    if k > 0 {
      InBucketIsSlice(s, k - 1, b, d, span);
      assert Init(s[..k]) == s[..k - 1];
      if lo <= k - 1 { OpensWithin(s, d, lo, k - 1, span); }
      if hi <= k - 1 { OpensWithin(s, d, hi, k - 1, span); }
      SliceStep(s, k - 1, lo, hi, BucketOf(s[k - 1], span) == b);
    }
  }

  lemma BelowUnique(s: seq<Candle>, b: int, k: nat, d: int, span: int)
    requires Grid(s, d) && d > 0 && IsSpan(span) && k <= |s|
    requires forall i | 0 <= i < k :: BucketOf(s[i], span) < b
    requires k < |s| ==> BucketOf(s[k], span) >= b
    ensures Below(s, b, span) == k
  {
  }

  /** The dictionary after the first `k` candles; `keys` is its insertion order. */
  ghost predicate GroupedUpTo(keys: seq<int>, grouped: map<int, seq<Candle>>, s: seq<Candle>, k: nat, span: int)
    requires IsSpan(span) && k <= |s|
  {
    && (forall i | 0 <= i < k :: BucketOf(s[i], span) in grouped)
    && (forall b | b in grouped :: grouped[b] == InBucket(s[..k], b, span) && grouped[b] != [])
    && (forall b :: b in grouped <==> b in keys)
    && NoRepeats(keys)
  }

  method Group(s: seq<Candle>, span: int) returns (keys: seq<int>, grouped: map<int, seq<Candle>>)
    requires IsSpan(span)
    ensures GroupedUpTo(keys, grouped, s, |s|, span)
  {
    keys, grouped := [], map[];
    for k := 0 to |s|
      invariant GroupedUpTo(keys, grouped, s, k, span)
    {
      var start := BucketStart(s[k].openTime, span);
      assert Init(s[..k + 1]) == s[..k];
      if start !in grouped {
        NotGroupedYet(s, k, start, span);
        keys, grouped := keys + [start], grouped[start := []];
      }
      grouped := grouped[start := grouped[start] + [s[k]]];
    }
  }

  /** `sorted(grouped)`: the keys, strictly increasing. */
  lemma SortedKeys(keys: seq<int>)
    requires NoRepeats(keys)
    ensures var starts := SortBy(keys, Itself);
            && (forall k :: k in starts <==> k in keys)
            && (forall i, j | 0 <= i < j < |starts| :: starts[i] < starts[j])
  {
    var starts := SortBy(keys, Itself);
    SortBySpec(keys, Itself);
    forall k ensures k in starts <==> k in keys {
      assert k in multiset(starts) <==> k in multiset(keys);
    }
    forall i, j | 0 <= i < j < |starts| ensures starts[i] < starts[j] {
      assert Itself(starts[i]) <= Itself(starts[j]);
      if starts[i] == starts[j] { TwiceInSequence(starts, i, j); CountOnce(keys, starts[i]); }
    }
  }

  lemma TwiceInSequence(s: seq<int>, i: nat, j: nat)
    requires i < j < |s| && s[i] == s[j]
    ensures multiset(s)[s[i]] >= 2
  {
    assert s == s[..j] + [s[j]] + s[j + 1..];
    assert s[i] in s[..j];
  }

  lemma {:induction false} NotGroupedYet(s: seq<Candle>, k: nat, b: int, span: int)
    requires IsSpan(span) && k <= |s|
    requires forall i | 0 <= i < k :: BucketOf(s[i], span) != b
    ensures InBucket(s[..k], b, span) == []
  {
    if k > 0 {
      assert Init(s[..k]) == s[..k - 1];
      NotGroupedYet(s, k - 1, b, span);
    }
  }

  /** Where the candles of the `j`-th bucket begin. */
  ghost function CutAt(s: seq<Candle>, starts: seq<int>, j: nat, span: int): nat
    requires IsSpan(span) && j <= |starts|
  {
    if j < |starts| then Below(s, starts[j], span) else |s|
  }

  ghost predicate AllBuckets(s: seq<Candle>, starts: seq<int>, span: int)
    requires IsSpan(span)
  {
    && (forall i | 0 <= i < |s| :: BucketOf(s[i], span) in starts)
    && (forall i, j | 0 <= i < j < |starts| :: starts[i] < starts[j])
  }

  lemma FirstCut(s: seq<Candle>, starts: seq<int>, span: int)
    requires IsSpan(span) && AllBuckets(s, starts, span)
    ensures CutAt(s, starts, 0, span) == 0
  {
    if s != [] {
      assert BucketOf(s[0], span) in starts;
    }
  }

  /** Between consecutive sorted keys lies exactly one bucket. */
  lemma NextCut(s: seq<Candle>, starts: seq<int>, j: nat, d: int, span: int)
    requires Grid(s, d) && d > 0 && IsSpan(span) && AllBuckets(s, starts, span) && j < |starts|
    ensures CutAt(s, starts, j + 1, span) == Below(s, starts[j] + 1, span)
  {
    var hi := Below(s, starts[j] + 1, span);
    if hi < |s| {
      var k :| 0 <= k < |starts| && starts[k] == BucketOf(s[hi], span);
      assert j < k;
    }
    if j + 1 < |starts| {
      BelowUnique(s, starts[j + 1], hi, d, span);
    }
  }

  /** The candles a cutoff leaves visible. */
  function Visible(candles: seq<Candle>, asOf: Option<int>): seq<Candle> {
    if asOf.None? then candles else VisiblePrefix(candles, asOf.value)
  }

  /** What a valid visible source gives for a normalised target label, every error included. */
  ghost predicate Answers(visible: seq<Candle>, key: string, d: int, r: Result<seq<Candle>, MtfError>)
    requires d > 0
  {
    && ((forall span: int :: !Denotes(key, span)) ==> r == Err(UnsupportedTimeframe(key)))
    && (forall span: int | Denotes(key, span) :: AnswersSpan(visible, key, d, span, r))
  }

  ghost predicate AnswersSpan(visible: seq<Candle>, key: string, d: int, span: int, r: Result<seq<Candle>, MtfError>)
    requires d > 0
  {
    && (span < d ==> r == Err(TargetTooSmall(key)))
    && (span > d && span % d != 0 ==> r == Err(TargetNotMultiple(key)))
    && (span == d ==> r == Ok(visible))
    && (span > d && span % d == 0 ==> r.Ok? && DerivedFrom(visible, key, span, r.value))
  }

  lemma VisibleAnswers(visible: seq<Candle>, target: string, d: int)
    requires ValidSource(visible) && Interval(visible[0].timeframe) == Some(d)
    ensures Answers(visible, Normalize(target), d, ResampleVisible(visible, target))
  {
    hide Denotes, Normalize, Interval, DerivedFrom, Resampled;
    var key := Normalize(target);
    NormalizeIdempotent(target);
    IntervalMeans(key);
    if Interval(key).Some? { SpanAnswers(visible, target, d, Interval(key).value); }
    hide ValidSource, AnswersSpan;
  }

  lemma SpanAnswers(visible: seq<Candle>, target: string, d: int, span: int)
    requires ValidSource(visible) && Interval(visible[0].timeframe) == Some(d)
    requires Interval(Normalize(target)) == Some(span)
    ensures AnswersSpan(visible, Normalize(target), d, span, ResampleVisible(visible, target))
  {
    hide Normalize, Interval, DerivedFrom, Resampled;
    if span > d && span % d == 0 {
      CountFits(d, span);
      ResampledDerives(visible, Normalize(target), d, span / d, span);
    }
    hide ValidSource;
  }

  /** Every candle of a series derived or passed on under a label lasts as long as the label says. */
  lemma CandlesLast(visible: seq<Candle>, target: string, d: int)
    requires ValidSource(visible) && Interval(visible[0].timeframe) == Some(d)
    ensures ResampleVisible(visible, target).Ok? ==>
              forall c | c in ResampleVisible(visible, target).value ::
                Denotes(Normalize(target), c.closeTime - c.openTime)
  {
    var key, r := Normalize(target), ResampleVisible(visible, target);
    if r.Ok? {
      VisibleAnswers(visible, target, d);
      var span := Interval(key).value;
      NormalizeIdempotent(target);
      IntervalExactly(key, span);
      EachLasts(visible, key, d, span, r);
      hide Denotes, Normalize, Interval, DerivedFrom;
    }
  }

  lemma EachLasts(visible: seq<Candle>, key: string, d: int, span: int, r: Result<seq<Candle>, MtfError>)
    requires d > 0 && Grid(visible, d) && r.Ok? && AnswersSpan(visible, key, d, span, r)
    ensures forall c | c in r.value :: c.closeTime - c.openTime == span
  {
    hide Summarises;
    forall c | c in r.value ensures c.closeTime - c.openTime == span {
      if span != d {
        var i, j :| 0 <= i < j <= |visible| && StandsFor(c, visible, i, j, key, span);
      }
    }
  }

  lemma ResultAnswers(candles: seq<Candle>, target: string, asOf: Option<int>)
    ensures var visible, r := Visible(candles, asOf), ResampleResult(candles, target, asOf);
            && (visible != [] && !ValidSource(visible) ==> r.Err? && Refused(visible, r.error))
            && (ValidSource(visible) ==> Answers(visible, Normalize(target), Interval(visible[0].timeframe).value, r))
            && (r.Ok? ==> forall c | c in r.value :: Denotes(Normalize(target), c.closeTime - c.openTime))
  {
    var visible := Visible(candles, asOf);
    if visible != [] {
      SourceCheckExact(visible);
      if !ValidSource(visible) {
        RefusedForFirstBroken(visible);
      } else {
        VisibleAnswers(visible, target, Interval(visible[0].timeframe).value);
        CandlesLast(visible, target, Interval(visible[0].timeframe).value);
      }
    }
  }

  method ResampleClosedCandles(candles: seq<Candle>, target: string, asOf: Option<int>)
    returns (r: Result<seq<Candle>, MtfError>)
    ensures r == ResampleResult(candles, target, asOf)
    ensures var visible := Visible(candles, asOf);
            && (candles == [] ==> r == Err(EmptySource))
            && (candles != [] && visible == [] ==> r == Ok([]))
            && (visible != [] && !ValidSource(visible) ==> r.Err? && Refused(visible, r.error))
            && (ValidSource(visible) ==> Answers(visible, Normalize(target), Interval(visible[0].timeframe).value, r))
    ensures r.Ok? ==> forall c | c in r.value :: Denotes(Normalize(target), c.closeTime - c.openTime)
  {
    ResultAnswers(candles, target, asOf);
    hide Answers, Denotes, Refused;
    var visible := ReadVisibleSource(candles, asOf);
    if visible.Err? { return visible; }
    var series := visible.value;
    if series == [] { return Ok([]); }
    var d := Interval(series[0].timeframe).value;
    var key := Normalize(target);
    var interval := Interval(key);
    if interval.None? { return Err(UnsupportedTimeframe(key)); }
    var span := interval.value;
    if span < d { return Err(TargetTooSmall(key)); }
    if span % d != 0 { return Err(TargetNotMultiple(key)); }
    if span == d { return Ok(series); }
    VisibleIsValid(candles, asOf);
    CountFits(d, span);
    var expected := span / d;
    var output := CompleteBuckets(series, key, d, expected, span);
    return Ok(output);
  }

  /** Whatever `VisibleSource` lets through is empty or a valid source. */
  lemma VisibleIsValid(s: seq<Candle>, asOf: Option<int>)
    requires VisibleSource(s, asOf).Ok?
    ensures var v := VisibleSource(s, asOf).value; v == [] || ValidSource(v)
  {
    SourceCheckExact(s);
    if asOf.Some? { SourceCheckExact(VisiblePrefix(s, asOf.value)); }
  }

  lemma CountFits(d: int, span: int)
    requires IsSpan(d) && IsSpan(span) && span >= d && span % d == 0
    ensures span / d >= 1 && Fits(d, span / d, span)
    ensures span / d == 1 <==> span == d
  {
    var n := span / d;
    assert span == n * d;
    if n <= 0 { MulMonotone(n, 0, d); }
    TimesIsProduct(n, d);
    if n >= 2 { MulMonotone(2, n, d); }
  }

  /** What the sorted keys and the dictionary offer to the filtering loop. */
  lemma GroupsOfAll(s: seq<Candle>, keys: seq<int>, grouped: map<int, seq<Candle>>, span: int)
    requires IsSpan(span) && GroupedUpTo(keys, grouped, s, |s|, span)
    ensures AllBuckets(s, SortBy(keys, Itself), span)
    ensures forall b | b in SortBy(keys, Itself) :: b in grouped && grouped[b] == InBucket(s, b, span) && grouped[b] != []
  {
    hide InBucket, BucketStart, SortBy;
    SortedKeys(keys);
    assert s[..|s|] == s;
  }

  /** The filtering loop over sorted buckets: incomplete ones are left out. */
  method KeepComplete(
    s: seq<Candle>, starts: seq<int>, grouped: map<int, seq<Candle>>, target: string, d: int, expected: nat, span: int)
    returns (output: seq<Candle>)
    requires Grid(s, d) && Fits(d, expected, span) && AllBuckets(s, starts, span)
    requires forall b | b in starts :: b in grouped && grouped[b] == InBucket(s, b, span) && grouped[b] != []
    ensures output == Resampled(s, target, expected, span)
  {
    hide BucketStart, Resampled, InBucket, ClosesBucket, Grid, AllBuckets, Times, MaxHigh, MinLow, TotalVolume;
    NothingFromLessThanABucket(s[..0], target, expected, span);
    FirstCut(s, starts, span);
    output := [];
    for j := 0 to |starts|
      invariant CutAt(s, starts, j, span) <= |s|
      invariant output == Resampled(s[..CutAt(s, starts, j, span)], target, expected, span)
    {
      var start := starts[j];
      var bucket := grouped[start];
      ghost var lo, hi := Below(s, start, span), Below(s, start + 1, span);
      InBucketIsSlice(s, |s|, start, d, span);
      assert s[..|s|] == s;
      assert bucket == s[lo..hi];
      NextCut(s, starts, j, d, span);
      BucketStep(s, target, start, d, expected, span);
      if |bucket| == expected
         && bucket[0].openTime == start && Last(bucket).closeTime == start + span {
        output := output + [Aggregate(bucket, target, start, span)];
      }
    }
    assert s[..|s|] == s;
  }

  /** The grouping, and the filtering of the sorted groups. */
  method CompleteBuckets(s: seq<Candle>, target: string, d: int, expected: nat, span: int)
    returns (output: seq<Candle>)
    requires Grid(s, d) && Fits(d, expected, span)
    ensures output == Resampled(s, target, expected, span)
  {
    hide Resampled, InBucket, Grid, SortBy, GroupedUpTo, AllBuckets;
    var keys, grouped := Group(s, span);
    GroupsOfAll(s, keys, grouped, span);
    output := KeepComplete(s, SortBy(keys, Itself), grouped, target, d, expected, span);
  }

  /** What the reference emits over one bucket is what the filter keeps of it. */
  lemma BucketStep(s: seq<Candle>, target: string, start: int, d: int, n: nat, span: int)
    requires Grid(s, d) && Fits(d, n, span)
    requires Below(s, start, span) < Below(s, start + 1, span)
    ensures var lo, hi := Below(s, start, span), Below(s, start + 1, span);
            var bucket := s[lo..hi];
            Resampled(s[..hi], target, n, span) ==
              Resampled(s[..lo], target, n, span)
              + if |bucket| == n && bucket[0].openTime == start && Last(bucket).closeTime == start + span
                then [Aggregate(bucket, target, start, span)] else []
  {
    hide BucketStart, Resampled, ClosesBucket, Grid, MaxHigh, MinLow, TotalVolume;
    var lo, hi := Below(s, start, span), Below(s, start + 1, span);
    GridSlice(s, d, 0, hi);
    RunOfBucket(s, start, lo, hi, d, span);
    RunStep(s[..hi], target, lo, d, n, span);
    assert s[..hi][..lo] == s[..lo] && s[..hi][lo..] == s[lo..hi];
  }

  lemma RunOfBucket(s: seq<Candle>, start: int, lo: nat, hi: nat, d: int, span: int)
    requires Grid(s, d) && d > 0 && IsSpan(span)
    requires lo == Below(s, start, span) < hi == Below(s, start + 1, span)
    ensures IsLastRun(s[..hi], lo, span) && BucketOf(s[hi - 1], span) == start
  {
    forall i | lo <= i < hi ensures BucketOf(s[i], span) == start {
      OpensWithin(s, d, lo, i, span);
    }
  }
}
