/**
 Runs of candles that share a UTC bucket.  Both implementations work on runs: the batch form
 finds them by grouping, the cursor keeps the last one as its pending bucket.  The laws here
 say when a run is a complete bucket, and what the pending run leaves out.
 */
module BucketRuns {
  import opened Sequences
  import opened Timeframes
  import opened Buckets
  import opened Candles
  import opened Resampling
  import opened ResampledLaws

  function BucketOf(c: Candle, span: int): int
    requires IsSpan(span)
  {
    BucketStart(c.openTime, span)
  }

  /** `s[p..]` is the longest suffix whose candles share the last candle's bucket. */
  ghost predicate IsLastRun(s: seq<Candle>, p: int, span: int)
    requires IsSpan(span)
  {
    && 0 <= p < |s|
    && (forall i | p <= i < |s| :: BucketOf(s[i], span) == BucketOf(Last(s), span))
    && (p > 0 ==> BucketOf(s[p - 1], span) != BucketOf(Last(s), span))
  }

  /** Where that suffix starts. */
  function RunStart(s: seq<Candle>, span: int): (p: nat)
    requires IsSpan(span) && s != []
    ensures IsLastRun(s, p, span)
  {
    if |s| == 1 || BucketOf(s[|s| - 2], span) != BucketOf(Last(s), span) then |s| - 1
    else
      assert Last(Init(s)) == s[|s| - 2];
      RunStart(Init(s), span)
  }

  lemma LastRunUnique(s: seq<Candle>, p: nat, q: nat, span: int)
    requires IsSpan(span) && IsLastRun(s, p, span) && IsLastRun(s, q, span)
    ensures p == q
  {
  }

  /** The candles held back: the last run, unless its bucket has just ended. */
  function Pending(s: seq<Candle>, span: int): seq<Candle>
    requires IsSpan(span)
  {
    if s == [] || Last(s).closeTime == BucketOf(Last(s), span) + span then []
    else s[RunStart(s, span)..]
  }

  lemma OpensWithin(s: seq<Candle>, d: int, i: nat, j: nat, span: int)
    requires Grid(s, d) && d > 0 && IsSpan(span) && i <= j < |s|
    ensures s[i].openTime <= s[j].openTime
    ensures BucketOf(s[i], span) <= BucketOf(s[j], span)
  {
    OpenAt(s, d, i, j);
    MulMonotone(0, j - i, d);
    BucketStartMonotone(s[i].openTime, s[j].openTime, span);
  }

  /** A candle that opens at a bucket start lies in the bucket it opens. */
  lemma OpensBucket(t: int, span: int)
    requires IsSpan(span) && t % span == 0
    ensures BucketStart(t, span) == t
  {
    DividesThrough(t, span, TICKS_PER_SECOND);
    BucketUnique(t, t, span);
  }

  /** The next candle after the end of a bucket belongs to the next bucket. */
  lemma NextAfterEnd(s: seq<Candle>, d: int, n: nat, span: int, i: nat)
    requires Grid(s, d) && Fits(d, n, span) && i < |s| - 1
    requires s[i].closeTime % span == 0 || s[i].closeTime == BucketOf(s[i], span) + span
    ensures BucketOf(s[i], span) == s[i].closeTime - span
    ensures BucketOf(s[i + 1], span) == s[i].closeTime
  {
    if s[i].closeTime % span == 0 {
      BucketOfClosing(s[i].openTime, d, n, span);
    } else {
      BucketStartIsMultiple(s[i].openTime, span);
      MultipleOf(1, span);
      DividesSum(BucketOf(s[i], span), span, span);
    }
    assert Adjoins(s, d, i);
    OpensBucket(s[i + 1].openTime, span);
  }

  /**
   The test both implementations apply to a run (right length, starts on the bucket start,
   ends on the bucket end) holds exactly when the reference emits.
   */
  lemma RunDecides(s: seq<Candle>, p: nat, d: int, n: nat, span: int)
    requires Grid(s, d) && Fits(d, n, span) && IsLastRun(s, p, span)
    ensures var start := BucketOf(Last(s), span);
            (|s| - p == n && s[p].openTime == start && Last(s).closeTime == start + span)
            <==> ClosesBucket(s, n, span)
  {
    if ClosesBucket(s, n, span) {
      var start, k := BucketOf(Last(s), span), |s| - n;
      BucketStartIsMultiple(Last(s).openTime, span);
      OpensBucket(start, span);
      forall i | k <= i < |s| ensures BucketOf(s[i], span) == start {
        OpensWithin(s, d, k, i, span);
        OpensWithin(s, d, i, |s| - 1, span);
      }
      if k > 0 {
        assert Adjoins(s, d, k - 1);
        SpanFacts(d, n, span);
        assert WholeSecond(start);
        DividesSum(start, d, TICKS_PER_SECOND);
        BucketContains(s[k - 1].openTime, span);
      }
      LastRunUnique(s, p, k, span);
    }
  }

  /** Nothing is emitted inside a run before its last candle. */
  lemma QuietInsideRun(s: seq<Candle>, target: string, p: nat, d: int, n: nat, span: int)
    requires Grid(s, d) && Fits(d, n, span) && IsLastRun(s, p, span)
    ensures Resampled(Init(s), target, n, span) == Resampled(s[..p], target, n, span)
  {
    forall j | p < j <= |Init(s)| ensures !ClosesBucket(Init(s)[..j], n, span) {
      assert Init(s)[..j] == s[..j];
      GridSlice(s, d, 0, j);
      ClosesExactly(s[..j], d, n, span);
      assert BucketOf(s[j], span) == BucketOf(s[j - 1], span);
      if s[j - 1].closeTime % span == 0 { NextAfterEnd(s, d, n, span, j - 1); }
    }
    QuietStretch(Init(s), target, n, span, p);
    assert Init(s)[..p] == s[..p];
  }

  /** Processing a whole run at once emits the run's candle if it is complete and nothing else. */
  lemma RunStep(s: seq<Candle>, target: string, p: nat, d: int, n: nat, span: int)
    requires Grid(s, d) && Fits(d, n, span) && IsLastRun(s, p, span)
    ensures var start := BucketOf(Last(s), span);
            Resampled(s, target, n, span) ==
              Resampled(s[..p], target, n, span)
              + if |s| - p == n && s[p].openTime == start && Last(s).closeTime == start + span
                then [Aggregate(s[p..], target, start, span)] else []
  {
    RunDecides(s, p, d, n, span);
    QuietInsideRun(s, target, p, d, n, span);
  }

  // ---------------------------------------------------------------- conservation

  /** The source opens on a multiple of its own interval. */
  predicate Aligned(s: seq<Candle>, d: int)
    requires d > 0
  {
    s != [] ==> s[0].openTime % d == 0
  }

  lemma AlignedThroughout(s: seq<Candle>, d: int, i: nat)
    requires Grid(s, d) && d > 0 && i < |s|
    ensures s[i].openTime % d == 0 <==> Aligned(s, d)
    ensures s[i].closeTime % d == 0 <==> Aligned(s, d)
  {
    OpenAt(s, d, 0, i);
    MultipleOf(i, d);
    MultipleOf(1, d);
    if Aligned(s, d) {
      DividesSum(s[0].openTime, i * d, d);
      DividesSum(s[i].openTime, d, d);
    }
    if s[i].openTime % d == 0 { DividesSum(s[i].openTime, i * d, d); }
    if s[i].closeTime % d == 0 {
      DividesSum(s[i].closeTime, d, d);
      DividesSum(s[i].openTime, i * d, d);
    }
  }

  /** A source off its own grid never completes a longer bucket, however long it runs. */
  lemma {:induction false} MisalignedEmitsNothing(s: seq<Candle>, target: string, d: int, n: nat, span: int)
    requires Grid(s, d) && Fits(d, n, span) && n >= 2 && !Aligned(s, d)
    ensures Resampled(s, target, n, span) == []
  {
    forall j | 0 < j <= |s| ensures !ClosesBucket(s[..j], n, span) {
      GridSlice(s, d, 0, j);
      ClosesExactly(s[..j], d, n, span);
      SpanFacts(d, n, span);
      AlignedThroughout(s, d, j - 1);
      if s[j - 1].closeTime % span == 0 { DividesThrough(s[j - 1].closeTime, span, d); }
    }
    QuietStretch(s, target, n, span, 0);
  }

  /** Two multiples of `d` less than `d` apart are equal. */
  lemma AdjacentMultiples(a: int, b: int, d: int)
    requires d > 0 && a % d == 0 && b % d == 0 && a - d < b <= a
    ensures a == b
  {
    DividesSum(a, b, d);
    RemainderOf(a - b, 0, d);
  }

  /** On an aligned source a candle lies wholly inside its bucket. */
  lemma AlignedInsideBucket(s: seq<Candle>, d: int, n: nat, span: int, i: nat)
    requires Grid(s, d) && Fits(d, n, span) && Aligned(s, d) && i < |s|
    ensures var start := BucketOf(s[i], span);
            && start % d == 0 && start % span == 0
            && start <= s[i].openTime && s[i].closeTime <= start + span
  {
    var start := BucketOf(s[i], span);
    SpanFacts(d, n, span);
    AlignedThroughout(s, d, i);
    BucketStartIsMultiple(s[i].openTime, span);
    DividesThrough(start, span, d);
    DividesSum(start, span, d);
    DividesThrough(s[i].openTime, d, TICKS_PER_SECOND);
    BucketContains(s[i].openTime, span);
    if s[i].closeTime > start + span { AdjacentMultiples(s[i].closeTime, start + span, d); }
  }

  /** On an aligned source a run that is not the first one starts exactly at its bucket start. */
  lemma RunStartsBucket(s: seq<Candle>, d: int, n: nat, span: int, p: nat)
    requires Grid(s, d) && Fits(d, n, span) && Aligned(s, d) && IsLastRun(s, p, span) && p > 0
    ensures s[p].openTime == BucketOf(Last(s), span)
    ensures s[p - 1].closeTime % span == 0
  {
    var start := BucketOf(s[p], span);
    assert start == BucketOf(Last(s), span);
    assert Adjoins(s, d, p - 1);
    AlignedInsideBucket(s, d, n, span, p);
    AlignedThroughout(s, d, p);
    AlignedThroughout(s, d, p - 1);
    DividesThrough(s[p - 1].openTime, d, TICKS_PER_SECOND);
    if s[p - 1].openTime >= start { BucketUnique(s[p - 1].openTime, start, span); }
    AdjacentMultiples(s[p].openTime, start, d);
  }

  lemma CoversLessThanASpan(s: seq<Candle>, d: int, n: nat, span: int, p: nat)
    requires Grid(s, d) && Fits(d, n, span) && p < |s|
    requires Last(s).closeTime < s[p].openTime + span
    ensures |s| - p < n
  {
    OpenAt(s, d, p, |s| - 1);
    TimesIsProduct(n - 1, d);
    FloorOrder(|s| - p, n - 1, d, (|s| - 1 - p) * d + d);
  }

  /** On an aligned source an unfinished run is shorter than a bucket. */
  lemma UnfinishedRunIsShort(s: seq<Candle>, d: int, n: nat, span: int, p: nat)
    requires Grid(s, d) && Fits(d, n, span) && Aligned(s, d) && IsLastRun(s, p, span)
    requires Last(s).closeTime % span != 0
    ensures |s| - p < n
  {
    hide BucketStart, Grid;
    var last := |s| - 1;
    AlignedInsideBucket(s, d, n, span, p);
    AlignedInsideBucket(s, d, n, span, last);
    MultipleOf(1, span);
    DividesSum(BucketOf(s[last], span), span, span);
    CoversLessThanASpan(s, d, n, span, p);
  }

  /** How many source candles are in no output and are not held back either. */
  function Dropped(s: seq<Candle>, target: string, n: nat, span: int): int
    requires IsSpan(span) && n >= 1
  {
    |s| - Times(|Resampled(s, target, n, span)|, n) - |Pending(s, span)|
  }

  /** Head, output and pending account for every source candle and all of its volume. */
  ghost predicate Accounted(s: seq<Candle>, target: string, n: nat, span: int)
    requires IsSpan(span) && n >= 1
  {
    var out, held, dropped := Resampled(s, target, n, span), Pending(s, span), Dropped(s, target, n, span);
    && |held| < n && held == s[|s| - |held|..]
    && 0 <= dropped < n && dropped <= |s|
    && TotalVolume(s) == TotalVolume(s[..dropped]) + TotalVolume(out) + TotalVolume(held)
  }

  lemma NothingPendingAtBoundary(s: seq<Candle>, d: int, n: nat, span: int)
    requires Grid(s, d) && Fits(d, n, span) && s != []
    ensures Last(s).closeTime % span == 0 <==> Last(s).closeTime == BucketOf(Last(s), span) + span
  {
    if Last(s).closeTime % span == 0 {
      BucketOfClosing(Last(s).openTime, d, n, span);
    } else {
      BucketStartIsMultiple(Last(s).openTime, span);
      MultipleOf(1, span);
      DividesSum(BucketOf(Last(s), span), span, span);
    }
  }

  /** One more complete bucket keeps the account. */
  lemma AccountBucket(s: seq<Candle>, target: string, n: nat, span: int)
    requires IsSpan(span) && n >= 1 && |s| >= n
    requires var u := s[..|s| - n];
             && Accounted(u, target, n, span) && Pending(u, span) == [] && Pending(s, span) == []
             && Resampled(s, target, n, span) == Resampled(u, target, n, span) + [Emission(s, target, n, span)]
    ensures Accounted(s, target, n, span)
  {
    hide Resampled, Pending, TotalVolume, Times, Emission;
    var u, v, e := s[..|s| - n], s[|s| - n..], Emission(s, target, n, span);
    var out, dropped := Resampled(u, target, n, span), Dropped(u, target, n, span);
    OneMore(|out|, n);
    NoVolume();
    VolumeOfConcat(u, v);
    VolumeOfConcat(out, [e]);
    EmittedVolume(s, target, n, span);
    assert u[..dropped] == s[..dropped];
    assert s == u + v;
  }

  lemma OneMore(count: nat, n: nat)
    ensures Times(count + 1, n) == Times(count, n) + n
  {
  }

  lemma EmittedVolume(s: seq<Candle>, target: string, n: nat, span: int)
    requires n >= 1 && |s| >= n
    ensures TotalVolume([Emission(s, target, n, span)]) == TotalVolume(s[|s| - n..])
  {
  }

  /** Candles held back at the end keep the account too. */
  lemma AccountHeld(s: seq<Candle>, p: nat, target: string, n: nat, span: int)
    requires IsSpan(span) && n >= 1 && p <= |s| && |s| - p < n
    requires var u := s[..p];
             && Accounted(u, target, n, span) && Pending(u, span) == [] && Pending(s, span) == s[p..]
             && Resampled(s, target, n, span) == Resampled(u, target, n, span)
    ensures Accounted(s, target, n, span)
  {
    hide Resampled, Pending, TotalVolume, Times;
    var u, held := s[..p], s[p..];
    var dropped := Dropped(u, target, n, span);
    VolumeOfConcat(u, held);
    assert s == u + held && u[..dropped] == s[..dropped];
    NoVolume();
  }

  lemma NoVolume()
    ensures TotalVolume([]) == 0.0
  {
  }

  lemma {:induction false} ConservationAtBoundary(s: seq<Candle>, target: string, d: int, n: nat, span: int)
    requires Grid(s, d) && Fits(d, n, span)
    requires s != [] ==> Last(s).closeTime % span == 0
    ensures Pending(s, span) == [] && Accounted(s, target, n, span)
  {
    hide BucketStart, Grid, ClosesBucket;
    if s != [] { NothingPendingAtBoundary(s, d, n, span); }
    if |s| < n {
      NothingFromLessThanABucket(s, target, n, span);
      assert s[..|s|] == s;
    } else {
      BoundaryStep(s, target, d, n, span);
      BoundaryBefore(s, d, n, span);
      ConservationAtBoundary(s[..|s| - n], target, d, n, span);
      AccountBucket(s, target, n, span);
    }
  }

  /**
   On an aligned source every candle is in the dropped head (shorter than a bucket), in exactly one
   emitted candle, or pending (also shorter than a bucket), and volume is conserved.
   */
  lemma Conservation(s: seq<Candle>, target: string, d: int, n: nat, span: int)
    requires Grid(s, d) && Fits(d, n, span) && Aligned(s, d)
    ensures Accounted(s, target, n, span)
  {
    hide BucketStart, Grid, ClosesBucket;
    if s == [] || Last(s).closeTime % span == 0 {
      ConservationAtBoundary(s, target, d, n, span);
    } else {
      var p := RunStart(s, span);
      UnfinishedRunIsShort(s, d, n, span, p);
      NothingPendingAtBoundary(s, d, n, span);
      if p > 0 { RunStartsBucket(s, d, n, span, p); }
      RunDecides(s, p, d, n, span);
      ClosesExactly(s, d, n, span);
      RunStep(s, target, p, d, n, span);
      GridSlice(s, d, 0, p);
      hide Accounted;
      ConservationAtBoundary(s[..p], target, d, n, span);
      AccountHeld(s, p, target, n, span);
    }
  }

  // ---------------------------------------------------------------- when the pending bound holds

  /** Adding an interval advances the truncated clock by that many seconds, or one less across 1970. */
  lemma SecondsAdvance(t: int, d: int)
    requires IsSpan(d)
    ensures EpochSeconds(t) + d / TICKS_PER_SECOND - 1 <= EpochSeconds(t + d)
              <= EpochSeconds(t) + d / TICKS_PER_SECOND
  {
  }

  lemma {:induction false} SecondsBetween(s: seq<Candle>, d: int, i: nat, j: nat)
    requires Grid(s, d) && IsSpan(d) && i <= j < |s|
    ensures EpochSeconds(s[j].openTime) <= EpochSeconds(s[i].openTime) + Times(j - i, d / TICKS_PER_SECOND)
  {
    if i < j {
      SecondsBetween(s, d, i, j - 1);
      assert Adjoins(s, d, j - 1);
      SecondsAdvance(s[j - 1].openTime, d);
    }
  }

  lemma InSeconds(d: int, n: nat, span: int)
    requires Fits(d, n, span)
    ensures span / TICKS_PER_SECOND == Times(n, d / TICKS_PER_SECOND) > 0
  {
    var k := d / TICKS_PER_SECOND;
    TimesIsProduct(n, d);
    TimesIsProduct(n, k);
    assert d == k * TICKS_PER_SECOND;
    assert span == (n * k) * TICKS_PER_SECOND;
  }

  lemma TimesMonotone(a: nat, b: nat, k: int)
    requires a <= b && k >= 0
    ensures Times(a, k) <= Times(b, k)
  {
    TimesIsProduct(a, k);
    TimesIsProduct(b, k);
    MulMonotone(a, b, k);
  }

  lemma SameQuotient(e0: int, e: int, f: int, secs: int)
    requires secs > 0 && e0 <= e <= f <= e0 + secs && e0 / secs != e / secs
    ensures f / secs == e / secs
  {
    var q := e / secs;
    DivMonotone(e0, e, secs);
    DivBounds(e0, secs);
    DivBounds(e, secs);
    MulMonotone(e0 / secs, q - 1, secs);
    assert e0 < (q - 1) * secs + secs;
    DivUnique(f, secs, q);
  }

  /** A series that starts a new bucket stays in it for a bucket's worth of candles. */
  lemma RunAfterChange(s: seq<Candle>, d: int, n: nat, span: int, p: nat, j: nat)
    requires Grid(s, d) && Fits(d, n, span) && 0 < p <= j < |s| && j < p + n
    requires BucketOf(s[p - 1], span) != BucketOf(s[p], span)
    ensures BucketOf(s[j], span) == BucketOf(s[p], span)
  {
    InSeconds(d, n, span);
    OpensWithin(s, d, p - 1, p, span);
    OpensWithin(s, d, p, j, span);
    SecondsBetween(s, d, p - 1, j);
    TimesMonotone(j - p + 1, n, d / TICKS_PER_SECOND);
    SameQuotient(
      EpochSeconds(s[p - 1].openTime), EpochSeconds(s[p].openTime), EpochSeconds(s[j].openTime),
      span / TICKS_PER_SECOND);
  }

  /** Somewhere in the first bucket-and-a-bit the bucket changes. */
  lemma {:induction false} BucketChanges(s: seq<Candle>, d: int, n: nat, span: int) returns (p: nat)
    requires Grid(s, d) && Fits(d, n, span) && |s| > n + 1
    ensures 0 < p <= n + 1 && BucketOf(s[p - 1], span) != BucketOf(s[p], span)
  {
    p := 1;
    while p <= n + 1 && BucketOf(s[p - 1], span) == BucketOf(s[p], span)
      invariant 0 < p <= n + 2
      invariant forall i | 0 <= i < p :: BucketOf(s[i], span) == BucketOf(s[0], span)
    {
      p := p + 1;
    }
    if p == n + 2 {
      assert BucketOf(s[n + 1], span) == BucketOf(s[0], span);
      FarApart(s, d, n, span);
    }
  }

  lemma {:induction false} SecondsAtLeast(s: seq<Candle>, d: int, j: nat)
    requires Grid(s, d) && IsSpan(d) && j < |s|
    ensures s[j].openTime == s[0].openTime + Times(j, d)
  {
    OpenAt(s, d, 0, j);
    TimesIsProduct(j, d);
  }

  lemma QuotientMoves(a: int, b: int, secs: int)
    requires secs > 0 && b >= a + secs
    ensures a / secs < b / secs
  {
    DivBounds(a, secs);
    DivBounds(b, secs);
    FloorOrder(a / secs + 1, b / secs, secs, b);
  }

  lemma FarApart(s: seq<Candle>, d: int, n: nat, span: int)
    requires Grid(s, d) && Fits(d, n, span) && |s| > n + 1
    ensures BucketOf(s[n + 1], span) != BucketOf(s[0], span)
  {
    hide Grid;
    SecondsAtLeast(s, d, n + 1);
    assert Times(n + 1, d) == span + d;
    SecondsAdvance(s[0].openTime, span + d);
    var t, u, secs := s[0].openTime, s[n + 1].openTime, span / TICKS_PER_SECOND;
    QuotientMoves(EpochSeconds(t), EpochSeconds(u), secs);
    MulMonotone(BucketIndex(t, span) + 1, BucketIndex(u, span), secs);
  }

  /** A long enough source off its own grid at some point holds back a whole longer bucket's worth. */
  lemma LongPending(s: seq<Candle>, d: int, n: nat, span: int)
    requires Grid(s, d) && Fits(d, n, span) && n >= 2 && |s| > n + n && !Aligned(s, d)
    ensures exists k :: 0 <= k <= |s| && |Pending(s[..k], span)| == n
  {
    var p := BucketChanges(s, d, n, span);
    var k := p + n;
    var t := s[..k];
    forall j | p <= j < k ensures BucketOf(s[j], span) == BucketOf(s[p], span) {
      RunAfterChange(s, d, n, span, p, j);
    }
    assert IsLastRun(t, p, span);
    LastRunUnique(t, p, RunStart(t, span), span);
    GridSlice(s, d, 0, k);
    NothingPendingAtBoundary(t, d, n, span);
    SpanFacts(d, n, span);
    AlignedThroughout(s, d, k - 1);
    if Last(t).closeTime % span == 0 { DividesThrough(Last(t).closeTime, span, d); }
    assert |Pending(t, span)| == n;
  }
}
