/**
 Laws of the reference `Resampled` on a gap-free series: where it emits, what each emitted
 candle covers, what is conserved, and that resampling twice is resampling once.
 */
module ResampledLaws {
  import opened Sequences
  import opened Timeframes
  import opened Buckets
  import opened Candles
  import opened Resampling

  // ---------------------------------------------------------------- the grid

  lemma {:induction false} OpenAt(s: seq<Candle>, d: int, i: nat, j: nat)
    requires Grid(s, d) && i <= j < |s|
    ensures s[j].openTime == s[i].openTime + (j - i) * d
  {
    if i < j {
      OpenAt(s, d, i, j - 1);
      assert Adjoins(s, d, j - 1);
    }
  }

  lemma GridSlice(s: seq<Candle>, d: int, i: nat, j: nat)
    requires Grid(s, d) && i <= j <= |s|
    ensures Grid(s[i..j], d)
  {
    var t := s[i..j];
    forall k | 0 <= k < |t| - 1 ensures Adjoins(t, d, k) {
      assert Adjoins(s, d, i + k);
    }
  }

  /** Where the last `n` candles begin. */
  lemma TailOpens(s: seq<Candle>, d: int, n: nat, span: int)
    requires Grid(s, d) && Fits(d, n, span) && n <= |s|
    ensures s[|s| - n].openTime == Last(s).closeTime - span
  {
    OpenAt(s, d, |s| - n, |s| - 1);
    TimesIsProduct(n - 1, d);
  }

  lemma SpanFacts(d: int, n: nat, span: int)
    requires Fits(d, n, span)
    ensures span % d == 0 && d <= span
    ensures forall t: int :: t % span == 0 ==> WholeSecond(t)
  {
    TimesIsProduct(n, d);
    MultipleOf(n, d);
    MulMonotone(1, n, d);
    forall t: int | t % span == 0 ensures WholeSecond(t) {
      DividesThrough(t, span, TICKS_PER_SECOND);
    }
  }

  /** The bucket of a candle that closes on a multiple of the span. */
  lemma BucketOfClosing(t: int, d: int, n: nat, span: int)
    requires Fits(d, n, span) && (t + d) % span == 0
    ensures BucketStart(t, span) == t + d - span
  {
    SpanFacts(d, n, span);
    assert WholeSecond(t + d);
    DividesSum(t + d, d, TICKS_PER_SECOND);
    MultipleOf(1, span);
    DividesSum(t + d, span, span);
    BucketUnique(t, t + d - span, span);
  }

  /**
   On a gap-free series a bucket closes exactly when the last candle ends on a multiple of the
   target span and at least one bucket's worth of candles is there.
   */
  lemma ClosesExactly(s: seq<Candle>, d: int, n: nat, span: int)
    requires Grid(s, d) && Fits(d, n, span)
    ensures ClosesBucket(s, n, span) <==> |s| >= n && Last(s).closeTime % span == 0
  {
    if |s| >= n {
      var t := Last(s).openTime;
      TailOpens(s, d, n, span);
      if Last(s).closeTime % span == 0 {
        BucketOfClosing(t, d, n, span);
      }
      if Last(s).closeTime == BucketStart(t, span) + span {
        BucketStartIsMultiple(t, span);
        MultipleOf(1, span);
        DividesSum(BucketStart(t, span), span, span);
      }
    }
  }

  /** If no longer prefix closes a bucket, nothing is emitted past `k`. */
  lemma {:induction false} QuietStretch(s: seq<Candle>, target: string, n: nat, span: int, k: nat)
    requires IsSpan(span) && n >= 1 && k <= |s|
    requires forall j | k < j <= |s| :: !ClosesBucket(s[..j], n, span)
    ensures Resampled(s, target, n, span) == Resampled(s[..k], target, n, span)
  {
    if k == |s| {
      assert s[..k] == s;
    } else {
      assert s[..|s|] == s;
      assert Init(s)[..k] == s[..k];
      forall j | k < j <= |Init(s)| ensures !ClosesBucket(Init(s)[..j], n, span) {
        assert Init(s)[..j] == s[..j];
      }
      QuietStretch(Init(s), target, n, span, k);
    }
  }

  /** Strictly between two multiples of the span there is no third. */
  lemma NoMultipleBetween(t: int, step: int, span: int)
    requires span > 0 && t % span == 0 && 0 < step < span
    ensures (t - step) % span != 0 && (t + step) % span != 0
  {
    var q := t / span;
    assert t == q * span;
    assert (q - 1) * span == t - span;
    RemainderOf(t - step, q - 1, span);
    RemainderOf(t + step, q, span);
  }

  /** No bucket closes strictly inside the last `n` candles of a series that ends on a boundary. */
  lemma InsideIsQuiet(s: seq<Candle>, d: int, n: nat, span: int, j: nat)
    requires Grid(s, d) && Fits(d, n, span)
    requires |s| >= n && Last(s).closeTime % span == 0
    requires |s| - n < j < |s|
    ensures !ClosesBucket(s[..j], n, span)
  {
    GridSlice(s, d, 0, j);
    ClosesExactly(s[..j], d, n, span);
    OpenAt(s, d, j - 1, |s| - 1);
    TimesIsProduct(n - 1, d);
    MulMonotone(1, |s| - j, d);
    MulMonotone(|s| - j, n - 1, d);
    NoMultipleBetween(Last(s).closeTime, (|s| - j) * d, span);
  }

  /** A series ending on a boundary emits what its part before the last bucket emits, then that bucket. */
  lemma BoundaryStep(s: seq<Candle>, target: string, d: int, n: nat, span: int)
    requires Grid(s, d) && Fits(d, n, span)
    requires |s| >= n && Last(s).closeTime % span == 0
    ensures Resampled(s, target, n, span)
            == Resampled(s[..|s| - n], target, n, span) + [Emission(s, target, n, span)]
    ensures Resampled(Init(s), target, n, span) == Resampled(s[..|s| - n], target, n, span)
  {
    ClosesExactly(s, d, n, span);
    var k := |s| - n;
    forall j | k < j <= |Init(s)| ensures !ClosesBucket(Init(s)[..j], n, span) {
      assert Init(s)[..j] == s[..j];
      InsideIsQuiet(s, d, n, span, j);
    }
    QuietStretch(Init(s), target, n, span, k);
    assert Init(s)[..k] == s[..k];
  }

  lemma BoundaryBefore(s: seq<Candle>, d: int, n: nat, span: int)
    requires Grid(s, d) && Fits(d, n, span)
    requires |s| >= n && Last(s).closeTime % span == 0
    ensures Grid(s[..|s| - n], d)
    ensures |s| > n ==> Last(s[..|s| - n]).closeTime % span == 0
  {
    GridSlice(s, d, 0, |s| - n);
    if |s| > n {
      TailOpens(s, d, n, span);
      assert Adjoins(s, d, |s| - n - 1);
      MultipleOf(1, span);
      DividesSum(Last(s).closeTime, span, span);
    }
  }

  // ---------------------------------------------------------------- shape of the output

  /** Extending the series only appends to the output: an emitted candle never changes. */
  lemma {:induction false} ExtensionOnlyAppends(s: seq<Candle>, more: seq<Candle>, target: string, n: nat, span: int)
    requires IsSpan(span) && n >= 1
    ensures Resampled(s, target, n, span) <= Resampled(s + more, target, n, span)
  {
    if more == [] {
      assert s + more == s;
    } else {
      assert Init(s + more) == s + Init(more);
      ExtensionOnlyAppends(s, Init(more), target, n, span);
    }
  }

  lemma NothingFromLessThanABucket(s: seq<Candle>, target: string, n: nat, span: int)
    requires IsSpan(span) && n >= 1 && |s| < n
    ensures Resampled(s, target, n, span) == []
  {
    QuietStretch(s, target, n, span, 0);
  }

  /** At a boundary the output counts the whole buckets that fit into the series. */
  lemma {:induction false} CountAtBoundary(s: seq<Candle>, target: string, d: int, n: nat, span: int)
    requires Grid(s, d) && Fits(d, n, span)
    requires s != [] ==> Last(s).closeTime % span == 0
    ensures var count := |Resampled(s, target, n, span)|; count * n <= |s| < count * n + n
  {
    if |s| < n {
      NothingFromLessThanABucket(s, target, n, span);
    } else {
      BoundaryStep(s, target, d, n, span);
      BoundaryBefore(s, d, n, span);
      var earlier := s[..|s| - n];
      CountAtBoundary(earlier, target, d, n, span);
      var count := |Resampled(earlier, target, n, span)|;
      assert (count + 1) * n == count * n + n;
    }
  }

  lemma GridAppend(s: seq<Candle>, c: Candle, d: int)
    requires Grid(s, d) && c.closeTime == c.openTime + d
    requires s != [] ==> Last(s).closeTime == c.openTime
    ensures Grid(s + [c], d)
  {
    var t := s + [c];
    forall i | 0 <= i < |t| - 1 ensures Adjoins(t, d, i) {
      if i < |s| - 1 { assert Adjoins(s, d, i); }
    }
  }

  lemma EmissionTimes(s: seq<Candle>, target: string, d: int, n: nat, span: int)
    requires Grid(s, d) && Fits(d, n, span) && |s| >= n
    ensures var e := Emission(s, target, n, span);
            e.closeTime == Last(s).closeTime && e.openTime == e.closeTime - span
    ensures |s| > n ==> Last(s[..|s| - n]).closeTime == Emission(s, target, n, span).openTime
  {
    TailOpens(s, d, n, span);
    if |s| > n {
      assert Adjoins(s, d, |s| - n - 1);
    }
  }

  /** At a boundary the output ends where the series ends. */
  lemma OutputReachesBoundary(s: seq<Candle>, target: string, d: int, n: nat, span: int)
    requires Grid(s, d) && Fits(d, n, span)
    requires s != [] && Last(s).closeTime % span == 0
    ensures var out := Resampled(s, target, n, span);
            out != [] ==> |s| >= n && Last(out).closeTime == Last(s).closeTime
  {
    if |s| < n {
      NothingFromLessThanABucket(s, target, n, span);
    } else {
      BoundaryStep(s, target, d, n, span);
      BoundaryBefore(s, d, n, span);
      EmissionTimes(s, target, d, n, span);
    }
  }

  /** The output is itself a closed, gap-free series on the target span. */
  lemma {:induction false} ResampledIsGrid(s: seq<Candle>, target: string, d: int, n: nat, span: int)
    requires Grid(s, d) && Fits(d, n, span)
    ensures Grid(Resampled(s, target, n, span), span)
  {
    if s != [] {
      GridSlice(s, d, 0, |s| - 1);
      ResampledIsGrid(Init(s), target, d, n, span);
      ClosesExactly(s, d, n, span);
      if ClosesBucket(s, n, span) {
        BoundaryStep(s, target, d, n, span);
        BoundaryBefore(s, d, n, span);
        EmissionTimes(s, target, d, n, span);
        if |s| > n { OutputReachesBoundary(s[..|s| - n], target, d, n, span); }
        GridAppend(Resampled(Init(s), target, n, span), Emission(s, target, n, span), span);
      } else {
        assert Resampled(s, target, n, span) == Resampled(Init(s), target, n, span);
      }
    }
  }

  lemma {:induction false} ResampledIsUniform(
    s: seq<Candle>, symbol: string, timeframe: string, target: string, n: nat, span: int)
    requires IsSpan(span) && n >= 1 && Uniform(s, symbol, timeframe)
    ensures Uniform(Resampled(s, target, n, span), symbol, target)
  {
    hide ClosesBucket, MaxHigh, MinLow, TotalVolume;
    if s != [] {
      ResampledIsUniform(Init(s), symbol, timeframe, target, n, span);
      if ClosesBucket(s, n, span) { EmissionIsUniform(s, symbol, timeframe, target, n, span); }
      hide Uniform, Emission;
    }
  }

  lemma EmissionIsUniform(s: seq<Candle>, symbol: string, timeframe: string, target: string, n: nat, span: int)
    requires s != [] && IsSpan(span) && n >= 1 && Uniform(s, symbol, timeframe) && ClosesBucket(s, n, span)
    requires Uniform(Resampled(Init(s), target, n, span), symbol, target)
    ensures Uniform(Resampled(Init(s), target, n, span) + [Emission(s, target, n, span)], symbol, target)
  {
    hide Resampled, MaxHigh, MinLow, TotalVolume, BucketStart;
    assert s[|s| - n..][0] == s[|s| - n];
  }

  lemma AggregateIsWellFormed(bucket: seq<Candle>, target: string, start: int, span: int)
    requires bucket != [] && AllWellFormed(bucket) && NonBlank(target) && span > 0
    ensures WellFormed(Aggregate(bucket, target, start, span))
  {
    MaxHighBounds(bucket);
    MinLowBounds(bucket);
    VolumeNonNegative(bucket);
    var i :| 0 <= i < |bucket| && bucket[i].low == MinLow(bucket);
    assert WellFormed(bucket[i]) && WellFormed(bucket[0]) && WellFormed(Last(bucket));
  }

  /** Every derived candle passes the candle validator, so building one can never fail. */
  lemma {:induction false} ResampledIsWellFormed(s: seq<Candle>, target: string, n: nat, span: int)
    requires IsSpan(span) && n >= 1 && AllWellFormed(s) && NonBlank(target)
    ensures AllWellFormed(Resampled(s, target, n, span))
  {
    if s != [] {
      ResampledIsWellFormed(Init(s), target, n, span);
      if ClosesBucket(s, n, span) {
        AggregateIsWellFormed(s[|s| - n..], target, s[|s| - n].openTime, span);
      }
    }
  }

  // ---------------------------------------------------------------- exactly the complete buckets

  /** `c` is the aggregate of the complete bucket `s[i..i + n]`. */
  predicate BucketAt(s: seq<Candle>, i: int, c: Candle, target: string, n: nat, span: int)
    requires span > 0 && n >= 1
  {
    && 0 <= i <= |s| - n
    && s[i].openTime % span == 0
    && c == Aggregate(s[i..i + n], target, s[i].openTime, span)
  }

  lemma EmissionIsComplete(s: seq<Candle>, target: string, d: int, n: nat, span: int)
    requires Grid(s, d) && Fits(d, n, span) && ClosesBucket(s, n, span)
    ensures BucketAt(s, |s| - n, Emission(s, target, n, span), target, n, span)
  {
    ClosesExactly(s, d, n, span);
    TailOpens(s, d, n, span);
    MultipleOf(1, span);
    DividesSum(Last(s).closeTime, span, span);
    assert s[|s| - n..|s|] == s[|s| - n..];
  }

  lemma {:induction false} EmittedIsComplete(s: seq<Candle>, target: string, d: int, n: nat, span: int, c: Candle)
    requires Grid(s, d) && Fits(d, n, span) && c in Resampled(s, target, n, span)
    ensures exists i :: BucketAt(s, i, c, target, n, span)
  {
    var u := Init(s);
    GridSlice(s, d, 0, |s| - 1);
    if c in Resampled(u, target, n, span) {
      EmittedIsComplete(u, target, d, n, span, c);
      var i :| BucketAt(u, i, c, target, n, span);
      assert u[i..i + n] == s[i..i + n];
      assert BucketAt(s, i, c, target, n, span);
    } else {
      EmissionIsComplete(s, target, d, n, span);
    }
  }

  lemma {:induction false} CompleteIsEmitted(s: seq<Candle>, target: string, d: int, n: nat, span: int, i: int, c: Candle)
    requires Grid(s, d) && Fits(d, n, span) && BucketAt(s, i, c, target, n, span)
    ensures c in Resampled(s, target, n, span)
  {
    if i < |s| - n {
      assert Init(s)[i..i + n] == s[i..i + n];
      GridSlice(s, d, 0, |s| - 1);
      CompleteIsEmitted(Init(s), target, d, n, span, i, c);
    } else {
      ClosesExactly(s, d, n, span);
      TailOpens(s, d, n, span);
      MultipleOf(1, span);
      DividesSum(s[i].openTime, span, span);
      assert s[i..i + n] == s[i..];
    }
  }

  /**
   The output holds one candle for every complete UTC bucket of the series and nothing else.
   With `ResampledIsGrid` (so they are in time order) this pins the output down.
   */
  lemma ExactlyTheCompleteBuckets(s: seq<Candle>, target: string, d: int, n: nat, span: int, c: Candle)
    requires Grid(s, d) && Fits(d, n, span)
    ensures c in Resampled(s, target, n, span) <==> exists i :: BucketAt(s, i, c, target, n, span)
  {
    if c in Resampled(s, target, n, span) {
      EmittedIsComplete(s, target, d, n, span, c);
    }
    if i :| BucketAt(s, i, c, target, n, span) {
      CompleteIsEmitted(s, target, d, n, span, i, c);
    }
  }

  /** Candles `i` to `j` of the source fill one whole UTC interval of the target span. */
  predicate Fills(s: seq<Candle>, i: int, j: int, span: int)
    requires span > 0 && 0 <= i < j <= |s|
  {
    s[i].openTime % span == 0 && s[j - 1].closeTime == s[i].openTime + span
  }

  /** `c` stands for the source candles `i` to `j`. */
  ghost predicate StandsFor(c: Candle, s: seq<Candle>, i: int, j: int, target: string, span: int)
    requires span > 0 && 0 <= i < j <= |s|
  {
    && Fills(s, i, j, span) && c.timeframe == target
    && c.openTime == s[i].openTime && c.closeTime == s[i].openTime + span
    && Summarises(c, s[i..j])
  }

  /** The output in terms of source candles alone: one candle for each whole UTC interval, in time order. */
  ghost predicate DerivedFrom(s: seq<Candle>, target: string, span: int, out: seq<Candle>)
    requires span > 0
  {
    && (forall c | c in out :: exists i, j | 0 <= i < j <= |s| :: StandsFor(c, s, i, j, target, span))
    && (forall i, j | 0 <= i < j <= |s| && Fills(s, i, j, span) ::
          exists c | c in out :: StandsFor(c, s, i, j, target, span))
    && (forall k | 0 <= k < |out| - 1 :: Adjoins(out, span, k))
  }

  /** A run of candles that fills an interval has the expected count. */
  lemma FillsCount(s: seq<Candle>, i: int, j: int, d: int, n: nat, span: int)
    requires Grid(s, d) && Fits(d, n, span) && 0 <= i < j <= |s| && Fills(s, i, j, span)
    ensures j == i + n
  {
    OpenAt(s, d, i, j - 1);
    TimesIsProduct(n, d);
    assert (j - i) * d == (j - 1 - i) * d + d;
    DivUnique(n * d, d, n);
    DivUnique((j - i) * d, d, j - i);
  }

  lemma BlockFills(s: seq<Candle>, i: int, d: int, n: nat, span: int)
    requires Grid(s, d) && Fits(d, n, span) && 0 <= i <= |s| - n && s[i].openTime % span == 0
    ensures Fills(s, i, i + n, span)
  {
    OpenAt(s, d, i, i + n - 1);
    TimesIsProduct(n - 1, d);
  }

  /** The reference output is exactly the derived series. */
  lemma ResampledDerives(s: seq<Candle>, target: string, d: int, n: nat, span: int)
    requires Grid(s, d) && Fits(d, n, span)
    ensures DerivedFrom(s, target, span, Resampled(s, target, n, span))
  {
    hide Aggregate, Summarises, Resampled, Times;
    var out := Resampled(s, target, n, span);
    forall c | c in out ensures exists i, j | 0 <= i < j <= |s| :: StandsFor(c, s, i, j, target, span) {
      ExactlyTheCompleteBuckets(s, target, d, n, span, c);
      var i :| BucketAt(s, i, c, target, n, span);
      AggregateSummarises(s[i..i + n], target, s[i].openTime, span);
      BlockFills(s, i, d, n, span);
      assert StandsFor(c, s, i, i + n, target, span);
    }
    forall i, j | 0 <= i < j <= |s| && Fills(s, i, j, span)
      ensures exists c | c in out :: StandsFor(c, s, i, j, target, span)
    {
      FillsCount(s, i, j, d, n, span);
      var c := Aggregate(s[i..j], target, s[i].openTime, span);
      AggregateSummarises(s[i..j], target, s[i].openTime, span);
      assert BucketAt(s, i, c, target, n, span);
      ExactlyTheCompleteBuckets(s, target, d, n, span, c);
      assert StandsFor(c, s, i, j, target, span);
    }
    ResampledIsGrid(s, target, d, n, span);
  }

  // ---------------------------------------------------------------- two steps are one

  /** Consecutive groups of `n`, each aggregated. */
  function Blocks(s: seq<Candle>, target: string, n: nat, span: int): seq<Candle>
    requires n >= 1
  {
    if |s| < n then [] else Blocks(s[..|s| - n], target, n, span) + [Emission(s, target, n, span)]
  }

  lemma BlocksStep(s: seq<Candle>, target: string, n: nat, span: int, cut: nat)
    requires n >= 1 && cut + n <= |s|
    ensures Blocks(s[cut..], target, n, span)
            == Blocks(s[..|s| - n][cut..], target, n, span) + [Emission(s, target, n, span)]
  {
    var t := s[cut..];
    assert t[..|t| - n] == s[..|s| - n][cut..];
    assert t[|t| - n..] == s[|s| - n..];
  }

  /** Moving one more bucket from the resampled part to the blocks. */
  lemma TailStep(s: seq<Candle>, target: string, d: int, n: nat, span: int, cut: nat)
    requires Grid(s, d) && Fits(d, n, span)
    requires cut + n <= |s| && Last(s).closeTime % span == 0
    requires var u := s[..|s| - n];
             Resampled(u, target, n, span) == Resampled(u[..cut], target, n, span) + Blocks(u[cut..], target, n, span)
    ensures Resampled(s, target, n, span) == Resampled(s[..cut], target, n, span) + Blocks(s[cut..], target, n, span)
  {
    hide ClosesBucket, Grid, Times, Emission, Blocks, Resampled;
    BoundaryStep(s, target, d, n, span);
    BlocksStep(s, target, n, span, cut);
    assert s[..|s| - n][..cut] == s[..cut];
  }

  lemma {:induction false} TailIsBlocks(
    s: seq<Candle>, target: string, d: int, n: nat, span: int, k: nat, cut: nat)
    requires Grid(s, d) && Fits(d, n, span)
    requires cut <= |s| && |s| - cut == Times(k, n) && (s != [] ==> Last(s).closeTime % span == 0)
    ensures Resampled(s, target, n, span) == Resampled(s[..cut], target, n, span) + Blocks(s[cut..], target, n, span)
    ensures |Blocks(s[cut..], target, n, span)| == k
  {
    if k == 0 {
      assert s[..cut] == s && s[cut..] == [];
    } else {
      TimesPositive(k, n);
      BoundaryStep(s, target, d, n, span);
      BoundaryBefore(s, d, n, span);
      TailIsBlocks(s[..|s| - n], target, d, n, span, k - 1, cut);
      TailStep(s, target, d, n, span, cut);
      BlocksStep(s, target, n, span, cut);
    }
  }

  lemma {:induction false} AggregateOfBlocks(s: seq<Candle>, target: string, n: nat, span: int, k: nat)
    requires n >= 1 && k >= 1 && |s| == Times(k, n)
    ensures var b := Blocks(s, target, n, span);
            && b != []
            && b[0].symbol == s[0].symbol && b[0].open == s[0].open && Last(b).close == Last(s).close
            && MaxHigh(b) == MaxHigh(s) && MinLow(b) == MinLow(s) && TotalVolume(b) == TotalVolume(s)
  {
    TimesPositive(k, n);
    var u, v := s[..|s| - n], s[|s| - n..];
    assert s == u + v;
    var e := Emission(s, target, n, span);
    var b := Blocks(u, target, n, span);
    VolumeOfConcat(u, v);
    VolumeOfConcat(b, [e]);
    if k > 1 {
      AggregateOfBlocks(u, target, n, span, k - 1);
      ExtremesOfConcat(u, v);
      ExtremesOfConcat(b, [e]);
    } else {
      assert u == [] && b == [];
      assert v == s && b + [e] == [e];
    }
  }

  lemma FitsThrough(d: int, n: nat, midSpan: int, m: nat, span: int)
    requires Fits(d, n, midSpan) && Fits(midSpan, m, span)
    ensures Times(m, n) >= n && Fits(d, Times(m, n), span) && span % midSpan == 0
  {
    TimesPositive(m, n);
    TimesOfTimes(m, n, d);
    TimesIsProduct(m, midSpan);
    MultipleOf(m, midSpan);
  }

  lemma {:induction false} TimesOfTimes(m: nat, n: nat, d: int)
    requires Times(m, n) >= 0
    ensures Times(Times(m, n), d) == Times(m, Times(n, d))
  {
    TimesIsProduct(m, n);
    TimesIsProduct(n, d);
    TimesIsProduct(Times(m, n), d);
    TimesIsProduct(m, Times(n, d));
    assert m * n * d == m * (n * d);
  }

  /** `count` whole buckets of `n` fit into `size`; whether `m` do is decided by `count` alone. */
  lemma WholeBuckets(size: nat, count: nat, m: nat, n: nat)
    requires n >= 1 && count * n <= size < count * n + n
    ensures count >= m <==> size >= Times(m, n)
  {
    TimesIsProduct(m, n);
    if count >= m { MulMonotone(m, count, n); }
    if size >= m * n { FloorOrder(m, count, n, size); }
  }

  /** Resampling to an intermediate span and on to the target is resampling straight to the target. */
  lemma {:induction false} TwoStepsAreOne(
    s: seq<Candle>, mid: string, target: string, d: int, n: nat, midSpan: int, m: nat, span: int, nm: nat)
    requires Grid(s, d) && Fits(d, n, midSpan) && Fits(midSpan, m, span) && nm == Times(m, n)
    ensures Fits(d, nm, span)
    ensures Resampled(Resampled(s, mid, n, midSpan), target, m, span) == Resampled(s, target, nm, span)
  {
    FitsThrough(d, n, midSpan, m, span);
    if s != [] {
      var u := Init(s);
      GridSlice(s, d, 0, |s| - 1);
      TwoStepsAreOne(u, mid, target, d, n, midSpan, m, span, nm);
      if ClosesBucket(s, n, midSpan) {
        LastStep(s, mid, target, d, n, midSpan, m, span, nm);
      } else {
        QuietStep(s, d, n, midSpan, span, nm);
        assert Resampled(s, mid, n, midSpan) == Resampled(u, mid, n, midSpan);
      }
    }
  }

  /** Where no intermediate bucket closes, no target bucket closes. */
  lemma QuietStep(s: seq<Candle>, d: int, n: nat, midSpan: int, span: int, nm: nat)
    requires Grid(s, d) && Fits(d, n, midSpan) && Fits(d, nm, span)
    requires span % midSpan == 0 && n <= nm && !ClosesBucket(s, n, midSpan)
    ensures !ClosesBucket(s, nm, span)
  {
    ClosesExactly(s, d, n, midSpan);
    ClosesExactly(s, d, nm, span);
    if ClosesBucket(s, nm, span) { DividesThrough(Last(s).closeTime, span, midSpan); }
  }

  /** The case of `TwoStepsAreOne` where the last candle closes an intermediate bucket. */
  lemma LastStep(
    s: seq<Candle>, mid: string, target: string, d: int, n: nat, midSpan: int, m: nat, span: int, nm: nat)
    requires Grid(s, d) && Fits(d, n, midSpan) && Fits(midSpan, m, span) && Fits(d, nm, span) && nm == Times(m, n)
    requires ClosesBucket(s, n, midSpan)
    ensures var x := Resampled(s, mid, n, midSpan);
            && Init(x) == Resampled(Init(s), mid, n, midSpan)
            && (ClosesBucket(x, m, span) <==> ClosesBucket(s, nm, span))
            && (ClosesBucket(x, m, span) ==> Emission(x, target, m, span) == Emission(s, target, nm, span))
  {
    var x := Resampled(s, mid, n, midSpan);
    ClosesExactly(s, d, n, midSpan);
    EmissionTimes(s, mid, d, n, midSpan);
    ResampledIsGrid(s, mid, d, n, midSpan);
    ClosesExactly(x, midSpan, m, span);
    ClosesExactly(s, d, nm, span);
    CountAtBoundary(s, mid, d, n, midSpan);
    WholeBuckets(|s|, |x|, m, n);
    if ClosesBucket(x, m, span) { SameEmission(s, mid, target, d, n, midSpan, m, span, nm); }
  }

  /** The last `m` intermediate candles are the blocks of the last `nm` source candles. */
  lemma LastBlocks(
    s: seq<Candle>, mid: string, d: int, n: nat, midSpan: int, m: nat, nm: nat)
    requires Grid(s, d) && Fits(d, n, midSpan) && nm == Times(m, n) && m >= 1
    requires |s| >= nm && s != [] && Last(s).closeTime % midSpan == 0
    ensures var x := Resampled(s, mid, n, midSpan);
            |x| >= m && x[|x| - m..] == Blocks(s[|s| - nm..], mid, n, midSpan)
  {
    TailIsBlocks(s, mid, d, n, midSpan, m, |s| - nm);
  }

  lemma SameEmission(
    s: seq<Candle>, mid: string, target: string, d: int, n: nat, midSpan: int, m: nat, span: int, nm: nat)
    requires Grid(s, d) && Fits(d, n, midSpan) && Fits(midSpan, m, span) && Fits(d, nm, span) && nm == Times(m, n)
    requires |s| >= nm && Last(s).closeTime % midSpan == 0
    requires |Resampled(s, mid, n, midSpan)| >= m
    requires Last(Resampled(s, mid, n, midSpan)).closeTime == Last(s).closeTime
    ensures Emission(Resampled(s, mid, n, midSpan), target, m, span) == Emission(s, target, nm, span)
  {
    var x, t := Resampled(s, mid, n, midSpan), s[|s| - nm..];
    assert Aggregate(x[|x| - m..], target, 0, span) == Aggregate(t, target, 0, span) by {
      hide ClosesBucket, Grid, MaxHigh, MinLow, TotalVolume, Blocks, Resampled, Times;
      LastBlocks(s, mid, d, n, midSpan, m, nm);
      AggregateOfBlocks(t, mid, n, midSpan, m);
    }
    assert Emission(x, target, m, span).openTime == Emission(s, target, nm, span).openTime by {
      ResampledIsGrid(s, mid, d, n, midSpan);
      EmissionTimes(x, target, midSpan, m, span);
      EmissionTimes(s, target, d, nm, span);
    }
    AggregateElsewhere(x[|x| - m..], t, target, Emission(s, target, nm, span).openTime, span);
    hide MaxHigh, MinLow, TotalVolume, Resampled, Times, Grid;
  }

  /** Where an aggregate opens does not enter its other fields. */
  lemma AggregateElsewhere(a: seq<Candle>, b: seq<Candle>, target: string, start: int, span: int)
    requires a != [] && b != [] && Aggregate(a, target, 0, span) == Aggregate(b, target, 0, span)
    ensures Aggregate(a, target, start, span) == Aggregate(b, target, start, span)
  {
  }

  /** If the intermediate span divides the target span, closing a target bucket closes an intermediate one. */
  lemma CoarseCloseImpliesFineClose(s: seq<Candle>, d: int, n: nat, midSpan: int, m: nat, span: int)
    requires Grid(s, d) && Fits(d, n, midSpan) && Fits(d, m, span) && span % midSpan == 0
    requires ClosesBucket(s, m, span)
    ensures ClosesBucket(s, n, midSpan)
  {
    ClosesExactly(s, d, m, span);
    ClosesExactly(s, d, n, midSpan);
    DividesThrough(Last(s).closeTime, span, midSpan);
    TimesIsProduct(n, d);
    TimesIsProduct(m, d);
    DivisorIsSmaller(span, midSpan);
    FloorOrder(n, m, d, midSpan);
  }
}
