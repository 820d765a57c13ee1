/** What a caller of `resample_closed_candles` may rely on, stated on whole results. */
module ResamplingTheorems {
  import opened Wrappers
  import opened Timeframes
  import opened Buckets
  import opened Candles
  import opened Resampling
  import opened ResampledLaws
  import opened BatchResampler
  import opened MtfConfig

  lemma TimesInjective(a: nat, b: nat, d: int)
    requires d > 0 && Times(a, d) == Times(b, d)
    ensures a == b
  {
    TimesIsProduct(a, d);
    TimesIsProduct(b, d);
    DivUnique(a * d, d, a);
    DivUnique(b * d, d, b);
  }

  /** Every non-empty derived series is itself an acceptable source, made of valid candles. */
  lemma OutputIsValidSource(s: seq<Candle>, target: string)
    requires ValidSource(s) && AllWellFormed(s) && ResampleVisible(s, target).Ok?
    ensures var out := ResampleVisible(s, target).value;
            && AllWellFormed(out)
            && (out != [] ==> ValidSource(out) && SourceCheck(out) == Ok(out))
    ensures var out := ResampleVisible(s, target).value;
            out != [] ==> Interval(out[0].timeframe) == Interval(target)
  {
    var d, key := Interval(s[0].timeframe).value, Normalize(target);
    var span := Interval(key).value;
    var out := ResampleVisible(s, target).value;
    IntervalIgnoresSpelling(target);
    if span != d {
      CountFits(d, span);
      var n := span / d;
      ResampledIsGrid(s, key, d, n, span);
      ResampledIsUniform(s, s[0].symbol, s[0].timeframe, key, n, span);
      NormalizeIdempotent(target);
      ResampledIsWellFormed(s, key, n, span);
    }
    SourceCheckExact(out);
  }

  /**
   Resampling through an intermediate timeframe gives what resampling directly gives, unless the
   target is a different label for the intermediate timeframe's own length: then the second step
   hands the intermediate candles back under their old label.
   */
  lemma ResamplingComposes(s: seq<Candle>, mid: string, target: string)
    requires ValidSource(s) && AllWellFormed(s)
    requires ResampleVisible(s, mid).Ok? && ResampleVisible(s, mid).value != []
    requires TargetFault(Normalize(target), Interval(Normalize(mid)).value).None?
    ensures var x := ResampleVisible(s, mid).value;
            var d, midSpan, span :=
              Interval(s[0].timeframe).value, Interval(Normalize(mid)).value, Interval(Normalize(target)).value;
            && ValidSource(x)
            && (ResampleVisible(x, target) == ResampleVisible(s, target)
                <==> !(d < midSpan == span && Normalize(mid) != Normalize(target)))
  {
    var x := ResampleVisible(s, mid).value;
    var d, midSpan, span :=
      Interval(s[0].timeframe).value, Interval(Normalize(mid)).value, Interval(Normalize(target)).value;
    NormalizeIdempotent(mid);
    IntervalIgnoresSpelling(mid);
    OutputIsValidSource(s, mid);
    if midSpan > d {
      DirectAndIndirect(s, Normalize(mid), Normalize(target), d, midSpan, span);
      var m, nm := span / midSpan, span / d;
      if span == midSpan {
        ResampledIsUniform(s, s[0].symbol, s[0].timeframe, Normalize(mid), nm, span);
        ResampledIsUniform(s, s[0].symbol, s[0].timeframe, Normalize(target), nm, span);
        assert x[0].timeframe == Normalize(mid);
      }
    }
  }

  /** The reference-level facts behind `ResamplingComposes`. */
  lemma DirectAndIndirect(s: seq<Candle>, mid: string, target: string, d: int, midSpan: int, span: int)
    requires Grid(s, d) && IsSpan(d) && IsSpan(midSpan) && IsSpan(span)
    requires d < midSpan <= span && midSpan % d == 0 && span % midSpan == 0
    ensures midSpan / d >= 1 && span / midSpan >= 1 && span / d >= 1 && span % d == 0
    ensures Resampled(Resampled(s, mid, midSpan / d, midSpan), target, span / midSpan, span)
            == Resampled(s, target, span / d, span)
  {
    CountFits(d, midSpan);
    CountFits(midSpan, span);
    DividesThrough(span, midSpan, d);
    CountFits(d, span);
    var n, m := midSpan / d, span / midSpan;
    TimesPositive(m, n);
    TwoStepsAreOne(s, mid, target, d, n, midSpan, m, span, Times(m, n));
    TimesInjective(Times(m, n), span / d, d);
  }
}
