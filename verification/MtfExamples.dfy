/** Concrete sources that reach the exceptions the multi-timeframe theorems announce. */
module MtfExamples {
  import opened Wrappers
  import opened Sequences
  import opened Numerals
  import opened Timeframes
  import opened Candles
  import opened Resampling
  import opened ResampledLaws
  import opened BucketRuns
  import opened BatchResampler
  import opened MtfConfig
  import opened MtfCursor
  import opened CursorLaws
  import opened ResamplingTheorems

  const MINUTE := 60 * TICKS_PER_SECOND

  /** `count` candles of one price, the first opening at `first`. */
  function Steady(timeframe: string, first: int, d: int, count: nat): seq<Candle> {
    seq(count, i => Candle("BTC", timeframe, first + i * d, first + i * d + d, 1.0, 1.0, 1.0, 1.0, 0.0, true))
  }

  lemma SteadyIsValid(timeframe: string, first: int, d: int, count: nat)
    requires Interval(timeframe) == Some(d) && NonBlank(timeframe) && count >= 1
    ensures ValidSource(Steady(timeframe, first, d, count)) && AllWellFormed(Steady(timeframe, first, d, count))
  {
    hide Interval;
    var s := Steady(timeframe, first, d, count);
    forall i | 0 <= i < |s| - 1 ensures Adjoins(s, d, i) {
      assert (i + 1) * d == i * d + d;
    }
    assert NonBlank("BTC");
  }

  lemma PlainLabel(text: string)
    requires text != [] && (forall i | 0 <= i < |text| :: '0' <= text[i] <= '9' || 'a' <= text[i] <= 'z')
    ensures Normalize(text) == text && NonBlank(text)
  {
    assert Strip(text) == text;
  }

  lemma LabelOf(k: string, n: nat)
    requires IsCount(k) && NumberOf(k) == n
    ensures Interval(k + "m") == Some(n * MINUTE)
    ensures Normalize(k + "m") == k + "m" && NonBlank(k + "m")
  {
    CountedText(k, 'm');
    LabelReads(k);
    NormalizeIdempotent(k + "m");
    hide Interval, Normalize;
  }

  lemma Counts()
    ensures IsCount("60") && IsCount("30") && IsCount("15")
    ensures NumberOf("60") == 60 && NumberOf("30") == 30 && NumberOf("15") == 15
  {
    assert "60"[..1] == "6" && "30"[..1] == "3" && "15"[..1] == "1";
    assert "6"[..0] == "" && "3"[..0] == "" && "1"[..0] == "";
  }

  /** `60m` and `1h` are two labels of one interval. */
  lemma Labels()
    ensures Interval("60m") == Interval("1h") == Some(60 * MINUTE)
    ensures Interval("30m") == Some(30 * MINUTE) && Interval("15m") == Some(15 * MINUTE)
    ensures forall text | text in ["60m", "1h", "30m", "15m"] :: Normalize(text) == text && NonBlank(text)
  {
    PlainLabel("1h");
    hide Normalize, Interval, NumberOf, NonBlank;
    Counts();
    LabelOf("60", 60);
    LabelOf("30", 30);
    LabelOf("15", 15);
    OneOfEach();
    assert "60" + "m" == "60m" && "30" + "m" == "30m" && "15" + "m" == "15m";
  }

  /** One hourly candle, resampled to `60m`: the batch form keeps its label and the cursor does not. */
  lemma AliasSplitsBatchFromCursor()
    ensures var s := Steady("1h", 0, 60 * MINUTE, 1);
            && ValidSource(s) && TargetFault("60m", 60 * MINUTE).None?
            && ResampleVisible(s, "60m") == Ok(s)
            && ResampleVisible(s, "60m") != Ok(TargetSeries(s, "60m", 1, 60 * MINUTE))
  {
    Labels();
    hide Interval, Normalize;
    SteadyIsValid("1h", 0, 60 * MINUTE, 1);
    var s := Steady("1h", 0, 60 * MINUTE, 1);
    assert Relabeled(s, "60m")[0].timeframe == "60m";
  }

  /** Two half-hours, resampled to `1h` and on to `60m`, keep the label `1h`; directly they get `60m`. */
  lemma AliasBreaksComposition()
    ensures var s := Steady("30m", 0, 30 * MINUTE, 2);
            && ValidSource(s) && ResampleVisible(s, "1h").Ok? && ResampleVisible(s, "1h").value != []
            && Interval(ResampleVisible(s, "1h").value[0].timeframe).Some?
            && ResampleVisible(ResampleVisible(s, "1h").value, "60m") != ResampleVisible(s, "60m")
  {
    Labels();
    hide Interval, Normalize;
    SteadyIsValid("30m", 0, 30 * MINUTE, 2);
    var s := Steady("30m", 0, 30 * MINUTE, 2);
    CountFits(30 * MINUTE, 60 * MINUTE);
    ClosesExactly(s, 30 * MINUTE, 2, 60 * MINUTE);
    assert Last(s).closeTime == 60 * MINUTE;
    hide ClosesBucket;
    assert |Resampled(s, "1h", 2, 60 * MINUTE)| >= 1;
    ResamplingComposes(s, "1h", "60m");
  }

  /** Quarter-hours that open at seven minutes past are a valid source, and hold back a whole hour of candles. */
  lemma MisalignedHoldsBack()
    ensures var s := Steady("15m", 7 * MINUTE, 15 * MINUTE, 9);
            && ValidSource(s) && !Aligned(s, 15 * MINUTE)
            && TargetSeries(s, "1h", 4, 60 * MINUTE) == []
            && exists k :: 0 <= k <= |s| && |Held(s[..k], 4, 60 * MINUTE)| == 4
  {
    Misaligned();
    var s := Steady("15m", 7 * MINUTE, 15 * MINUTE, 9);
    hide Steady, Interval, Normalize;
    MisalignedEmitsExactly(s, "1h", 15 * MINUTE, 4, 60 * MINUTE);
    LongHeld(s, 15 * MINUTE, 4, 60 * MINUTE);
  }

  /** The same source, kept at its own length, emits every candle and never holds one back. */
  lemma MisalignedKeepsItsOwnLength()
    ensures var s := Steady("15m", 7 * MINUTE, 15 * MINUTE, 9);
            && !Aligned(s, 15 * MINUTE) && |TargetSeries(s, "15m", 1, 15 * MINUTE)| == 9
            && forall k | 0 <= k <= |s| :: Held(s[..k], 1, 15 * MINUTE) == []
  {
    Misaligned();
  }

  lemma Misaligned()
    ensures var s := Steady("15m", 7 * MINUTE, 15 * MINUTE, 9);
            && ValidSource(s) && Grid(s, 15 * MINUTE) && |s| == 9 && !Aligned(s, 15 * MINUTE)
    ensures Fits(15 * MINUTE, 4, 60 * MINUTE) && Fits(15 * MINUTE, 1, 15 * MINUTE)
  {
    Labels();
    hide Interval, Normalize;
    SteadyIsValid("15m", 7 * MINUTE, 15 * MINUTE, 9);
    CountFits(15 * MINUTE, 60 * MINUTE);
    CountFits(15 * MINUTE, 15 * MINUTE);
    assert Steady("15m", 7 * MINUTE, 15 * MINUTE, 9)[0].openTime % (15 * MINUTE) == 7 * MINUTE;
  }
}
