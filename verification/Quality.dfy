/**
 Series validation and gap counting (app/market/quality.py): order, uniqueness, spacing, and how
 many intervals are missing.
 */
module Quality {
  import opened Wrappers
  import opened Sequences
  import opened Candles

  datatype SeriesError =
    | BadExpectedInterval
    | MixedSeries
    | DuplicateOpenTime
    | NotChronological
    | ShorterThanExpected
    | NotAligned

  // ---------------------------------------------------------------- what a regular series is

  predicate Follows(s: seq<Candle>, i: nat, expected: Option<int>)
    requires 0 < i < |s| && (expected.Some? ==> expected.value > 0)
  {
    var delta := s[i].openTime - s[i - 1].openTime;
    && delta > 0
    && (expected.Some? ==> delta >= expected.value && delta % expected.value == 0)
  }

  /** One symbol and timeframe, strictly chronological, and spaced by whole expected intervals. */
  predicate Regular(s: seq<Candle>, expected: Option<int>)
    requires expected.Some? ==> expected.value > 0
  {
    && (forall i | 0 <= i < |s| :: s[i].symbol == s[0].symbol && s[i].timeframe == s[0].timeframe)
    && (forall i | 0 < i < |s| :: Follows(s, i, expected))
  }

  lemma {:induction false} RegularAscends(s: seq<Candle>, expected: Option<int>, i: nat, j: nat)
    requires expected.Some? ==> expected.value > 0
    requires Regular(s, expected) && i < j < |s|
    ensures s[i].openTime < s[j].openTime
  {
    assert Follows(s, j, expected);
    if i < j - 1 { RegularAscends(s, expected, i, j - 1); }
  }

  lemma RegularStep(s: seq<Candle>, i: nat, expected: Option<int>)
    requires expected.Some? ==> expected.value > 0
    requires i < |s|
    ensures Regular(s[..i + 1], expected)
            <==> Regular(s[..i], expected) && s[i].symbol == s[0].symbol && s[i].timeframe == s[0].timeframe
                 && (i > 0 ==> Follows(s, i, expected))
  {
    var t, u := s[..i + 1], s[..i];
    assert forall j | 0 <= j < i :: t[j] == u[j] == s[j];
    assert forall j | 0 < j < i :: Follows(t, j, expected) == Follows(u, j, expected);
    if i > 0 { assert Follows(t, i, expected) == Follows(s, i, expected); }
  }

  lemma {:induction false} IrregularStays(s: seq<Candle>, i: nat, expected: Option<int>)
    requires expected.Some? ==> expected.value > 0
    requires i <= |s| && !Regular(s[..i], expected)
    ensures !Regular(s, expected)
    decreases |s| - i
  {
    if i < |s| {
      RegularStep(s, i, expected);
      IrregularStays(s, i + 1, expected);
    } else {
      assert s[..i] == s;
    }
  }

  /** What a fault says about candle `i`, the first at which the series stops being regular. */
  ghost predicate Irregular(s: seq<Candle>, i: nat, expected: Option<int>, fault: SeriesError)
    requires i < |s| && (expected.Some? ==> expected.value > 0)
  {
    && Regular(s[..i], expected)
    && match fault
       case BadExpectedInterval => false
       case MixedSeries => s[i].symbol != s[0].symbol || s[i].timeframe != s[0].timeframe
       case DuplicateOpenTime =>
         && s[i].symbol == s[0].symbol && s[i].timeframe == s[0].timeframe
         && exists j | 0 <= j < i :: s[j].openTime == s[i].openTime
       case NotChronological =>
         && i > 0 && s[i].symbol == s[0].symbol && s[i].timeframe == s[0].timeframe
         && s[i].openTime < s[i - 1].openTime && forall j | 0 <= j < i :: s[j].openTime != s[i].openTime
       case ShorterThanExpected =>
         && i > 0 && s[i].symbol == s[0].symbol && s[i].timeframe == s[0].timeframe && expected.Some?
         && 0 < s[i].openTime - s[i - 1].openTime < expected.value
       case NotAligned =>
         && i > 0 && s[i].symbol == s[0].symbol && s[i].timeframe == s[0].timeframe && expected.Some?
         && s[i].openTime - s[i - 1].openTime > expected.value
         && (s[i].openTime - s[i - 1].openTime) % expected.value != 0
  }

  /** `validate_candle_series`: passes exactly the regular series. */
  method ValidateCandleSeries(s: seq<Candle>, expected: Option<int>) returns (fault: Option<SeriesError>)
    ensures fault == Some(BadExpectedInterval) <==> expected.Some? && expected.value <= 0
    ensures fault.None? <==> !(expected.Some? && expected.value <= 0) && Regular(s, expected)
    ensures fault.Some? && fault != Some(BadExpectedInterval) ==>
              exists i | 0 <= i < |s| :: Irregular(s, i, expected, fault.value)
  {
    if expected.Some? && expected.value <= 0 { return Some(BadExpectedInterval); }
    var previous: Option<Candle>, seen: set<int> := None, {};
    var symbol: Option<string>, timeframe: Option<string> := None, None;
    for i := 0 to |s|
      invariant Regular(s[..i], expected)
      invariant seen == set j | 0 <= j < i :: s[j].openTime
      invariant if i == 0 then previous.None? && symbol.None?
                else previous == Some(s[i - 1]) && symbol == Some(s[0].symbol) && timeframe == Some(s[0].timeframe)
    {
      var candle := s[i];
      RegularStep(s, i, expected);
      if Regular(s[..i + 1], expected) {
        forall j | 0 <= j < i ensures s[j].openTime < candle.openTime {
          RegularAscends(s[..i + 1], expected, j, i);
        }
      } else {
        IrregularStays(s, i + 1, expected);
      }
      hide Regular;
      if symbol.None? {
        symbol, timeframe := Some(candle.symbol), Some(candle.timeframe);
      } else if candle.symbol != symbol.value || candle.timeframe != timeframe.value {
        assert Irregular(s, i, expected, MixedSeries);
        return Some(MixedSeries);
      }
      if candle.openTime in seen {
        assert Irregular(s, i, expected, DuplicateOpenTime);
        return Some(DuplicateOpenTime);
      }
      seen := seen + {candle.openTime};
      if previous.Some? {
        if candle.openTime <= previous.value.openTime {
          assert Irregular(s, i, expected, NotChronological);
          return Some(NotChronological);
        }
        if expected.Some? {
          var delta := candle.openTime - previous.value.openTime;
          if delta < expected.value {
            assert Irregular(s, i, expected, ShorterThanExpected);
            return Some(ShorterThanExpected);
          }
          if delta % expected.value != 0 {
            assert Irregular(s, i, expected, NotAligned);
            return Some(NotAligned);
          }
        }
      }
      previous := Some(candle);
    }
    assert s[..|s|] == s;
    return None;
  }

  // ---------------------------------------------------------------- gaps

  /** Whole intervals missing between two opening times. */
  function MissingBetween(delta: int, d: int): nat
    requires d > 0
  {
    if delta > d && delta / d - 1 > 0 then delta / d - 1 else 0
  }

  function Gaps(s: seq<Candle>, d: int): nat
    requires d > 0
  {
    if |s| < 2 then 0 else Gaps(Init(s), d) + MissingBetween(Last(s).openTime - s[|s| - 2].openTime, d)
  }

  lemma NextGap(gaps: int, delta: int, d: int, n: int)
    requires d > 0 && delta >= d && delta % d == 0
    ensures (gaps + MissingBetween(delta, d)) * d == gaps * d + delta - d
    ensures n * d == (n - 1) * d + d
    ensures MissingBetween(delta, d) == 0 <==> delta == d
  {
    var q := delta / d;
    assert delta == q * d;
    assert q >= 1;
    assert MissingBetween(delta, d) == q - 1;
    assert (gaps + (q - 1)) * d == gaps * d + q * d - d;
    if q == 1 { assert delta == d; }
  }

  /** What is missing is exactly what the span of the series leaves over. */
  lemma {:induction false} GapsTelescope(s: seq<Candle>, d: int)
    requires d > 0 && s != [] && Regular(s, Some(d))
    ensures Gaps(s, d) * d == Last(s).openTime - s[0].openTime - (|s| - 1) * d
  {
    if |s| > 1 {
      RegularStep(s, |s| - 1, Some(d));
      assert s[..|s| - 1 + 1] == s;
      GapsTelescope(Init(s), d);
      assert Follows(s, |s| - 1, Some(d));
      NextGap(Gaps(Init(s), d), Last(s).openTime - s[|s| - 2].openTime, d, |s| - 1);
    }
  }

  predicate Consecutive(s: seq<Candle>, d: int, i: nat)
    requires 0 < i < |s|
  {
    s[i].openTime == s[i - 1].openTime + d
  }

  predicate AllConsecutive(s: seq<Candle>, d: int) {
    forall i | 0 < i < |s| :: Consecutive(s, d, i)
  }

  lemma ConsecutiveStep(s: seq<Candle>, d: int)
    requires |s| > 1
    ensures AllConsecutive(s, d) <==> AllConsecutive(Init(s), d) && Consecutive(s, d, |s| - 1)
  {
    assert forall i | 0 < i < |s| - 1 :: Consecutive(Init(s), d, i) == Consecutive(s, d, i);
  }

  /** Nothing is missing exactly when every candle opens one interval after its predecessor. */
  lemma {:induction false} NoGapsExactly(s: seq<Candle>, d: int)
    requires d > 0 && Regular(s, Some(d))
    ensures Gaps(s, d) == 0 <==> AllConsecutive(s, d)
  {
    if |s| > 1 {
      RegularStep(s, |s| - 1, Some(d));
      assert s[..|s| - 1 + 1] == s;
      assert Follows(s, |s| - 1, Some(d));
      hide Regular, AllConsecutive, MissingBetween;
      NoGapsExactly(Init(s), d);
      NextGap(0, Last(s).openTime - s[|s| - 2].openTime, d, 0);
      ConsecutiveStep(s, d);
    }
  }

  /** `count_gaps`. */
  method CountGaps(s: seq<Candle>, d: int) returns (r: Result<nat, SeriesError>)
    ensures r.Ok? <==> d > 0 && Regular(s, Some(d))
    ensures r.Ok? ==> r.value == Gaps(s, d)
    ensures r.Ok? && s != [] ==> r.value * d == Last(s).openTime - s[0].openTime - (|s| - 1) * d
  {
    if d <= 0 { return Err(BadExpectedInterval); }
    var fault := ValidateCandleSeries(s, Some(d));
    if fault.Some? { return Err(fault.value); }
    if s == [] { return Ok(0); }
    var gaps := 0;
    for i := 1 to |s|
      invariant gaps == Gaps(s[..i], d)
    {
      assert Init(s[..i + 1]) == s[..i];
      var delta := s[i].openTime - s[i - 1].openTime;
      if delta > d {
        var missing := delta / d - 1;
        gaps := gaps + if missing > 0 then missing else 0;
      }
    }
    assert s[..|s|] == s;
    GapsTelescope(s, d);
    return Ok(gaps);
  }
}
