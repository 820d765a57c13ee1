/** The OHLCV candle and the checks its model validator enforces on every instance. */
module Candles {
  import opened Reals
  import opened Timeframes

  datatype Candle = Candle(
    symbol: string,
    timeframe: string,
    openTime: int,
    closeTime: int,
    open: real,
    high: real,
    low: real,
    close: real,
    volume: real,
    isClosed: bool)

  predicate NonBlank(s: string) {
    s != [] && Stripped(s)
  }

  /** What the validator of the source's frozen model guarantees of any candle that exists. */
  predicate WellFormed(c: Candle) {
    && NonBlank(c.symbol) && NonBlank(c.timeframe)
    && c.openTime < c.closeTime
    && 0.0 < c.low <= c.open <= c.high
    && c.low <= c.close <= c.high
    && c.volume >= 0.0
  }

  predicate AllWellFormed(s: seq<Candle>) {
    forall i | 0 <= i < |s| :: WellFormed(s[i])
  }

  function MaxHigh(s: seq<Candle>): real
    requires s != []
  {
    if |s| == 1 then s[0].high else Max(s[0].high, MaxHigh(s[1..]))
  }

  function MinLow(s: seq<Candle>): real
    requires s != []
  {
    if |s| == 1 then s[0].low else Min(s[0].low, MinLow(s[1..]))
  }

  function TotalVolume(s: seq<Candle>): real {
    if s == [] then 0.0 else s[0].volume + TotalVolume(s[1..])
  }

  lemma {:induction false} MaxHighBounds(s: seq<Candle>)
    requires s != []
    ensures forall i | 0 <= i < |s| :: s[i].high <= MaxHigh(s)
    ensures exists i | 0 <= i < |s| :: s[i].high == MaxHigh(s)
  {
    if |s| > 1 {
      MaxHighBounds(s[1..]);
      var i :| 0 <= i < |s[1..]| && s[1..][i].high == MaxHigh(s[1..]);
      assert s[i + 1].high == MaxHigh(s[1..]);
      forall j | 0 <= j < |s| ensures s[j].high <= MaxHigh(s) {
        if j > 0 { assert s[j] == s[1..][j - 1]; }
      }
      assert s[0].high == MaxHigh(s) || s[i + 1].high == MaxHigh(s);
    } else {
      assert s[0].high == MaxHigh(s);
    }
  }

  lemma {:induction false} MinLowBounds(s: seq<Candle>)
    requires s != []
    ensures forall i | 0 <= i < |s| :: s[i].low >= MinLow(s)
    ensures exists i | 0 <= i < |s| :: s[i].low == MinLow(s)
  {
    if |s| > 1 {
      MinLowBounds(s[1..]);
      var i :| 0 <= i < |s[1..]| && s[1..][i].low == MinLow(s[1..]);
      assert s[i + 1].low == MinLow(s[1..]);
      forall j | 0 <= j < |s| ensures s[j].low >= MinLow(s) {
        if j > 0 { assert s[j] == s[1..][j - 1]; }
      }
      assert s[0].low == MinLow(s) || s[i + 1].low == MinLow(s);
    } else {
      assert s[0].low == MinLow(s);
    }
  }

  lemma {:induction false} ExtremesOfConcat(a: seq<Candle>, b: seq<Candle>)
    requires a != [] && b != []
    ensures MaxHigh(a + b) == Max(MaxHigh(a), MaxHigh(b))
    ensures MinLow(a + b) == Min(MinLow(a), MinLow(b))
  {
    assert (a + b)[1..] == a[1..] + b;
    if |a| > 1 { ExtremesOfConcat(a[1..], b); } else { assert a[1..] + b == b; }
  }

  /** The total volume is the sum of the candles' volumes. */
  lemma {:induction false} VolumeOfConcat(a: seq<Candle>, b: seq<Candle>)
    ensures TotalVolume(a + b) == TotalVolume(a) + TotalVolume(b)
    ensures forall c :: TotalVolume([c]) == c.volume
  {
    if a == [] {
      assert a + b == b;
    } else {
      assert (a + b)[1..] == a[1..] + b;
      VolumeOfConcat(a[1..], b);
    }
  }

  lemma {:induction false} VolumeNonNegative(s: seq<Candle>)
    requires AllWellFormed(s)
    ensures TotalVolume(s) >= 0.0
  {
    if s != [] { VolumeNonNegative(s[1..]); }
  }
}
