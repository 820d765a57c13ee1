/**
 The CSV import (app/market/historical.py) from decoded rows on: candles are built and checked,
 sorted by opening time, validated, and their gaps counted.  An import of good quality is exactly
 a source the multi-timeframe code accepts.
 */
module HistoricalImport {
  import opened Wrappers
  import opened Sequences
  import opened Ordering
  import opened Timeframes
  import opened Candles
  import opened Resampling
  import opened Quality

  /** One data row after its timestamp and decimals have been parsed. */
  datatype Row = Row(openTime: int, open: real, high: real, low: real, close: real, volume: real)

  datatype ImportError = BadInterval | InvalidRow(line: nat) | InvalidSeries(error: SeriesError)

  datatype SnapshotQuality = SnapshotQuality(
    isStale: bool, missingFields: set<string>, gapCount: nat, hasDuplicates: bool, isValid: bool)

  datatype ImportResult = ImportResult(symbol: string, timeframe: string, candles: seq<Candle>, quality: SnapshotQuality)

  function BuildQuality(stale: bool, missing: set<string>, gapCount: nat, duplicates: bool): SnapshotQuality {
    var named := missing - {""};
    SnapshotQuality(stale, named, gapCount, duplicates, !(stale || named != {} || gapCount > 0 || duplicates))
  }

  /** Blank names are not named, and valid is what is fresh, complete, without gaps and without duplicates. */
  lemma QualityExactly(stale: bool, missing: set<string>, gapCount: nat, duplicates: bool)
    ensures var q := BuildQuality(stale, missing, gapCount, duplicates);
            && (forall name :: name in q.missingFields <==> name in missing && |name| > 0)
            && (q.isValid <==> !stale && gapCount == 0 && !duplicates && forall name | name in missing :: |name| == 0)
            && q.isStale == stale && q.gapCount == gapCount && q.hasDuplicates == duplicates
  {
    var q := BuildQuality(stale, missing, gapCount, duplicates);
    if q.missingFields != {} {
      var name :| name in q.missingFields;
      assert name in missing && |name| > 0;
    }
  }

  function CandleOf(row: Row, symbol: string, timeframe: string, interval: int): Candle {
    Candle(Strip(symbol), Strip(timeframe), row.openTime, row.openTime + interval,
           row.open, row.high, row.low, row.close, row.volume, true)
  }

  function CandlesOf(rows: seq<Row>, symbol: string, timeframe: string, interval: int): seq<Candle> {
    seq(|rows|, i requires 0 <= i < |rows| => CandleOf(rows[i], symbol, timeframe, interval))
  }

  function OpenTime(c: Candle): int { c.openTime }

  function Imported(rows: seq<Row>, symbol: string, timeframe: string, interval: int): seq<Candle> {
    SortBy(CandlesOf(rows, symbol, timeframe, interval), OpenTime)
  }

  /** Every row makes a valid candle, and in time order they form a regular series. */
  predicate Importable(rows: seq<Row>, symbol: string, timeframe: string, interval: int) {
    && interval > 0 && AllWellFormed(CandlesOf(rows, symbol, timeframe, interval))
    && Regular(Imported(rows, symbol, timeframe, interval), Some(interval))
  }

  /** What makes a row acceptable: names that are not blank, a positive low, and prices between low and high. */
  predicate GoodRow(row: Row, symbol: string, timeframe: string) {
    && Strip(symbol) != [] && Strip(timeframe) != []
    && 0.0 < row.low <= row.open <= row.high && row.low <= row.close <= row.high && row.volume >= 0.0
  }

  lemma StrippedText(text: string)
    ensures Stripped(Strip(text))
  {
    var left, right := StripSplits(text);
  }

  lemma RowIsGood(row: Row, symbol: string, timeframe: string, interval: int)
    ensures WellFormed(CandleOf(row, symbol, timeframe, interval)) <==> GoodRow(row, symbol, timeframe) && interval > 0
  {
    StrippedText(symbol);
    StrippedText(timeframe);
    hide Strip, Stripped;
  }

  /** The candle of a row: its figures, under the stripped names, closed one interval after it opened. */
  predicate MadeFrom(c: Candle, row: Row, symbol: string, timeframe: string, interval: int) {
    && c.symbol == Strip(symbol) && c.timeframe == Strip(timeframe) && c.isClosed
    && c.openTime == row.openTime && c.closeTime == row.openTime + interval
    && c.open == row.open && c.high == row.high && c.low == row.low && c.close == row.close && c.volume == row.volume
  }

  /** One candle for every row, listed by strictly increasing opening time. */
  ghost predicate Holds(s: seq<Candle>, rows: seq<Row>, symbol: string, timeframe: string, interval: int) {
    && |s| == |rows|
    && (forall i, j | 0 <= i < j < |s| :: s[i].openTime < s[j].openTime)
    && (forall row | row in rows :: exists c | c in s :: MadeFrom(c, row, symbol, timeframe, interval))
    && (forall c | c in s :: exists row | row in rows :: MadeFrom(c, row, symbol, timeframe, interval))
  }

  lemma ImportHolds(rows: seq<Row>, symbol: string, timeframe: string, interval: int)
    requires interval > 0 && Regular(Imported(rows, symbol, timeframe, interval), Some(interval))
    ensures Holds(Imported(rows, symbol, timeframe, interval), rows, symbol, timeframe, interval)
  {
    var built, s := CandlesOf(rows, symbol, timeframe, interval), Imported(rows, symbol, timeframe, interval);
    SortBySpec(built, OpenTime);
    forall i, j | 0 <= i < j < |s| ensures s[i].openTime < s[j].openTime {
      RegularAscends(s, Some(interval), i, j);
    }
    forall row | row in rows ensures exists c | c in s :: MadeFrom(c, row, symbol, timeframe, interval) {
      var i :| 0 <= i < |rows| && rows[i] == row;
      assert built[i] in multiset(s);
      assert built[i] in s && MadeFrom(built[i], row, symbol, timeframe, interval);
    }
    forall c | c in s ensures exists row | row in rows :: MadeFrom(c, row, symbol, timeframe, interval) {
      assert c in multiset(built);
      var i :| 0 <= i < |built| && built[i] == c;
      assert rows[i] in rows;
    }
    hide Strip;
  }

  method ImportCandles(rows: seq<Row>, symbol: string, timeframe: string, interval: int)
    returns (r: Result<ImportResult, ImportError>)
    ensures r.Ok? <==> Importable(rows, symbol, timeframe, interval)
    ensures r.Ok? ==>
              && r.value.candles == Imported(rows, symbol, timeframe, interval)
              && r.value.quality.gapCount == Gaps(r.value.candles, interval)
              && (r.value.quality.isValid <==> r.value.quality.gapCount == 0)
              && (rows != [] ==> r.value.candles != [])
    ensures r.Ok? ==>
              && r.value.symbol == symbol && r.value.timeframe == timeframe
              && (forall row | row in rows :: GoodRow(row, symbol, timeframe))
              && Holds(r.value.candles, rows, symbol, timeframe, interval)
              && !r.value.quality.isStale && !r.value.quality.hasDuplicates && r.value.quality.missingFields == {}
              && (rows != [] ==>
                    var s := r.value.candles;
                    r.value.quality.gapCount * interval == s[|s| - 1].openTime - s[0].openTime - (|rows| - 1) * interval)
    ensures r == Err(BadInterval) <==> interval <= 0
    ensures r.Err? && r.error.InvalidRow? ==>
              && 2 <= r.error.line < |rows| + 2
              && !WellFormed(CandleOf(rows[r.error.line - 2], symbol, timeframe, interval))
              && !GoodRow(rows[r.error.line - 2], symbol, timeframe)
              && forall i | 0 <= i < r.error.line - 2 :: GoodRow(rows[i], symbol, timeframe)
    ensures r.Err? && r.error.InvalidSeries? ==>
              && interval > 0
              && var s := Imported(rows, symbol, timeframe, interval);
                 exists i | 0 <= i < |s| :: Irregular(s, i, Some(interval), r.error.error)
  {
    hide Regular, SortBy, Gaps, Irregular, Holds, Strip, GoodRow, WellFormed;
    if interval <= 0 { return Err(BadInterval); }
    var candles := [];
    for i := 0 to |rows|
      invariant candles == CandlesOf(rows[..i], symbol, timeframe, interval) && AllWellFormed(candles)
      invariant forall j | 0 <= j < i :: GoodRow(rows[j], symbol, timeframe)
    {
      RowIsGood(rows[i], symbol, timeframe, interval);
      var candle := CandleOf(rows[i], symbol, timeframe, interval);
      if !WellFormed(candle) {
        assert !WellFormed(CandlesOf(rows, symbol, timeframe, interval)[i]);
        return Err(InvalidRow(i + 2));
      }
      candles := candles + [candle];
    }
    assert rows[..|rows|] == rows;
    SortBySpec(candles, OpenTime);
    candles := SortBy(candles, OpenTime);
    var fault := ValidateCandleSeries(candles, Some(interval));
    if fault.Some? { return Err(InvalidSeries(fault.value)); }
    ImportHolds(rows, symbol, timeframe, interval);
    var gaps := CountGaps(candles, interval);
    return Ok(ImportResult(symbol, timeframe, candles, BuildQuality(false, {}, gaps.value, false)));
  }

  lemma {:induction false} ImportedCandles(rows: seq<Row>, symbol: string, timeframe: string, interval: int, i: nat)
    requires i < |Imported(rows, symbol, timeframe, interval)|
    ensures var c := Imported(rows, symbol, timeframe, interval)[i];
            && c.symbol == Strip(symbol) && c.timeframe == Strip(timeframe)
            && c.closeTime == c.openTime + interval && c.isClosed
  {
    var built := CandlesOf(rows, symbol, timeframe, interval);
    SortBySpec(built, OpenTime);
    hide SortBy;
    var c := Imported(rows, symbol, timeframe, interval)[i];
    assert c in multiset(Imported(rows, symbol, timeframe, interval));
    assert c in built;
  }

  /** A non-empty import is a valid multi-timeframe source exactly when nothing is missing and its label fits. */
  lemma ImportedIsValidSource(rows: seq<Row>, symbol: string, timeframe: string, interval: int)
    requires interval > 0 && Regular(Imported(rows, symbol, timeframe, interval), Some(interval))
    requires Imported(rows, symbol, timeframe, interval) != []
    ensures var s := Imported(rows, symbol, timeframe, interval);
            ValidSource(s) <==> Gaps(s, interval) == 0 && Interval(Strip(timeframe)) == Some(interval)
  {
    var s := Imported(rows, symbol, timeframe, interval);
    forall i | 0 <= i < |s|
      ensures s[i].symbol == Strip(symbol) && s[i].timeframe == Strip(timeframe)
      ensures s[i].closeTime == s[i].openTime + interval && s[i].isClosed
    {
      ImportedCandles(rows, symbol, timeframe, interval, i);
    }
    NoGapsExactly(s, interval);
    hide Imported, Regular, Gaps, Interval;
    GridIsConsecutive(s, interval);
    assert s[0].timeframe == Strip(timeframe);
  }

  lemma GridIsConsecutive(s: seq<Candle>, d: int)
    requires forall i | 0 <= i < |s| :: s[i].closeTime == s[i].openTime + d
    ensures Grid(s, d) <==> AllConsecutive(s, d)
  {
    forall i | 0 <= i < |s| - 1 ensures Adjoins(s, d, i) <==> Consecutive(s, d, i + 1) {
    }
    if Grid(s, d) {
      forall i | 0 < i < |s| ensures Consecutive(s, d, i) { assert Adjoins(s, d, i - 1); }
    }
  }

  // ---------------------------------------------------------------- the order of the rows

  ghost predicate Chronological(s: seq<Candle>) {
    forall i, j | 0 <= i < j < |s| :: s[i].openTime < s[j].openTime
  }

  lemma WithoutLast(s: seq<Candle>)
    requires s != []
    ensures multiset(Init(s)) == multiset(s) - multiset{Last(s)} && s == Init(s) + [Last(s)]
    ensures Chronological(s) ==> Chronological(Init(s))
    ensures Ascending(s, OpenTime) ==> Ascending(Init(s), OpenTime)
  {
    assert s == Init(s) + [Last(s)];
  }

  lemma SameLast(a: seq<Candle>, b: seq<Candle>)
    requires multiset(a) == multiset(b) && a != [] && b != []
    requires Chronological(a)
    requires Ascending(b, OpenTime)
    ensures Last(a) == Last(b)
  {
    assert Last(a) in multiset(b) && Last(b) in multiset(a);
    var i :| 0 <= i < |a| && a[i] == Last(b);
    var j :| 0 <= j < |b| && b[j] == Last(a);
    if j < |b| - 1 { assert OpenTime(b[j]) <= OpenTime(Last(b)); }
  }

  lemma {:induction false} StrictOrderIsUnique(a: seq<Candle>, b: seq<Candle>)
    requires multiset(a) == multiset(b)
    requires Chronological(a)
    requires Ascending(b, OpenTime)
    ensures a == b
  {
    hide Chronological, Ascending;
    assert |multiset(a)| == |multiset(b)|;
    if a != [] {
      SameLast(a, b);
      WithoutLast(a);
      WithoutLast(b);
      StrictOrderIsUnique(Init(a), Init(b));
    }
  }

  /** A row can be read back from its candle, so as many equal candles are built as there are equal rows. */
  function RowOf(c: Candle): Row { Row(c.openTime, c.open, c.high, c.low, c.close, c.volume) }

  lemma {:induction false} CandleCount(rows: seq<Row>, symbol: string, timeframe: string, interval: int, c: Candle)
    ensures multiset(CandlesOf(rows, symbol, timeframe, interval))[c]
            == if c == CandleOf(RowOf(c), symbol, timeframe, interval) then multiset(rows)[RowOf(c)] else 0
  {
    if rows != [] {
      CandleCount(Init(rows), symbol, timeframe, interval, c);
      assert rows == Init(rows) + [Last(rows)];
      assert CandlesOf(rows, symbol, timeframe, interval)
          == CandlesOf(Init(rows), symbol, timeframe, interval) + [CandleOf(Last(rows), symbol, timeframe, interval)];
    }
  }

  lemma PermutedCandles(a: seq<Row>, b: seq<Row>, symbol: string, timeframe: string, interval: int)
    requires multiset(a) == multiset(b)
    ensures multiset(CandlesOf(a, symbol, timeframe, interval)) == multiset(CandlesOf(b, symbol, timeframe, interval))
  {
    forall c
      ensures multiset(CandlesOf(a, symbol, timeframe, interval))[c]
              == multiset(CandlesOf(b, symbol, timeframe, interval))[c]
    {
      CandleCount(a, symbol, timeframe, interval, c);
      CandleCount(b, symbol, timeframe, interval, c);
    }
  }

  lemma SameWhenRegular(a: seq<Row>, b: seq<Row>, symbol: string, timeframe: string, interval: int)
    requires interval > 0 && multiset(a) == multiset(b)
    requires Regular(Imported(a, symbol, timeframe, interval), Some(interval))
    ensures Imported(b, symbol, timeframe, interval) == Imported(a, symbol, timeframe, interval)
  {
    PermutedCandles(a, b, symbol, timeframe, interval);
    SortBySpec(CandlesOf(a, symbol, timeframe, interval), OpenTime);
    SortBySpec(CandlesOf(b, symbol, timeframe, interval), OpenTime);
    var s := Imported(a, symbol, timeframe, interval);
    forall i, j | 0 <= i < j < |s| ensures s[i].openTime < s[j].openTime {
      RegularAscends(s, Some(interval), i, j);
    }
    StrictOrderIsUnique(s, Imported(b, symbol, timeframe, interval));
  }

  lemma PermutedWellFormed(a: seq<Candle>, b: seq<Candle>)
    requires multiset(a) == multiset(b) && AllWellFormed(a)
    ensures AllWellFormed(b)
  {
    forall i | 0 <= i < |b| ensures WellFormed(b[i]) {
      assert b[i] in multiset(a);
      assert b[i] in a;
    }
  }

  /** The order in which the file lists its rows decides neither whether it can be imported nor the result. */
  lemma ImportIgnoresRowOrder(a: seq<Row>, b: seq<Row>, symbol: string, timeframe: string, interval: int)
    requires multiset(a) == multiset(b)
    ensures Importable(a, symbol, timeframe, interval) <==> Importable(b, symbol, timeframe, interval)
    ensures Importable(a, symbol, timeframe, interval) ==>
              Imported(a, symbol, timeframe, interval) == Imported(b, symbol, timeframe, interval)
  {
    hide Regular, Imported, CandlesOf, AllWellFormed;
    PermutedCandles(a, b, symbol, timeframe, interval);
    var x, y := CandlesOf(a, symbol, timeframe, interval), CandlesOf(b, symbol, timeframe, interval);
    if AllWellFormed(x) { PermutedWellFormed(x, y); }
    if AllWellFormed(y) { PermutedWellFormed(y, x); }
    if interval > 0 {
      if Regular(Imported(a, symbol, timeframe, interval), Some(interval)) {
        SameWhenRegular(a, b, symbol, timeframe, interval);
      }
      if Regular(Imported(b, symbol, timeframe, interval), Some(interval)) {
        SameWhenRegular(b, a, symbol, timeframe, interval);
      }
    }
  }
}
