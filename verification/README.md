# Verified model of the trading platform's deterministic core

This project models, in Dafny, the parts of the platform whose results must be right whatever the
input: multi-timeframe candles, position reconstruction and profit accounting, market structure,
bounded dashboard history, AI cost attribution, evidence grounding and the campaign lifecycle.
`dafny verify dfyconfig.toml` checks the whole project.

| files | part of the system |
|---|---|
| `Timeframes`, `Buckets`, `Candles`, `Resampling`, `ResampledLaws`, `BucketRuns`, `BatchResampler`, `MtfConfig`, `MtfCursor`, `CursorLaws`, `MtfSlice`, `ResamplingTheorems`, `MtfExamples` | streaming and batch construction of multi-timeframe candles |
| `Positions`, `Ledgers`, `Trading`, `Drawdown`, `Adapters`, `PaperBroker`, `Ordering`, `KeyOrder`, `Metrics` | fills to positions, closed trades and reported figures, and the paper broker's own books |
| `Structure`, `StructureLaws`, `StructureContext` | pivots, ranges and breakout states |
| `BoundedHistory`, `DashboardStore` | the dashboard's bounded read model |
| `Quality`, `HistoricalImport` | series validation, gap counting and the CSV import |
| `AiCosts`, `AiCostReport` | attribution of AI cost and cache figures |
| `JsonPaths`, `JsonPathLaws`, `Grounding` | evidence paths, their meaning and the grounding check |
| `Campaigns` | the life of a backtest campaign |
| `Wrappers`, `Sequences`, `Sums`, `Reals`, `Numerals` | shared vocabulary |

Each part has a specification function (what should be computed), the source's own algorithm as a
method or class proved against it, and laws about the specification. Loops and mutable objects of
the source are loops and classes here: the cursor, the position states, the broker's account, the
dashboard store and the campaign service carry class invariants that tie every field to the history
of accepted inputs.

Instants are integers in microseconds, prices and amounts are reals, timeframes and identifiers are
strings, exceptions are results with an error case.

## Where the code does not do what one might expect

Each of these is a proved statement with the exact condition.

* A pending bucket stays shorter than the expected count, and every source candle is emitted, pending
  or in a head shorter than one bucket, exactly for sources that open on a multiple of their own
  interval and for targets of the source's own length, which are emitted candle by candle. For a
  longer target any other contiguous source never emits a derived candle, and its pending bucket
  reaches a full bucket's length (`CursorLaws.PendingStaysShortExactly`,
  `CursorLaws.CursorConservesExactly`, `CursorLaws.MisalignedEmitsExactly`; reached by
  `MtfExamples.MisalignedHoldsBack`). "Exactly" is over runs of more than two buckets.
* For a target that is another label of the source's own length (60m for 1h) the batch form returns
  the source candles under their old label and the cursor relabels them (`MtfCursor.MatchesBatch`);
  for the same reason two resampling steps can differ from one
  (`ResamplingTheorems.ResamplingComposes`). Both differences are reached: see `MtfExamples`.
* An instant with a fraction of a second before 1970 that lies less than a second before a multiple of
  the target interval is put into the bucket that starts at that multiple, after it; every other instant
  lies in its bucket (`Buckets.BucketContainsExactly`).
* A slice never depends on what lies behind its cutoff, with one exception: an empty input is
  reported differently from an input whose first candle closes too late (`MtfSlice.NoLookAhead`).
* The drawdown percentage is measured against the running peak. It is the largest relative loss over
  all pairs with a positive start exactly when every fall below zero is matched by a fall from some peak
  (`Drawdown.PercentageIsPairwiseExactly`), so always without negative equities.
* Splitting a path at its dots leads back to its value, for every scalar of the payload, exactly when
  no key on the way to a scalar contains a dot and no root key leading to one is empty
  (`JsonPathLaws.SplittableExactly`). Otherwise two values can share a path
  (`JsonPathLaws.DottedKeyIsAmbiguous`) or a value can have none (`JsonPathLaws.EmptyKeyIsUnnameable`).
* In core.py the path set does not look into Pydantic models while the leaf set does. For payloads
  whose paths and leaf paths split back into their keys, leaves are among the paths exactly when no
  model dumps to a scalar below its root (`JsonPathLaws.CoreLeavesAmongPathsExactly`).
* A shown cancellation lasts until the campaign ends exactly when the campaign had begun; while it is
  queued its start overwrites the status (`Campaigns.CancellationLastsExactly`), though the request
  itself survives (`Campaigns.QueuedCancellationSurvives`).
* Progress never moves backwards even if a runner reports decreasing counts
  (`Campaigns.RunEvolves` needs no assumption on them).

## Model

| member | source | states |
|---|---|---|
| `Timeframes.NormalizeIdempotent` | app/market/multitimeframe.py:31 | normalising a label twice is normalising it once, so a label stored by one step is read unchanged by the next |
| `Timeframes.IntervalIgnoresSpelling` | app/market/multitimeframe.py:28-39 | a label and its normalised spelling denote the same interval |
| `Timeframes.StripSplits` | app/market/multitimeframe.py:31 | the stripped label is what is left between two margins of white space |
| `Timeframes.MarginsVanish` | app/market/multitimeframe.py:31 | no other text is: margins around a stripped text vanish and the text is only lowered |
| `Timeframes.CharacterCodes` | app/market/multitimeframe.py:31 | the characters stripped and the letters lowered, by their codes |
| `Numerals.NumberOfNumeral` | app/market/multitimeframe.py:38 | reading a written count gives it back |
| `Numerals.NumeralOfNumber` | app/market/multitimeframe.py:38 | writing a count that was read gives its digits back |
| `Timeframes.IntervalExactly` | app/market/multitimeframe.py:20-39 | a label is supported exactly when it normalises to a positive decimal count without a leading zero and m, h or d, and denotes that many times 60, 3,600 or 86,400 seconds |
| `Timeframes.LabelReads` | app/market/multitimeframe.py:20-39 | for every count the three units in either case, in seconds |
| `Timeframes.UnitsCompare` | app/market/multitimeframe.py:21-25 | for every count a d label denotes 24 times the h label, which denotes 60 times the m label |
| `Buckets.BucketStartIsMultiple` | app/market/multitimeframe.py:119-123 | every bucket start is a whole-second multiple of the target interval |
| `Buckets.BucketContains` | app/market/multitimeframe.py:119-123 | on whole seconds the bucket is the half-open interval of one target length around the instant |
| `Buckets.BucketUnique` | app/market/multitimeframe.py:119-123 | on whole seconds no other aligned interval contains the instant |
| `Buckets.EpochSecondsExactly` | app/market/multitimeframe.py:121 | an instant is truncated to the whole second between it and the epoch |
| `Buckets.BucketContainsExactly` | app/market/multitimeframe.py:119-123 | fractions of a second included, the bucket contains every instant but those before 1970 that lie less than a second before a multiple, which go into the next one |
| `Buckets.BucketStartMonotone` | app/market/multitimeframe.py:119-123 | a later instant is never put into an earlier bucket, truncation before 1970 included |
| `Resampling.SourceCheckExact` | app/market/multitimeframe.py:48-85 | the validator accepts exactly the one-symbol, one-timeframe, closed, gap-free series, and returns them unchanged |
| `Resampling.BoundaryCheckIsRedundant` | app/market/multitimeframe.py:79-82 | the last check of the validator can never fail: the earlier ones already decide it |
| `Resampling.RefusedForFirstBroken` | app/market/multitimeframe.py:48-85 | a refused series is refused for the first candle up to which it is no valid source, with the first check that candle fails |
| `Resampling.ValidateSource` | app/market/multitimeframe.py:48-85 | the validation loop accepts exactly the valid sources and otherwise names the first broken candle's first failing check |
| `Resampling.ReadVisibleSource` | app/market/multitimeframe.py:88-116 | only the leading candles that close by the cutoff are read and validated; an empty input is the one error that does not depend on them |
| `Resampling.VisibleExactly` | app/market/multitimeframe.py:101-116 | the visible candles are the longest prefix that closes by the cutoff |
| `Resampling.AggregateSummarises` | app/market/multitimeframe.py:126-146 | an aggregate has the first open, the last close, the attained extremes and the summed volume of its candles, under the target label and over the target span |
| `ResampledLaws.ClosesExactly` | app/market/multitimeframe.py:186-202 | on a gap-free series a candle completes a bucket exactly when enough candles precede it and it closes on a multiple of the target interval |
| `ResampledLaws.ExtensionOnlyAppends` | app/market/multitimeframe.py:149-213 | more source candles only append to the output: an emitted candle never changes |
| `ResampledLaws.ResampledIsGrid` | app/market/multitimeframe.py:149-213 | the output is itself contiguous on the target interval |
| `ResampledLaws.ResampledIsWellFormed` | app/market/models.py:46-57 | every derived candle satisfies the candle validator, so building one never fails |
| `ResampledLaws.ExactlyTheCompleteBuckets` | app/market/multitimeframe.py:186-211 | a candle is in the output exactly when it aggregates a complete aligned run of source candles |
| `ResampledLaws.ResampledDerives` | app/market/multitimeframe.py:149-213 | in terms of source candles alone: one candle, summarising them, for every run of candles that fills a whole UTC interval, and no other, in time order |
| `ResampledLaws.CountAtBoundary` | app/market/multitimeframe.py:186-211 | at a boundary the output counts exactly the whole buckets that fit |
| `ResampledLaws.AggregateOfBlocks` | app/market/multitimeframe.py:126-146 | open, high, low, close and volume of aggregated aggregates are those of the underlying candles |
| `ResampledLaws.TwoStepsAreOne` | app/market/multitimeframe.py:149-213 | resampling to an intermediate interval and on to the target is resampling straight to the target |
| `ResampledLaws.CoarseCloseImpliesFineClose` | app/market/multitimeframe.py:497-591 | completing a bucket of a multiple completes one of every divisor |
| `BucketRuns.RunDecides` | app/market/multitimeframe.py:572-580 | the three checks made on a finished run hold exactly when the run is a complete bucket |
| `BucketRuns.MisalignedEmitsNothing` | app/market/multitimeframe.py:186-202 | a source off its own grid never completes a bucket longer than one of its own candles, however long it runs |
| `BucketRuns.Conservation` | app/market/multitimeframe.py:186-211 | on an aligned source, source volume and candle count are those of a head shorter than one bucket, the complete buckets, and an unfinished last run |
| `BucketRuns.ConservationAtBoundary` | app/market/multitimeframe.py:186-211 | at a boundary no run is unfinished and the same accounting holds, aligned or not |
| `CursorLaws.MisalignedEmitsExactly` | app/market/multitimeframe.py:536-591 | from such a source the cursor emits nothing exactly for targets longer than the source, and every candle relabelled otherwise |
| `CursorLaws.PendingStaysShortExactly` | app/market/multitimeframe.py:536-573 | over a long enough run the pending bucket stays shorter than the expected count exactly when the source is aligned to its own interval or the target is of the source's own length |
| `CursorLaws.LongHeld` | app/market/multitimeframe.py:562-573 | otherwise some prefix leaves a full bucket's worth of pending candles |
| `CursorLaws.CursorConserves` | app/market/multitimeframe.py:536-591 | for those sources and targets a lost head and a pending tail, both shorter than one bucket, and the emitted candles account for every source candle and all volume |
| `CursorLaws.CursorConservesExactly` | app/market/multitimeframe.py:536-591 | over a long enough run, for no others |
| `BucketRuns.LongPending` | app/market/multitimeframe.py:562-573 | off its own grid, and for a longer target, some prefix ends in an unfinished run of a full bucket's worth of candles |
| `BatchResampler.Group` | app/market/multitimeframe.py:187-190 | the dictionary holds for every bucket exactly its candles, in source order |
| `BatchResampler.KeepComplete` | app/market/multitimeframe.py:192-213 | reading the groups in key order and dropping incomplete ones computes the reference resampling |
| `BatchResampler.CompleteBuckets` | app/market/multitimeframe.py:186-213 | so does grouping, sorting the keys and filtering |
| `BatchResampler.ResampleClosedCandles` | app/market/multitimeframe.py:149-213 | every error in the order of the checks, judged by what the labels denote; otherwise the source itself or its derived series, every candle lasting what its label denotes |
| `MtfConfig.TargetsFaultNone` | app/market/multitimeframe.py:439-453 | configuration is accepted exactly when every target is a supported multiple of the source interval |
| `MtfConfig.ConfigFaultExactly` | app/market/multitimeframe.py:418-453 | in terms of labels alone: which configurations are accepted, and which complaint each other one draws |
| `MtfConfig.AllUsable` | app/market/multitimeframe.py:436-453 | each accepted target spans exactly its expected count of source candles |
| `MtfCursor.HeldPlusNext` | app/market/multitimeframe.py:558-567 | the pending bucket plus the next candle is the last bucket run of the whole history |
| `MtfCursor.AcceptedExactly` | app/market/multitimeframe.py:500-529 | the checks of a push accept a candle exactly when the extended history is a valid source |
| `MtfCursor.FeedStep` | app/market/multitimeframe.py:558-589 | one round of the loop over targets emits exactly what the reference emits for the longer history, and leaves pending what it should |
| `MtfCursor.FineEmitsWithCoarse` | app/market/multitimeframe.py:536-591 | a push that emits a target emits every configured divisor of it |
| `MtfCursor.EmittedExactly` | app/market/multitimeframe.py:536-591 | the returned timeframes are exactly the configured ones whose bucket the candle completes |
| `MtfCursor.MatchesBatch` | app/market/multitimeframe.py:183-184 | cursor and batch form agree on every target except an equal-length alias label, where the batch form keeps the source label and the cursor relabels |
| `MtfCursor.Cursor.constructor` | app/market/multitimeframe.py:411-479 | a fresh cursor satisfies the class invariant with nothing consumed |
| `MtfCursor.Cursor.Series` | app/market/multitimeframe.py:489-495 | a configured series is the reference series of all candles accepted so far, in terms of those candles alone, each candle lasting what the label denotes |
| `MtfCursor.Cursor.Feed` | app/market/multitimeframe.py:537-589 | one target is brought up to date and no other target changes |
| `MtfCursor.Cursor.Push` | app/market/multitimeframe.py:497-591 | accepts exactly the candles that extend a valid source and names the first check a refused one fails, changing nothing; every series only grows, by one candle exactly when its target is returned, and follows from the accepted candles alone, each candle lasting what its label denotes |
| `MtfCursor.Cursor.Consume` | app/market/multitimeframe.py:531-591 | behind the checks: digests, count and instant follow the candle, and every target is fed once |
| `MtfCursor.Cursor.State` | app/market/multitimeframe.py:593-650 | every field of the state in terms of the accepted candles and the series: symbol, count, instant, digests, sizes, and the last close of each series begun, in configured order |
| `MtfCursor.Create` | app/market/multitimeframe.py:418-453 | construction succeeds exactly for labels and policies that are acceptable as texts, and otherwise fails on the first failing check |
| `MtfCursor.Replay` | app/market/multitimeframe.py:497-591 | a whole series is consumed to the end exactly when it is empty or a valid source of the configured timeframe |
| `ResamplingTheorems.OutputIsValidSource` | app/market/multitimeframe.py:48-85 | every non-empty derived series is accepted by the source validator and consists of valid candles |
| `ResamplingTheorems.ResamplingComposes` | app/market/multitimeframe.py:149-213 | source to mid to target equals source to target, exactly unless the target is another label for the intermediate interval |
| `MtfSlice.BuildHistoricalMtfSlice` | app/market/multitimeframe.py:314-389 | every error in the order of the checks, and otherwise every field of the slice, in terms of the visible candles and of what the labels denote |
| `MtfSlice.NoLookAhead` | app/market/multitimeframe.py:93-98 | two inputs with the same visible prefix give the same slice or error, exactly unless nothing is visible and one of them is empty |
| `MtfSlice.EmptyInputIsDistinguishable` | app/market/multitimeframe.py:101-115 | that exception is real: an empty input fails differently from one that starts too late |
| `MtfSlice.LaterCutoffSucceeds` | app/market/multitimeframe.py:314-389 | over a valid source a slice that can be built at one instant can be built at every later one |
| `MtfSlice.LaterCutoffOnlyAppends` | app/market/multitimeframe.py:314-389 | a later cutoff only appends candles to each target series |
| `MtfSlice.NothingClosesAfterCutoff` | app/market/multitimeframe.py:314-389 | no candle of a slice closes after its cutoff |
| `MtfSlice.SliceMatchesCursor` | app/market/multitimeframe.py:235-247 | slice and cursor report the same source digest, count, symbol, instant and series, alias labels excepted |
| `MtfExamples.AliasSplitsBatchFromCursor` | app/market/multitimeframe.py:183-184 | one hourly candle resampled to 60m, where batch form and cursor differ |
| `MtfExamples.AliasBreaksComposition` | app/market/multitimeframe.py:183-184 | two half-hours for which resampling to 1h and on to 60m is not resampling to 60m |
| `MtfExamples.MisalignedHoldsBack` | app/market/multitimeframe.py:562-580 | nine quarter-hours opening at seven minutes past: a valid source from which the cursor emits no hour and holds back a full hour of candles |
| `MtfExamples.MisalignedKeepsItsOwnLength` | app/market/multitimeframe.py:540-556 | from the same source every quarter-hour is emitted and none is held back |
| `Positions.AverageBetween` | app/evaluation/trading.py:113-115 | the average entry after adding lies between any bounds on the old entry and the fill price |
| `Positions.BasisStep` | app/evaluation/trading.py:98-196 | adding, partial close, exact close and flip all keep quantity times average entry minus realised equal to the sum of signed purchases |
| `Positions.FeesStep` | app/evaluation/trading.py:126-131 | fees of the closed trade plus fees carried on are the fees carried before plus the fill's fee |
| `Positions.SplitStep` | app/evaluation/trading.py:126-131 | an amount carried since entry and an amount paid on the fill are shared between trade and remainder without loss |
| `Positions.QuantityStep` | app/evaluation/trading.py:126-127 | the open size changes by the fill less twice what was closed |
| `Positions.SlippageStep` | app/evaluation/trading.py:140-147 | known slippage is shared between trade and remainder without loss |
| `Positions.ApplyKeepsCoherent` | app/evaluation/trading.py:174-196 | a flat state carries no price, fees, slippage or opening time; an open one has a positive entry price |
| `Positions.ApplyMoves` | app/evaluation/trading.py:101-196 | what a fill does, case by case: the average it adds at, the entry price it leaves alone, the price it turns round at, and the trade it closes |
| `Ledgers.MarkToMarket` | app/evaluation/trading.py:98-246 | over every history, realised plus unrealised profit is the sum over fills of signed quantity times mark minus price |
| `Ledgers.FeesConserved` | app/evaluation/trading.py:92 | closed-trade fees plus open entry fees are all fees paid |
| `Ledgers.QuantityConserved` | app/evaluation/trading.py:126 | total fill quantity is open absolute quantity plus twice the closed quantity |
| `Ledgers.NetIdentity` | app/evaluation/trading.py:149-150 | net results of closed trades less open entry fees are the realised trading net |
| `Ledgers.SlippageConserved` | app/evaluation/trading.py:93-96 | with every fill's slippage known, closed plus open slippage is all slippage |
| `Ledgers.TradeSlippageKnown` | app/evaluation/trading.py:140-147 | a closed trade's slippage is known exactly when its exit fill and every entry since the last flat or flip are |
| `Ledgers.TradeDescribesLot` | app/evaluation/trading.py:126-168 | every field of a closed trade, against the entries it closed, the state they left and the fill that closed it |
| `Ledgers.TradesAreTimely` | app/evaluation/trading.py:98-170 | replaying fills in time order, no trade closes before it opened and trades are listed as they closed |
| `Ledgers.StateDescribesLot` | app/evaluation/trading.py:110-124 | a state is flat exactly when no entries are open, knows its slippage exactly when all of them do, and was opened by the first of them |
| `Ledgers.EntryPriceBetween` | app/evaluation/trading.py:113-115 | an open average entry lies between the lowest and highest entry price since the last flat or flip |
| `Ledgers.KeysAreIndependent` | app/evaluation/trading.py:99-100 | each key's state and trades are what replaying only that key's fills gives |
| `Ledgers.InterleavingIsIrrelevant` | app/evaluation/trading.py:98-196 | how keys interleave changes no state, no collection of trades and no total |
| `Trading.PositionState.Book` | app/evaluation/trading.py:98-196 | one round of the loop on a mutable state equals the step function, and opens, averages, reduces, closes or turns round the position with the trade that goes with it |
| `Trading.BookFill` | app/evaluation/trading.py:99-100 | finding or creating the state of a key and booking the fill changes that key's entry and no other |
| `Trading.ReplayFills` | app/evaluation/trading.py:98-196 | the fill loop over a dictionary of mutable states computes the ledger of the fills |
| `Trading.MarkPositions` | app/evaluation/trading.py:234-246 | the marking loop computes unrealised profit and exposure, or exactly the symbols without a positive mark |
| `Trading.ExposureIsSize` | app/evaluation/trading.py:246 | at a usable mark the exposure of a position is its size times the mark |
| `Trading.UnmarkedCounts` | app/evaluation/trading.py:238-241 | a symbol is named as missing once for every open position that lacks a mark |
| `Trading.TimeOrderExactly` | app/evaluation/trading.py:85-88 | sorting by time gives the one listing of the same fills in which earlier fills come first and fills of one instant keep their order |
| `Trading.OpenPositionsListed` | app/evaluation/trading.py:220-232 | the positions listed are those of the keys with an open net position, once each in key order, with what the key's own fills left |
| `Trading.TradingTotals` | app/evaluation/trading.py:84-270 | totals book the fills in time order, ties as given; no closed trade closes before it opened, open positions are listed per key, and every total is stated against the executions as given |
| `Trading.TradeStatistics` | app/evaluation/trading.py:277-293 | win rate and expectancy times the number of trades, and the profit factor times the losses, give back wins, net profit and winnings, with each reason for not reporting one |
| `Trading.SignOfWins` | app/evaluation/trading.py:286-293 | total winnings are positive exactly when there is a win and losses negative exactly when there is a loss, so the profit factor never divides by zero |
| `Trading.CalculateTradingMetrics` | app/evaluation/trading.py:78-320 | the whole report: totals, counts, statistics and drawdown |
| `Trading.TotalsIgnoreInterleaving` | app/evaluation/trading.py:85-270 | executions whose keys interleave differently give the same totals, up to the order of closed trades of different keys |
| `Trading.ReportIgnoresInterleaving` | app/evaluation/trading.py:78-320 | and the same whole report: counts, ratios and drawdown included |
| `Trading.GrossIsProfitAtReferenceMarks` | app/evaluation/trading.py:267-268 | reported profit before costs is the profit of the same fills at their pre-slippage reference marks |
| `Trading.GrossIsProfitAtBrokerMarks` | app/evaluation/trading.py:267-268 | which, for prices made by the broker's formula, is the profit at the marks it filled at |
| `KeyOrder.SortKeysInOrder` | app/evaluation/trading.py:230 | positions are listed in strictly increasing key order |
| `KeyOrder.TextLessExactly` | app/evaluation/trading.py:230 | texts are ordered by the code point at which they first differ, a prefix coming first |
| `KeyOrder.KeyLessExactly` | app/evaluation/trading.py:230 | keys are ordered by system and then by symbol |
| `KeyOrder.SortKeysCanonical` | app/evaluation/trading.py:230 | that list does not depend on the order in which keys were first seen |
| `Ordering.SortBySpec` | app/evaluation/trading.py:85-88 | sorting by an integer key is an ascending permutation |
| `Ordering.SortByIsStable` | app/evaluation/trading.py:88 | items of one key keep the order in which they were given |
| `Ordering.StableOrderIsUnique` | app/evaluation/trading.py:88 | ascending order with ties as given can be reached in one way only |
| `Ordering.SortSelect` | app/evaluation/trading.py:85-88 | it is stable: any selection of the sorted items is the sorted selection |
| `Drawdown.OnePass` | app/evaluation/trading.py:51-75 | the single pass finds the largest loss from any point to a later one, and the largest as a share of the running peak, available exactly when the earliest equity is positive |
| `Drawdown.CurveExactly` | app/evaluation/trading.py:51 | the curve holds the equities of the points in time order, points of one instant as given, and is the only one that does |
| `Drawdown.MaxDrawdown` | app/evaluation/trading.py:46-75 | the reported drawdowns are those of the curve in time order, with each reason for not reporting one |
| `Drawdown.PercentageIsPairwiseExactly` | app/evaluation/trading.py:63-66 | the percentage is the largest relative loss over all pairs in time order exactly when every fall below zero is matched, as a share, by a fall from some running peak |
| `Drawdown.PercentageIsLargestPairwise` | app/evaluation/trading.py:63-66 | so it is for non-negative equities, where it also lies in [0, 1] |
| `Drawdown.NegativeEquityBreaksPairwise` | app/evaluation/trading.py:63-66 | a curve with a negative equity for which it is not |
| `Adapters.ExecutionRecordsFromPaper` | app/evaluation/adapters.py:44-88 | each record joins the figures of its fill with the last order of that id, or the first fill that cannot be recorded is refused for the reason given |
| `Adapters.RecordExactly` | app/evaluation/adapters.py:52-88 | every field of a record, and what each refusal says |
| `Adapters.SlippageIsShare` | app/evaluation/adapters.py:91-111 | a buy's slippage times 10,000 plus the rate, and a sell's times 10,000 less the rate, is quantity times price times rate |
| `Adapters.OrdersByIdExactly` | app/evaluation/adapters.py:52 | an id stands for the last order listed under it |
| `Adapters.SlippageInvertsBroker` | app/evaluation/adapters.py:91-111 | for a price made by the broker's slippage formula the adapter recovers the mark and the cost |
| `Adapters.ReferenceIsBrokerMark` | app/evaluation/adapters.py:102-110 | for a price made by the broker's formula the reference price is the broker's mark |
| `Adapters.SlippageNeverNegative` | app/evaluation/adapters.py:102-110 | adapter slippage is never negative |
| `Adapters.RecordFailsOnlyOnItsInputs` | app/evaluation/models.py:72-84 | hence a record built from sound inputs is never rejected for its slippage |
| `Adapters.SlippageIsLossAgainstReference` | app/evaluation/adapters.py:61-69 | profit at the fill price plus slippage is profit at the reference mark, limit orders at zero |
| `Adapters.ProfitBeforeCosts` | app/evaluation/adapters.py:52-88 | the same over all records |
| `PaperBroker.InventoryWorth` | app/evaluation/trading.py:221-232 | the open positions are worth what all signed fills together are worth |
| `PaperBroker.PositionFill` | app/trading/paper/broker.py:397-431 | the broker's own position arithmetic agrees with the evaluation's step, fill by fill |
| `PaperBroker.PaperAccount.ApplyPositionFill` | app/trading/paper/broker.py:387-440 | positions, their realised profit per symbol and the total realised profit stay those of the evaluation's ledger |
| `PaperBroker.PaperAccount.ApplyFullFill` | app/trading/paper/broker.py:341-385 | cash changes by the notional and the fee, and cash, fees, realised profit and positions stay in step with the fills |
| `PaperBroker.PaperAccount.GetAccountState` | app/trading/paper/broker.py:164-187 | equity less the initial balance is profit at the marks less fees, and also realised plus unrealised less fees; fails exactly on an open unmarked symbol |
| `PaperBroker.EvaluationAgreesWithBroker` | app/evaluation/trading.py:256-261 | for fills whose times do not decrease, the evaluation reports from the fills alone the broker's realised profit, fees and equity gain |
| `Structure.PivotsExactly` | app/market/structure.py:253-288 | the listed positions are exactly the strict local extrema with a full window, in order |
| `Structure.PivotsAreSpaced` | app/market/structure.py:253-288 | two pivots of one kind are always more than the span apart |
| `Structure.PivotsNeverRepaint` | app/market/structure.py:253-288 | the pivots of any prefix begin those of the full series, and are exactly those that a span of candles has followed |
| `Structure.CenterDecides` | app/market/structure.py:264-280 | the comparison with the extreme of the neighbours decides whether the center is a pivot |
| `Structure.StrictPivots` | app/market/structure.py:253-288 | the loop lists exactly the HIGH and the LOW pivots |
| `Structure.Summary` | app/market/structure.py:389-439 | each error condition, and every field of the summary candle by candle: the last two pivots of each kind by their neighbours, the swing they form, the extremes of the lookback candles before the last, the location and what is missing |
| `Structure.PriorRangeExactly` | app/market/structure.py:308-324 | a prior range covers exactly the lookback candles before those left out, if there are that many |
| `Structure.PointsNamed` | app/market/structure.py:466-469 | the points named are the last two pivots, with no pivot after or between them |
| `StructureLaws.MirrorIsCandle` | app/market/models.py:46-57 | turning a candle upside down twice gives it back, and once gives a valid candle exactly while its prices stay positive |
| `StructureLaws.PivotsMirror` | app/market/structure.py:253-288 | upside down, HIGH pivots are LOW pivots and the other way round |
| `StructureLaws.RangeMirrors` | app/market/structure.py:308-323 | the prior range turns upside down with its candles |
| `StructureLaws.BreakoutMirrors` | app/market/structure.py:340-386 | breakout, retest and false break swap sides, the other states stay, whatever the order of the branches |
| `StructureLaws.SummaryMirrors` | app/market/structure.py:389-439 | the whole summary, or its error, turns upside down with the prices, missing fields included |
| `StructureLaws.BreakoutStatesExactly` | app/market/structure.py:340-386 | each breakout state as a condition on prices alone, without any order of checks, whenever there is a prior range |
| `StructureLaws.StateFitsLocation` | app/market/structure.py:326-386 | what each breakout state implies about the range location, and exactly when both are unknown |
| `StructureContext.ResampledClosedBy` | app/market/structure.py:395-398 | everything resampled from a source is closed by the time its last candle closes |
| `StructureContext.SeriesLabel` | app/market/multitimeframe.py:537-589 | every candle of a target series carries the target's label |
| `StructureContext.CreatedLabelsAreKept` | app/market/structure.py:145-146 | so the check that each summary carries the label of its key passes for every cursor whose targets were normalised when it was made |
| `StructureContext.BuildMarketStructureContext` | app/market/structure.py:442-514 | fails exactly when nothing was consumed, the observation time is wrong or a label is not kept; the look-ahead and closed-candle errors can never arise from a cursor; every target is missing, ready or incomplete as its series says |
| `StructureContext.PivotsSurvivePushes` | app/market/structure.py:463-475 | pivots confirmed on any target timeframe survive every later push |
| `BoundedHistory.LatestIsDistinct` | app/dashboard/store.py:72-85 | the kept entries have distinct keys and every key is kept |
| `BoundedHistory.LatestOfConcat` | app/dashboard/store.py:80-84 | newer entries evict older ones of the same key and move to the end |
| `BoundedHistory.CutEarlyOrLate` | app/dashboard/store.py:72-85 | cutting the history before merging the next batch gives what cutting only afterwards gives |
| `BoundedHistory.MergeBounded` | app/dashboard/store.py:72-85 | popping and reinserting into an ordered dictionary computes the last entries of the keep-last history |
| `BoundedHistory.ShownExactly` | app/dashboard/store.py:76-81 | an item is kept exactly when no later one has its key and fewer than the limit of newer ones are kept |
| `DashboardStore.OnlyObservationsPass` | app/dashboard/store.py:87-99 | exactly the read-only paper-scope snapshots of shadow systems pass, and any other is refused for the first rule it breaks |
| `DashboardStore.ShownStep` | app/dashboard/store.py:42-69 | one more bounded merge keeps a list in step with the unbounded log |
| `DashboardStore.ObservationShownExactly` | app/dashboard/store.py:49-60 | an opportunity or decision is shown until a later one has both its system and its opportunity, or until as many later ones as the limit are shown |
| `DashboardStore.EventShownExactly` | app/dashboard/store.py:61-66 | an event is shown until a later one has its id, or until as many later ones as the limit are shown |
| `DashboardStore.Store.Publish` | app/dashboard/store.py:42-70 | accepts exactly the observing snapshots; afterwards the lists hold the last entries that no later one of the same system and opportunity, or the same event id, supersedes, and all other fields are the published ones |
| `DashboardStore.Store.Get` | app/dashboard/store.py:38-40 | what is served is valid, bounded, and holds no two entries of one system and opportunity and no two events of one id |
| `Quality.ValidateCandleSeries` | app/market/quality.py:49-95 | passes exactly the one-symbol, chronological series spaced by whole intervals, and otherwise says what is wrong with the first candle that breaks it |
| `Quality.RegularAscends` | app/market/quality.py:76-84 | in such a series no opening time occurs twice |
| `Quality.GapsTelescope` | app/market/quality.py:98-115 | gaps times interval is last opening less first opening less one interval per step |
| `Quality.NoGapsExactly` | app/market/quality.py:98-115 | the count is zero exactly when the series is contiguous |
| `Quality.CountGaps` | app/market/quality.py:98-115 | fails exactly on irregular series, and otherwise returns that count |
| `HistoricalImport.ImportCandles` | app/market/historical.py:95-144 | succeeds exactly on valid rows forming a regular series, with one candle per row under the given names in time order and the intervals missing counted, and otherwise names the first bad row or the fault of the series |
| `HistoricalImport.RowIsGood` | app/market/historical.py:108-122 | a row makes a candle exactly when the names are not blank, the low is positive, open and close lie between low and high and the volume is not negative |
| `HistoricalImport.QualityExactly` | app/market/quality.py:118-133 | blank names are not named as missing, and valid is what is fresh, complete and without gaps and duplicates |
| `HistoricalImport.ImportedIsValidSource` | app/market/multitimeframe.py:48-85 | a non-empty import is accepted by the multi-timeframe validator exactly when nothing is missing and its label fits its interval |
| `HistoricalImport.ImportIgnoresRowOrder` | app/market/historical.py:125 | the order of the rows in the file decides neither whether it can be imported nor the imported series |
| `AiCosts.LinkRequests` | app/evaluation/ai_costs.py:77-88 | fails exactly when a request is claimed for two opportunities; otherwise each request goes to the last trace claiming it |
| `AiCosts.TallyKeepsEverything` | app/evaluation/ai_costs.py:90-106 | a tally's values sum to the cost of all entries charged to any key |
| `AiCosts.TallyOfKey` | app/evaluation/ai_costs.py:90-106 | each key holds exactly the cost of its own entries |
| `AiCosts.ChargeAll` | app/evaluation/ai_costs.py:90-106 | the loop fills all six tallies, the total and the unattributed cost |
| `AiCosts.ChargesAddUp` | app/evaluation/ai_costs.py:90-106 | agent, model and route tallies each sum to the total, and opportunities plus unattributed do too |
| `AiCosts.EachPaysDirectly` | app/evaluation/ai_costs.py:91-96 | agents, models and routes listed are those of the entries, each charged the cost of its own |
| `AiCosts.EachPaysByTrace` | app/evaluation/ai_costs.py:98-106 | opportunities, risk decisions and trades listed are those of the claiming traces, each charged the cost of its own entries, and unclaimed cost is charged to nobody |
| `AiCostReport.SliceDescribes` | app/evaluation/ai_costs.py:16-50 | a slice counts its entries, costs what they cost, and is silent on savings exactly when one entry lacks its uncached cost |
| `AiCostReport.SliceOfOne` | app/evaluation/ai_costs.py:16-50 | the slice of one entry states that entry's own fields |
| `AiCostReport.SliceOfConcat` | app/evaluation/ai_costs.py:16-50 | putting two lists of entries together adds every figure |
| `AiCostReport.SliceIsSane` | app/evaluation/ai_costs.py:17-28 | token counts split exactly and a cache read ratio lies in [0, 1] |
| `AiCostReport.GroupCache` | app/evaluation/ai_costs.py:53-63 | the slices are those of each key's own entries |
| `AiCostReport.SlicesAddUp` | app/evaluation/ai_costs.py:136-145 | the slices of a grouping add up, field by field, to the overall slice |
| `AiCostReport.SlicesAgree` | app/evaluation/ai_costs.py:33-39 | each slice costs what its key is charged, and overall savings are unavailable exactly when some slice's are |
| `AiCostReport.AverageSpreadsTotal` | app/evaluation/ai_costs.py:108-122 | an average times its number of keys gives back what was attributed, and is available exactly when something was |
| `AiCostReport.CalculateAiCostMetrics` | app/evaluation/ai_costs.py:66-146 | fails exactly on ambiguous links; otherwise every tally and slice is that of the entries with that agent, model or route, or of the traces claiming them, and everything adds up |
| `JsonPaths.GroundedJsonPaths` | app/agents/specialists.py:141-163 | the recursive loop collects the path set |
| `JsonPaths.GroundedJsonLeafPaths` | app/agents/specialists.py:166-191 | the recursive loop collects the leaf path set |
| `JsonPaths.ChildrenExactly` | app/agents/specialists.py:141-191 | the children of a dictionary are its values under their keys, those of a list its items under the decimal of their position |
| `Numerals.NumeralInjective` | app/agents/specialists.py:158-161 | different list positions never share a path segment |
| `JsonPaths.LeavesAreAmongPaths` | app/agents/specialists.py:141-191 | in specialists.py every leaf path is a path |
| `JsonPathLaws.PathHasNode` | app/agents/specialists.py:141-163 | every path is the encoding of some node of the payload |
| `JsonPathLaws.NodeHasPath` | app/agents/specialists.py:141-163 | every node with a non-empty encoding has its path listed |
| `JsonPathLaws.DecodesExactly` | app/agents/specialists.py:147-161 | splitting the path built from a list of keys gives the keys back exactly when none contains a dot and the first is not empty |
| `JsonPathLaws.SplittableExactly` | app/agents/specialists.py:141-191 | every scalar (or every node) below the root has a path that splits back into its keys, exactly when no key on the way to one contains a dot and no root key leading to one is empty |
| `JsonPathLaws.PathsDecode` | app/agents/specialists.py:141-163 | under that condition for all nodes a string is a path exactly when splitting it at the dots leads to a node |
| `JsonPathLaws.LeafPathsDecode` | app/agents/specialists.py:166-191 | under that condition for scalars a string is a leaf path exactly when it decodes to a non-null scalar, and it decodes to no other node |
| `JsonPathLaws.DottedKeyIsAmbiguous` | app/agents/specialists.py:176-180 | a payload with a dotted key in which one path names two different scalars |
| `JsonPathLaws.EmptyKeyIsUnnameable` | app/agents/specialists.py:189-191 | a payload whose only scalar is under an empty root key and has no leaf path |
| `JsonPathLaws.BareModelsHideNothing` | app/agents/core.py:19-62 | in core.py, which does not look into models for its paths, leaf paths are paths whenever no model dumps to a scalar below its root, whatever the keys |
| `JsonPathLaws.CoreLeavesAmongPathsExactly` | app/agents/core.py:19-62 | as long as paths and leaf paths split back into their keys, they are paths exactly then |
| `JsonPathLaws.DottedSiblingCoversModel` | app/agents/core.py:19-62 | without that proviso a dotted sibling key can lend a hidden model field its path |
| `JsonPathLaws.CoreMissesModelFields` | app/agents/core.py:19-62 | a payload where core.py lists a leaf that is not among its paths |
| `Grounding.Listing` | app/agents/specialists.py:303-322 | the catalogue lists the available paths once each, in code-point order |
| `Grounding.CatalogueNeverEmpty` | app/agents/specialists.py:315-319 | where all paths are offered the catalogue is never empty |
| `Grounding.Canonicalize` | app/agents/specialists.py:84-113 | succeeds exactly when every index is in range and every reference within its bounds, maps each index to its catalogue key, and otherwise names the first failing check |
| `Grounding.AssertGrounded` | app/agents/specialists.py:194-221 | fails exactly when some cited key is unavailable, naming those keys in code-point order, each as often as it is cited |
| `Grounding.Analyze` | app/agents/specialists.py:301-364 | per prompt version, what the catalogue offers and when evidence is returned: always grounded, and an indexed reply that canonicalises never fails the check |
| `Grounding.CitationsNameScalars` | app/agents/specialists.py:303-363 | from v4 on, when leaf paths split back into their keys, every accepted citation names exactly one non-null scalar of the input |
| `Campaigns.StepKeepsInv` | app/dashboard/backtest.py:888-964 | every event keeps the invariant: bounded history, one unfinished campaign, sound progress |
| `Campaigns.OneUnfinished` | app/dashboard/backtest.py:889-897 | over every interleaving at most one campaign is unfinished |
| `Campaigns.StartSpec` | app/dashboard/backtest.py:1263-1269 | starting a campaign retains it unchanged, with as many of the newest earlier ones as fit, so only the oldest are evicted |
| `Campaigns.RunEvolves` | app/dashboard/backtest.py:918-964 | over every interleaving a retained campaign's percentage and work never decrease, its end is final, a cancellation stays requested, and cancelling in time prevents completion |
| `Campaigns.ShownProgressIsFaithful` | app/dashboard/backtest.py:918-964 | the same in terms of what is shown: percent in [0, 100], 100 and a result exactly when completed |
| `Campaigns.QueuedCancellationSurvives` | app/dashboard/backtest.py:923-925 | a cancellation of a queued campaign is overwritten in the status by its start, but stays requested |
| `Campaigns.CancellationShownExactly` | app/dashboard/backtest.py:918-964 | an event leaves a shown cancellation shown, or ends the campaign, exactly unless it starts a campaign that was still queued |
| `Campaigns.CancellationLastsExactly` | app/dashboard/backtest.py:918-964 | over every run a shown cancellation lasts to the end exactly when the campaign had begun |
| `Campaigns.EndsAreCaused` | app/dashboard/backtest.py:918-945 | over every interleaving a campaign is shown completed, failed or cancelled only if it was at the start or its run reported exactly that, and asked to cancel only if someone asked |
| `Campaigns.CancelledUnlessFailed` | app/dashboard/backtest.py:929-933 | a campaign cancelled in time never completes, and ends cancelled unless its run failed first |
| `Campaigns.CheckpointsCancel` | app/dashboard/backtest.py:1191-1196 | a pending cancellation ends the run as cancelled at its next checkpoint or role check |
| `Campaigns.CompletesExactly` | app/dashboard/backtest.py:1189-1227 | a run completes exactly when all three roles were finalised |
| `Campaigns.CampaignService.StoreProgress` | app/dashboard/backtest.py:1263-1269 | the eviction loop is the trimming function |
| `Campaigns.CampaignService.StartCampaign` | app/dashboard/backtest.py:888-916 | accepted exactly when no campaign is active; then the new record is queued at zero and only the oldest records over the limit are gone |
| `Campaigns.CampaignService.BeginBackground` | app/dashboard/backtest.py:923-926 | the record becomes running and preparing, nothing else changes, and the service invariant holds |
| `Campaigns.CampaignService.PrepareRun` | app/dashboard/backtest.py:1089-1098 | work counters and percentage start at zero in phase DESIGN, nothing else changes, and the service invariant holds |
| `Campaigns.CampaignService.OnProgress` | app/dashboard/backtest.py:1770-1780 | the work done grows by what the runner moved forward and the percentage is its share of the total, held at 99, whatever counts arrive |
| `Campaigns.CampaignService.BeginFinalizing` | app/dashboard/backtest.py:1180-1183 | the percentage becomes 99 in phase FINALIZING and nothing else changes |
| `Campaigns.CampaignService.CheckFinalRole` | app/dashboard/backtest.py:1190-1199 | a requested cancellation stops finalisation before each role |
| `Campaigns.CampaignService.FinishBackground` | app/dashboard/backtest.py:927-949 | the campaign ends with the status and phase of its outcome, completed ones at 100 percent with a result, and no campaign is active |
| `Campaigns.CampaignService.CancelCampaign` | app/dashboard/backtest.py:955-964 | exactly queued and running campaigns get the request with status and phase, and nothing else changes |

## Left out

- Decimal rounding: amounts are reals and divisions exact, so identities hold exactly rather than up to the decimal context.
- Digests: a hash is modelled by its header and the list of candles fed to it; SHA-256, JSON text and the final slice and cursor fingerprints over it are not modelled.
- Timestamps: text parsing, time zones, floating-point rounding of `timestamp()`, instants finer than a microsecond and overflow of dates and intervals are not modelled; instants before 1970 are, with the truncation toward zero the code uses.
- Text: stripping, lower-casing and digits are those of ASCII.
- Prices and quantities given as text or NaN, and the parsing of CSV cells, are not modelled; the import starts from decoded rows.
- Positions: `trade_id` strings and the reporting models around them are not modelled.
- Trading.TradingTotals: missing marks are reported as a multiset of symbols instead of a sorted, comma-joined text.
- PaperBroker: order submission, limits, stops, fee rates, idempotency keys and clocks are not modelled; a fill arrives with its price, quantity and fee.
- Structure: a span below one and a lookback below one, for which the code takes extremes of empty lists, are excluded by preconditions; context versions and fingerprints are not modelled.
- DashboardStore: the lock and the request-scoped lookup of the store are not modelled; fields other than those checked or merged are one opaque text.
- Quality: staleness of a single observation is not modelled.
- AiCosts: which request is named in the error depends on set order in the source and is not modelled; result dictionaries are compared as maps, not in sorted order.
- Grounding: provider calls, prompt texts, contamination keys and the validation of analysis fields other than evidence are not modelled; a reply arrives already parsed.
- JsonPaths: dictionary keys are strings; a model stands for what it dumps to.
- Campaigns: runtimes are values in the service's dictionary, because the background run only touches its runtime while it is retained; a background run killed from outside, direct runs without a campaign id, live-mode admission, traces, timings and stored results are not modelled; percentages are reals.
- Pydantic, FastAPI, settings, database, logging, prompts and provider clients are not modelled.
- The advisory, analytics, ablation and reputation files and the dashboard projection are not modelled.
