/** A reported figure, or the reason it is not reported (class Metric of app/evaluation/models.py). */
module Metrics {
  datatype Reason =
    | InsufficientEquityHistory
    | NonPositiveEquityPeak
    | MissingMarks(symbols: multiset<string>)
    | UnrealizedPnlUnavailable
    | SlippageNotReconstructible
    | GrossPnlRequiresMarksAndSlippage
    | NoClosedTrades
    | NoLosingTrades
    | NoProfitOrLoss
    | NoAiInputTokens
    | UncachedCostNotRecorded
    | NoAttributedOpportunities
    | NoAttributedRiskDecisions
    | NoAttributedTrades

  datatype Metric =
    | Available(value: real)
    | Unavailable(reason: Reason)
    | Unbounded(reason: Reason)
}
