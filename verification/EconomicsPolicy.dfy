/** The frozen shadow-economics policy, as far as the evaluator reads it. */
module EconomicsPolicy {

  datatype MarginAssumption = MarginAssumption(
    initialMarginFraction: real,
    maintenanceMarginFraction: real,
    closeOutMarginFraction: real,
    liquidationPenaltyFraction: real)

  datatype Policy = Policy(
    accountEquityUsd: real,
    cashBenchmarkAnnualRate: real,
    operationalCostUsd: real,
    prefunded: bool,
    lighterLatencyMs: real,
    dydxLatencyMs: real,
    lighterMargin: MarginAssumption,
    dydxMargin: MarginAssumption,
    maximumAssignedEquityFraction: real,
    maximumAssignedUsd: real,
    incompleteLegShock: real,
    maximumIncompleteLossEquityFraction: real,
    minimumHoldReturn: real,
    minimumProfitUsd: real,
    minimumAnnualizedReturn: real,
    cashBenchmarkSpread: real,
    maximumStressLossEquityFraction: real,
    maximumDrawdownFraction: real,
    forcedExitDepthMultiplier: real,
    doubledCostMultiplier: real,
    minimumNormalQuoteObservations: int,
    minimumStressQuoteObservations: int)

  predicate ValidMargin(m: MarginAssumption) {
    && 0.0 < m.closeOutMarginFraction <= m.maintenanceMarginFraction <= m.initialMarginFraction <= 1.0
    && 0.0 <= m.liquidationPenaltyFraction <= 1.0
  }

  /** What the policy record enforces before any evaluation sees it. */
  predicate ValidPolicy(p: Policy) {
    && 3000.0 <= p.accountEquityUsd <= 10000.0
    && 0.0 <= p.cashBenchmarkAnnualRate <= 1.0
    && 0.0 <= p.operationalCostUsd
    && (p.operationalCostUsd == 0.0 ==> p.prefunded)
    && 0.0 <= p.lighterLatencyMs && 0.0 <= p.dydxLatencyMs
    && ValidMargin(p.lighterMargin) && ValidMargin(p.dydxMargin)
    && p.maximumAssignedEquityFraction == 0.10
    && p.maximumAssignedUsd == 500.0
    && p.incompleteLegShock == 0.10
    && p.maximumIncompleteLossEquityFraction == 0.0025
    && p.minimumHoldReturn == 0.003
    && p.minimumProfitUsd == 3.0
    && p.minimumAnnualizedReturn == 0.12
    && p.cashBenchmarkSpread == 0.05
    && p.maximumStressLossEquityFraction == 0.0025
    && p.maximumDrawdownFraction == 0.08
    && p.forcedExitDepthMultiplier == 2.0
    && p.doubledCostMultiplier == 2.0
    && p.minimumNormalQuoteObservations == 25
    && p.minimumStressQuoteObservations == 10
  }
}
