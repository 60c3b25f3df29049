/** The report records and the identities their validators demand of anyone who builds one. */
module EconomicsModel {
  import opened Numbers
  import opened OrderStatistics
  import opened HourlyWindows

  datatype Venue = Dydx | Lighter

  datatype Decision = InsufficientEvidence | Rejected | ShadowCandidate

  datatype Reason =
    | TrainingFundingMedianZero
    | DepthCompatibleSizeUnavailable
    | DepthForcedExitUnavailable
    | FundingContiguousWindowInsufficient
    | CurrentFundingWindowInsufficient
    | EvaluationWindowInsufficient
    | LatencyExecutableSampleInsufficient
    | CurrentFundingRegimeReversed
    | CompatibilityBlocking
    | CompatibilityEvidenceIncomplete
    | HorizonNonpositive(days: int)
    | HorizonMinimumProfit(days: int)
    | HorizonAnnualizedReturn(days: int)
    | DoubledCostNonpositive
    | StressLossLimitExceeded
    | ModeledDrawdownLimitExceeded
    | ModeledLiquidation
    | NormalQuoteObservationsInsufficient
    | StressQuoteObservationsInsufficient
    | AssemblyReason(code: string)

  /** Reasons allowed on a rejection that carries no economics. */
  predicate SizingReason(r: Reason) {
    r.DepthCompatibleSizeUnavailable? || r.DepthForcedExitUnavailable?
  }

  // ---------------------------------------------------------------- costs

  datatype CostBreakdown = CostBreakdown(
    entrySlippageUsd: real,
    forcedExitCostUsd: real,
    takerFeeCostUsd: real,
    operationalCostUsd: real,
    latencyReserveUsd: real,
    normalCostUsd: real,
    doubledTransactionCostUsd: real)

  predicate ValidCosts(c: CostBreakdown) {
    && c.entrySlippageUsd >= 0.0 && c.forcedExitCostUsd >= 0.0 && c.takerFeeCostUsd >= 0.0
    && c.operationalCostUsd >= 0.0 && c.latencyReserveUsd >= 0.0
    && c.normalCostUsd >= 0.0 && c.doubledTransactionCostUsd >= 0.0
    && var transaction := c.entrySlippageUsd + c.forcedExitCostUsd + c.takerFeeCostUsd + c.operationalCostUsd;
    && c.normalCostUsd == transaction + c.latencyReserveUsd
    && c.doubledTransactionCostUsd == transaction * 2.0 + c.latencyReserveUsd
  }

  // ---------------------------------------------------------------- horizons

  datatype HorizonEconomics = HorizonEconomics(
    holdingDays: int,
    conservativeFundingRate: real,
    lighterFundingRateSum: real,
    dydxFundingRateSum: real,
    lighterFundingUsd: real,
    dydxFundingUsd: real,
    grossFundingUsd: real,
    fundingReversalReserveUsd: real,
    basisDivergenceRate: real,
    basisDivergenceReserveUsd: real,
    conservativeNetUsd: real,
    assignedCapitalReturn: real,
    accountReturn: real,
    annualizedConservativeReturn: real,
    netPositive: bool,
    minimumProfitPass: bool,
    annualizedReturnPass: bool)

  predicate ValidHorizon(h: HorizonEconomics) {
    && ValidHoldingDays(h.holdingDays)
    && h.fundingReversalReserveUsd >= 0.0 && h.basisDivergenceRate >= 0.0 && h.basisDivergenceReserveUsd >= 0.0
    && h.grossFundingUsd == h.lighterFundingUsd + h.dydxFundingUsd
    && h.annualizedConservativeReturn == h.assignedCapitalReturn * 365.0 / h.holdingDays as real
    && (h.netPositive <==> h.conservativeNetUsd > 0.0)
  }

  // ---------------------------------------------------------------- complete economics

  datatype CompleteEconomics = CompleteEconomics(
    lighterTakerRate: real,
    dydxTakerRate: real,
    baseQuantity: real,
    lighterEntryNotionalUsd: real,
    dydxEntryNotionalUsd: real,
    assignedCapitalUsd: real,
    accountEquityUsd: real,
    unusedCashUsd: real,
    cashBenchmarkAnnualRate: real,
    minimumProfitRequiredUsd: real,
    requiredAnnualizedReturn: real,
    prefunded: bool,
    costs: CostBreakdown,
    horizons: seq<HorizonEconomics>,
    normalQuoteObservations: int,
    stressQuoteObservations: int,
    incompleteLegLossUsd: real,
    fundingAndForcedExitLossRate: real,
    modeledDrawdownRate: real,
    modeledLiquidation: bool,
    doubledCost28dNetUsd: real,
    doubledCost28dPass: bool,
    stressLossPass: bool,
    drawdownPass: bool,
    liquidationPass: bool,
    quoteObservationsPass: bool)

  /** Field ranges, the capital identities and the frozen capital limits. */
  predicate ValidCapital(e: CompleteEconomics) {
    && e.baseQuantity > 0.0 && e.lighterEntryNotionalUsd > 0.0 && e.dydxEntryNotionalUsd > 0.0
    && e.assignedCapitalUsd > 0.0 && 3000.0 <= e.accountEquityUsd <= 10000.0 && e.unusedCashUsd >= 0.0
    && 0.0 <= e.cashBenchmarkAnnualRate <= 1.0
    && e.lighterTakerRate >= 0.0 && e.dydxTakerRate >= 0.0
    && (e.costs.operationalCostUsd == 0.0 ==> e.prefunded)
    && e.assignedCapitalUsd == e.lighterEntryNotionalUsd + e.dydxEntryNotionalUsd
    && e.unusedCashUsd == e.accountEquityUsd - e.assignedCapitalUsd
    && e.assignedCapitalUsd <= Min(e.accountEquityUsd * 0.10, 500.0)
    && 0.0 <= e.incompleteLegLossUsd <= e.accountEquityUsd * 0.0025
    && e.minimumProfitRequiredUsd == Max(3.0, e.assignedCapitalUsd * 0.003)
    && e.requiredAnnualizedReturn == Max(0.12, e.cashBenchmarkAnnualRate + 0.05)
  }

  /** What ties one horizon to the enclosing record. */
  predicate HorizonConsistent(e: CompleteEconomics, h: HorizonEconomics)
    requires e.assignedCapitalUsd != 0.0 && e.accountEquityUsd != 0.0
  {
    var net := h.grossFundingUsd - e.costs.normalCostUsd - h.fundingReversalReserveUsd - h.basisDivergenceReserveUsd;
    && h.lighterFundingUsd == e.lighterEntryNotionalUsd * h.lighterFundingRateSum
    && h.dydxFundingUsd == e.dydxEntryNotionalUsd * h.dydxFundingRateSum
    && h.conservativeFundingRate == h.grossFundingUsd / e.assignedCapitalUsd
    && h.basisDivergenceReserveUsd == (e.lighterEntryNotionalUsd + e.dydxEntryNotionalUsd) / 2.0 * h.basisDivergenceRate
    && h.conservativeNetUsd == net
    && h.assignedCapitalReturn == net / e.assignedCapitalUsd
    && h.accountReturn == net / e.accountEquityUsd
    && (h.minimumProfitPass <==> net >= Max(3.0, e.assignedCapitalUsd * 0.003))
    && (h.annualizedReturnPass <==> h.annualizedConservativeReturn >= Max(0.12, e.cashBenchmarkAnnualRate + 0.05))
  }

  /** The stressed totals of the 28-day horizon and the pass flags they decide. */
  predicate StressConsistent(e: CompleteEconomics, last: HorizonEconomics)
    requires e.assignedCapitalUsd != 0.0 && e.accountEquityUsd != 0.0
  {
    var doubled := last.grossFundingUsd - e.costs.doubledTransactionCostUsd
                   - last.fundingReversalReserveUsd - last.basisDivergenceReserveUsd;
    var stress := last.fundingReversalReserveUsd + e.costs.forcedExitCostUsd + e.costs.latencyReserveUsd;
    && e.fundingAndForcedExitLossRate >= 0.0 && e.modeledDrawdownRate >= 0.0
    && e.doubledCost28dNetUsd == doubled
    && (e.doubledCost28dPass <==> doubled > 0.0)
    && e.fundingAndForcedExitLossRate == stress / e.accountEquityUsd
    && e.modeledDrawdownRate == (stress + last.basisDivergenceReserveUsd) / e.assignedCapitalUsd
    && (e.stressLossPass <==> e.fundingAndForcedExitLossRate <= 0.0025)
    && (e.drawdownPass <==> e.modeledDrawdownRate < 0.08)
  }

  predicate ValidEconomics(e: CompleteEconomics) {
    && ValidCosts(e.costs)
    && ValidCapital(e)
    && |e.horizons| == 3
    && e.horizons[0].holdingDays == 7 && e.horizons[1].holdingDays == 14 && e.horizons[2].holdingDays == 28
    && (forall k :: 0 <= k < 3 ==> ValidHorizon(e.horizons[k]) && HorizonConsistent(e, e.horizons[k]))
    && StressConsistent(e, e.horizons[2])
    && e.normalQuoteObservations >= 0 && e.stressQuoteObservations >= 0
    && (e.liquidationPass <==> !e.modeledLiquidation)
    && (e.quoteObservationsPass <==> e.normalQuoteObservations >= 25 && e.stressQuoteObservations >= 10)
  }

  predicate AllNumericGatesPass(e: CompleteEconomics) {
    && (forall k :: 0 <= k < |e.horizons| ==>
          e.horizons[k].netPositive && e.horizons[k].minimumProfitPass && e.horizons[k].annualizedReturnPass)
    && e.doubledCost28dPass && e.stressLossPass && e.drawdownPass && e.liquidationPass && e.quoteObservationsPass
  }

  // ---------------------------------------------------------------- report

  datatype Coverage = Coverage(
    training: real,
    evaluation: real,
    funding: real,
    book: real,
    latestBookAgeSeconds: Option<real>,
    latestPairSkewMs: Option<real>,
    latencySampleCount: nat)

  predicate CompleteCoverage(c: Coverage) {
    && c.training >= 0.99 && c.evaluation >= 0.99 && c.funding >= 0.99 && c.book >= 0.99
    && c.latestBookAgeSeconds.Some? && c.latestPairSkewMs.Some? && c.latencySampleCount > 0
    && c.latestBookAgeSeconds.value <= 30.0 && c.latestPairSkewMs.value <= 1000.0
  }

  datatype Report = Report(
    decision: Decision,
    reasons: set<Reason>,
    direction: Option<FundingDirection>,
    shortVenue: Option<Venue>,
    longVenue: Option<Venue>,
    coverage: Coverage,
    economics: Option<CompleteEconomics>)

  function VenuesFor(direction: Option<FundingDirection>): (Option<Venue>, Option<Venue>) {
    match direction
    case Some(ShortLighterLongDydx) => (Some(Lighter), Some(Dydx))
    case Some(ShortDydxLongLighter) => (Some(Dydx), Some(Lighter))
    case None => (None, None)
  }

  /** The report's own coherence check, branch by branch. */
  predicate ValidReport(r: Report) {
    && (r.shortVenue, r.longVenue) == VenuesFor(r.direction)
    && (r.economics.Some? ==> ValidEconomics(r.economics.value))
    && if r.decision.InsufficientEvidence? then
         r.reasons != {} && r.direction.None? && r.economics.None?
       else if r.decision.Rejected? && r.direction.None? then
         TrainingFundingMedianZero in r.reasons && r.economics.None?
       else
         && r.direction.Some? && CompleteCoverage(r.coverage)
         && if r.economics.None? then
              r.decision.Rejected? && r.reasons != {} && forall x :: x in r.reasons ==> SizingReason(x)
            else if r.decision.Rejected? then r.reasons != {}
            else r.reasons == {} && AllNumericGatesPass(r.economics.value)
  }
}
