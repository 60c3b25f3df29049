/** Builds the complete economics of a position, collects the rejection reasons and decides. */
module Evaluator {
  import opened Numbers
  import opened OrderBook
  import opened OrderStatistics
  import opened EconomicsPolicy
  import opened Sizing
  import opened ExecutionCosts
  import opened HourlyWindows
  import opened FundingSeries
  import opened Cashflows
  import opened Reserves
  import opened EconomicsModel
  import opened Economics
  import opened QuoteCounts

  // ---------------------------------------------------------------- records as the evaluator builds them

  function CostsOf(entry: real, forced: real, fee: real, operational: real, latency: real,
                   multiplier: real): CostBreakdown {
    var transaction := entry + forced + fee + operational;
    CostBreakdown(entry, forced, fee, operational, latency, transaction + latency, transaction * multiplier + latency)
  }

  /** With the frozen multiplier the breakdown is valid exactly when every part is nonnegative. */
  lemma CostsOfValid(entry: real, forced: real, fee: real, operational: real, latency: real)
    ensures ValidCosts(CostsOf(entry, forced, fee, operational, latency, 2.0)) <==>
      entry >= 0.0 && forced >= 0.0 && fee >= 0.0 && operational >= 0.0 && latency >= 0.0
  {
  }

  function MinimumProfit(policy: Policy, p: ShadowPosition): real {
    Max(policy.minimumProfitUsd, p.assignedCapitalUsd * policy.minimumHoldReturn)
  }

  function RequiredReturn(policy: Policy): real {
    Max(policy.minimumAnnualizedReturn, policy.cashBenchmarkAnnualRate + policy.cashBenchmarkSpread)
  }

  function HorizonOf(policy: Policy, p: ShadowPosition, costs: CostBreakdown, stats: CashflowStatistics,
                     basisRate: real): HorizonEconomics
    requires p.assignedCapitalUsd != 0.0 && policy.accountEquityUsd != 0.0 && stats.holdingDays != 0
  {
    var basis := p.assignedCapitalUsd / 2.0 * basisRate;
    var net := stats.grossUsd - costs.normalCostUsd - stats.maximumDrawdownUsd - basis;
    var assignedReturn := net / p.assignedCapitalUsd;
    var annualized := assignedReturn * 365.0 / stats.holdingDays as real;
    HorizonEconomics(
      stats.holdingDays, stats.grossUsd / p.assignedCapitalUsd,
      stats.lighterRateSum, stats.dydxRateSum, stats.lighterUsd, stats.dydxUsd, stats.grossUsd,
      stats.maximumDrawdownUsd, basisRate, basis,
      net, assignedReturn, net / policy.accountEquityUsd, annualized,
      net > 0.0, net >= MinimumProfit(policy, p), annualized >= RequiredReturn(policy))
  }

  /** Statistics whose cash components are the position's notionals times the rate sums. */
  predicate ConsistentStatistics(p: ShadowPosition, stats: CashflowStatistics, basisRate: real) {
    && ValidHoldingDays(stats.holdingDays)
    && stats.lighterUsd == Cash(p.lighterEntry.notional, stats.lighterRateSum)
    && stats.dydxUsd == Cash(p.dydxEntry.notional, stats.dydxRateSum)
    && stats.grossUsd == stats.lighterUsd + stats.dydxUsd
    && stats.maximumDrawdownUsd >= 0.0 && basisRate >= 0.0
  }

  predicate ConsistentPosition(policy: Policy, p: ShadowPosition) {
    && ValidPosition(p)
    && p.lighterEntry.notional > 0.0 && p.dydxEntry.notional > 0.0
    && p.assignedCapitalUsd == p.lighterEntry.notional + p.dydxEntry.notional
    && p.unusedCashUsd == policy.accountEquityUsd - p.assignedCapitalUsd
    && p.incompleteLegLossUsd == IncompleteLoss(p.lighterEntry.notional, p.dydxEntry.notional, policy)
    && p.assignedCapitalUsd <= CapitalCap(policy)
    && p.incompleteLegLossUsd <= IncompleteLossCap(policy)
  }

  /** The enclosing record copies these fields from the policy and the position. */
  predicate DescribesPosition(e: CompleteEconomics, policy: Policy, p: ShadowPosition, costs: CostBreakdown) {
    && e.baseQuantity == p.baseQuantity
    && e.lighterEntryNotionalUsd == p.lighterEntry.notional && e.dydxEntryNotionalUsd == p.dydxEntry.notional
    && e.assignedCapitalUsd == p.assignedCapitalUsd && e.accountEquityUsd == policy.accountEquityUsd
    && e.unusedCashUsd == p.unusedCashUsd && e.incompleteLegLossUsd == p.incompleteLegLossUsd
    && e.cashBenchmarkAnnualRate == policy.cashBenchmarkAnnualRate
    && e.minimumProfitRequiredUsd == MinimumProfit(policy, p)
    && e.requiredAnnualizedReturn == RequiredReturn(policy)
    && e.prefunded == policy.prefunded && e.costs == costs
    && e.costs.operationalCostUsd == policy.operationalCostUsd
  }

  lemma HorizonOfValid(policy: Policy, p: ShadowPosition, costs: CostBreakdown, stats: CashflowStatistics,
                       basisRate: real,
                       e: CompleteEconomics)
    requires ValidPolicy(policy) && ConsistentPosition(policy, p) && ConsistentStatistics(p, stats, basisRate)
    requires DescribesPosition(e, policy, p, costs)
    ensures ValidHorizon(HorizonOf(policy, p, costs, stats, basisRate))
    ensures HorizonConsistent(e, HorizonOf(policy, p, costs, stats, basisRate))
  {
    hide ValidPosition, IncompleteLoss, CapitalCap, IncompleteLossCap, Max;
    HorizonOfInRange(policy, p, costs, stats, basisRate);
    assert e.assignedCapitalUsd == e.lighterEntryNotionalUsd + e.dydxEntryNotionalUsd;
    CashIs(p.lighterEntry.notional, stats.lighterRateSum);
    CashIs(p.dydxEntry.notional, stats.dydxRateSum);
    hide ValidHorizon, Cash, ConsistentPosition;
  }

  lemma CashIs(notional: real, rate: real)
    ensures Cash(notional, rate) == notional * rate
  {
  }

  lemma HorizonOfInRange(policy: Policy, p: ShadowPosition, costs: CostBreakdown, stats: CashflowStatistics,
                         basisRate: real)
    requires policy.accountEquityUsd != 0.0 && p.assignedCapitalUsd > 0.0 && ConsistentStatistics(p, stats, basisRate)
    ensures ValidHorizon(HorizonOf(policy, p, costs, stats, basisRate))
  {
    ScaleLe(0.0, basisRate, p.assignedCapitalUsd / 2.0);
    hide Cash, MinimumProfit, RequiredReturn;
  }

  lemma CapitalValid(policy: Policy, p: ShadowPosition, costs: CostBreakdown, e: CompleteEconomics)
    requires ValidPolicy(policy) && ConsistentPosition(policy, p) && DescribesPosition(e, policy, p, costs)
    requires e.lighterTakerRate >= 0.0 && e.dydxTakerRate >= 0.0
    ensures ValidCapital(e)
  {
    ScaleLe(0.0, Max(p.lighterEntry.notional, p.dydxEntry.notional), 0.10);
  }

  // ---------------------------------------------------------------- reasons

  function HorizonReasons(h: HorizonEconomics): set<Reason> {
    (if h.netPositive then {} else {HorizonNonpositive(h.holdingDays)})
    + (if h.minimumProfitPass then {} else {HorizonMinimumProfit(h.holdingDays)})
    + (if h.annualizedReturnPass then {} else {HorizonAnnualizedReturn(h.holdingDays)})
  }

  function AllHorizonReasons(horizons: seq<HorizonEconomics>): set<Reason> {
    if horizons == [] then {}
    else AllHorizonReasons(horizons[..|horizons| - 1]) + HorizonReasons(horizons[|horizons| - 1])
  }

  lemma {:induction false} NoHorizonReasons(horizons: seq<HorizonEconomics>)
    ensures AllHorizonReasons(horizons) == {} <==>
      forall k :: 0 <= k < |horizons| ==>
        horizons[k].netPositive && horizons[k].minimumProfitPass && horizons[k].annualizedReturnPass
  {
    if horizons != [] {
      var init, last := horizons[..|horizons| - 1], horizons[|horizons| - 1];
      NoHorizonReasons(init);
      assert forall k :: 0 <= k < |init| ==> init[k] == horizons[k];
      assert last.netPositive ==> HorizonNonpositive(last.holdingDays) !in HorizonReasons(last);
      assert !last.netPositive ==> HorizonNonpositive(last.holdingDays) in HorizonReasons(last);
      assert !last.minimumProfitPass ==> HorizonMinimumProfit(last.holdingDays) in HorizonReasons(last);
      assert !last.annualizedReturnPass ==> HorizonAnnualizedReturn(last.holdingDays) in HorizonReasons(last);
    }
  }

  /** Reasons from the current funding regime and the compatibility dossier. */
  function RegimeReasons(b: Bundle, current: seq<real>): set<Reason>
    requires current != []
  {
    (if Median(current) <= 0.0 then {CurrentFundingRegimeReversed} else {})
    + (if b.dossierStatus.Ineligible? || b.dossierBlocking != 0 then {CompatibilityBlocking} else {})
    + (if b.dossierStatus.EvidenceIncomplete? || b.dossierMissingEvidence != 0
       then {CompatibilityEvidenceIncomplete} else {})
  }

  /** Reasons from the gates that concern the whole record. */
  function GateReasons(e: CompleteEconomics, policy: Policy): set<Reason> {
    (if e.doubledCost28dPass then {} else {DoubledCostNonpositive})
    + (if e.stressLossPass then {} else {StressLossLimitExceeded})
    + (if e.drawdownPass then {} else {ModeledDrawdownLimitExceeded})
    + (if e.liquidationPass then {} else {ModeledLiquidation})
    + (if e.normalQuoteObservations < policy.minimumNormalQuoteObservations then
      {NormalQuoteObservationsInsufficient} else {})
    + (if e.stressQuoteObservations < policy.minimumStressQuoteObservations then
      {StressQuoteObservationsInsufficient} else {})
  }

  /** The funding regime still pays and the dossier has no blocking or missing item. */
  predicate RegimeClean(b: Bundle, current: seq<real>)
    requires current != []
  {
    && Median(current) > 0.0
    && !b.dossierStatus.Ineligible? && b.dossierBlocking == 0
    && !b.dossierStatus.EvidenceIncomplete? && b.dossierMissingEvidence == 0
  }

  /** No reason is collected exactly when every numeric gate passes and the regime is clean. */
  lemma NoReasonsIffGatesPass(b: Bundle, current: seq<real>, e: CompleteEconomics)
    requires current != [] && ValidPolicy(b.policy) && ValidEconomics(e)
    ensures RegimeReasons(b, current) + AllHorizonReasons(e.horizons) + GateReasons(e, b.policy) == {} <==>
      AllNumericGatesPass(e) && RegimeClean(b, current)
  {
    NoHorizonReasons(e.horizons);
    hide AllHorizonReasons, Median, ValidCosts, ValidCapital, ValidHorizon, HorizonConsistent, StressConsistent;
    RegimeEmpty(b, current);
    GatesEmpty(e, b.policy);
  }

  lemma RegimeEmpty(b: Bundle, current: seq<real>)
    requires current != []
    ensures RegimeReasons(b, current) == {} <==> RegimeClean(b, current)
  {
    hide Median;
    var r := RegimeReasons(b, current);
    assert CurrentFundingRegimeReversed in r <==> Median(current) <= 0.0;
    assert CompatibilityBlocking in r <==> b.dossierStatus.Ineligible? || b.dossierBlocking != 0;
    assert CompatibilityEvidenceIncomplete in r <==>
      b.dossierStatus.EvidenceIncomplete? || b.dossierMissingEvidence != 0;
  }

  lemma GatesEmpty(e: CompleteEconomics, policy: Policy)
    ensures GateReasons(e, policy) == {} <==>
      && e.doubledCost28dPass && e.stressLossPass && e.drawdownPass && e.liquidationPass
      && e.normalQuoteObservations >= policy.minimumNormalQuoteObservations
      && e.stressQuoteObservations >= policy.minimumStressQuoteObservations
  {
    var r := GateReasons(e, policy);
    assert !e.doubledCost28dPass ==> DoubledCostNonpositive in r;
    assert !e.stressLossPass ==> StressLossLimitExceeded in r;
    assert !e.drawdownPass ==> ModeledDrawdownLimitExceeded in r;
    assert !e.liquidationPass ==> ModeledLiquidation in r;
    assert e.normalQuoteObservations < policy.minimumNormalQuoteObservations ==>
      NormalQuoteObservationsInsufficient in r;
    assert e.stressQuoteObservations < policy.minimumStressQuoteObservations ==>
      StressQuoteObservationsInsufficient in r;
  }

  // ---------------------------------------------------------------- the complete record

  function EconomicsOf(b: Bundle, p: ShadowPosition, costs: CostBreakdown, horizons: seq<HorizonEconomics>,
                       normal: int, stress: int, liquidation: bool): CompleteEconomics
    requires |horizons| == 3 && p.assignedCapitalUsd != 0.0 && b.policy.accountEquityUsd != 0.0
  {
    var policy, last := b.policy, horizons[2];
    var doubledNet := last.grossFundingUsd - costs.doubledTransactionCostUsd
                      - last.fundingReversalReserveUsd - last.basisDivergenceReserveUsd;
    var stressRate := (last.fundingReversalReserveUsd + costs.forcedExitCostUsd + costs.latencyReserveUsd)
                      / policy.accountEquityUsd;
    var drawdownRate := (last.fundingReversalReserveUsd + last.basisDivergenceReserveUsd
                         + costs.forcedExitCostUsd + costs.latencyReserveUsd) / p.assignedCapitalUsd;
    CompleteEconomics(
      b.lighterTakerRate, b.dydxTakerRate, p.baseQuantity, p.lighterEntry.notional, p.dydxEntry.notional,
      p.assignedCapitalUsd, policy.accountEquityUsd, p.unusedCashUsd, policy.cashBenchmarkAnnualRate,
      MinimumProfit(policy, p), RequiredReturn(policy), policy.prefunded, costs, horizons,
      normal, stress, p.incompleteLegLossUsd, stressRate, drawdownRate, liquidation, doubledNet,
      doubledNet > 0.0, stressRate <= policy.maximumStressLossEquityFraction,
      drawdownRate < policy.maximumDrawdownFraction, !liquidation,
      normal >= policy.minimumNormalQuoteObservations && stress >= policy.minimumStressQuoteObservations)
  }

  lemma QuotientNonnegative(x: real, y: real)
    requires x >= 0.0 && y > 0.0
    ensures x / y >= 0.0
  {
    QuotientLe(0.0, y, x, y);
  }

  lemma StressOfValid(b: Bundle, p: ShadowPosition, costs: CostBreakdown, horizons: seq<HorizonEconomics>,
                      normal: int, stress: int, liquidation: bool)
    requires |horizons| == 3 && ValidPolicy(b.policy) && p.assignedCapitalUsd > 0.0
    requires ValidCosts(costs) && ValidHorizon(horizons[2])
    ensures StressConsistent(EconomicsOf(b, p, costs, horizons, normal, stress, liquidation), horizons[2])
  {
    var last := horizons[2];
    var loss := last.fundingReversalReserveUsd + costs.forcedExitCostUsd + costs.latencyReserveUsd;
    QuotientNonnegative(loss, b.policy.accountEquityUsd);
    QuotientNonnegative(loss + last.basisDivergenceReserveUsd, p.assignedCapitalUsd);
    QuotientEqual(last.fundingReversalReserveUsd + last.basisDivergenceReserveUsd + costs.forcedExitCostUsd
      + costs.latencyReserveUsd,
                  loss + last.basisDivergenceReserveUsd, p.assignedCapitalUsd);
    hide MinimumProfit, RequiredReturn;
  }

  lemma QuotientEqual(x: real, x': real, y: real)
    requires y != 0.0 && x == x'
    ensures x / y == x' / y
  {
  }

  /** Horizon k of the record, built from consistent statistics. */
  ghost predicate BuiltHorizon(policy: Policy, p: ShadowPosition, costs: CostBreakdown, k: int, h: HorizonEconomics,
                               stats: CashflowStatistics, basisRate: real) {
    && p.assignedCapitalUsd != 0.0 && policy.accountEquityUsd != 0.0
    && stats.holdingDays == HorizonDays(k) && ConsistentStatistics(p, stats, basisRate)
    && h == HorizonOf(policy, p, costs, stats, basisRate)
  }

  /** Everything built from consistent inputs satisfies every identity of the report model. */
  lemma EconomicsOfValid(b: Bundle, p: ShadowPosition, costs: CostBreakdown, horizons: seq<HorizonEconomics>,
                         statistics: seq<CashflowStatistics>, basisRates: seq<real>,
                         normal: nat, stress: nat, liquidation: bool)
    requires ValidPolicy(b.policy) && ConsistentPosition(b.policy, p) && ValidCosts(costs)
    requires costs.operationalCostUsd == b.policy.operationalCostUsd
    requires b.lighterTakerRate >= 0.0 && b.dydxTakerRate >= 0.0
    requires |horizons| == |statistics| == |basisRates| == 3
    requires forall k :: 0 <= k < 3 ==> BuiltHorizon(b.policy, p, costs, k, horizons[k], statistics[k], basisRates[k])
    ensures ValidEconomics(EconomicsOf(b, p, costs, horizons, normal, stress, liquidation))
  {
    var e := EconomicsOf(b, p, costs, horizons, normal, stress, liquidation);
    assert DescribesPosition(e, b.policy, p, costs);
    assert e.horizons == horizons && e.lighterTakerRate >= 0.0 && e.dydxTakerRate >= 0.0;
    assert e.liquidationPass <==> !e.modeledLiquidation;
    assert e.normalQuoteObservations == normal && e.stressQuoteObservations == stress;
    assert e.quoteObservationsPass <==> normal >= 25 && stress >= 10;
    assert p.assignedCapitalUsd > 0.0;
    hide EconomicsOf, ConsistentPosition, ConsistentStatistics, DescribesPosition, HorizonConsistent, HorizonOf,
      ValidPolicy;
    forall k | 0 <= k < 3
      ensures ValidHorizon(horizons[k]) && horizons[k].holdingDays == HorizonDays(k)
      ensures e.assignedCapitalUsd != 0.0 && e.accountEquityUsd != 0.0 && HorizonConsistent(e, horizons[k])
    {
      assert BuiltHorizon(b.policy, p, costs, k, horizons[k], statistics[k], basisRates[k]);
      HorizonOfValid(b.policy, p, costs, statistics[k], basisRates[k], e);
      HorizonOfDays(b.policy, p, costs, statistics[k], basisRates[k], e);
    }
    hide ValidCosts, ValidCapital, ValidHorizon, StressConsistent;
    CapitalValid(b.policy, p, costs, e);
    StressOfValid(b, p, costs, horizons, normal, stress, liquidation);
  }

  lemma HorizonOfDays(policy: Policy, p: ShadowPosition, costs: CostBreakdown, stats: CashflowStatistics,
                      basisRate: real,
                      e: CompleteEconomics)
    requires p.assignedCapitalUsd != 0.0 && policy.accountEquityUsd != 0.0 && stats.holdingDays != 0
    requires DescribesPosition(e, policy, p, costs)
    ensures HorizonOf(policy, p, costs, stats, basisRate).holdingDays == stats.holdingDays
    ensures e.assignedCapitalUsd != 0.0 && e.accountEquityUsd != 0.0
  {
  }

  // ---------------------------------------------------------------- funding readiness

  function Pairs(b: Bundle): seq<FundingPair> {
    EvaluationPairs(b.fundingPairs, b.trainingEnd, b.evaluationEnd)
  }

  /** The evaluation differentials, signed so that a positive value pays the position. */
  function OrientedRows(b: Bundle, direction: FundingDirection): seq<FundingRow> {
    match OrientFunding(Differentials(Pairs(b)), direction)
    case ValueError => []
    case Ok(values) => ZipRows(Pairs(b), values)
  }

  function CurrentRows(b: Bundle, direction: FundingDirection): seq<FundingRow> {
    RowsBetween(OrientedRows(b, direction), b.evaluationEnd - 167 * HOUR, b.evaluationEnd)
  }

  /** 672 evaluation rows, and the last 168 hours present hour by hour. */
  predicate FundingReady(b: Bundle, direction: FundingDirection) {
    && |Pairs(b)| >= 28 * 24
    && Stamps(CurrentRows(b, direction)) == CurrentStamps(b)
  }

  lemma ReadyHasCurrent(b: Bundle, direction: FundingDirection)
    requires FundingReady(b, direction)
    ensures Amounts(CurrentRows(b, direction)) != []
  {
    hide CurrentRows, Pairs;
    assert |CurrentStamps(b)| == 168;
  }

  // ---------------------------------------------------------------- costs

  datatype CostResult = Costs(costs: CostBreakdown) | CostsIncomplete(reason: Reason) | CostsUnavailable | CostsRaised

  /** Where each part of the cost breakdown comes from. */
  ghost predicate CostsMeasured(b: Bundle, direction: FundingDirection, p: ShadowPosition, c: CostBreakdown)
    requires ValidBundle(b)
  {
    var lighter, dydx := b.latestBooks.lighter, b.latestBooks.dydx;
    && ValidPosition(p)
    && c.entrySlippageUsd == EntrySlippageCost(p, lighter, dydx)
    && ForcedExitCost(p, lighter, dydx, b.policy.forcedExitDepthMultiplier) == Price(c.forcedExitCostUsd)
    && ExitNotionals(p, lighter, dydx).Price?
    && c.takerFeeCostUsd == TakerFeeCost(b, p, ExitNotionals(p, lighter, dydx).value.0,
         ExitNotionals(p, lighter, dydx).value.1)
    && c.operationalCostUsd == b.policy.operationalCostUsd
    && IsLatencyReserve(AllSamples(b, direction, p.baseQuantity), DocumentedLatency(b.policy), c.latencyReserveUsd)
  }

  /** The taker fees of entering and leaving on the latest books do not come out negative. */
  ghost predicate FeesNonnegative(b: Bundle, p: ShadowPosition) {
    && ValidPosition(p)
    && var exits := ExitNotionals(p, b.latestBooks.lighter, b.latestBooks.dydx);
    && exits.Price? && TakerFeeCost(b, p, exits.value.0, exits.value.1) >= 0.0
  }

  /** Prices the sized position on the latest books and reserves for latency. */
  method PriceCosts(b: Bundle, direction: FundingDirection, p: ShadowPosition) returns (r: CostResult)
    requires ValidBundle(b) && Sized(SetupFor(b, direction, b.latestBooks)) == Some(p)
    ensures r.Costs? ==> CostsMeasured(b, direction, p, r.costs) && ValidCosts(r.costs)
    ensures !r.CostsUnavailable?
    ensures r.CostsIncomplete? ==> r.reason == LatencyExecutableSampleInsufficient
    ensures r.CostsIncomplete? <==>
      QuotesInOrder(b, direction, p.baseQuantity) && !LatencySampled(b, direction, p.baseQuantity)
    ensures r.Costs? <==>
      && QuotesInOrder(b, direction, p.baseQuantity) && LatencySampled(b, direction, p.baseQuantity)
      && FeesNonnegative(b, p)
    ensures b.lighterTakerRate >= 0.0 && b.dydxTakerRate >= 0.0 ==> FeesNonnegative(b, p)
  {
    var lighter, dydx := b.latestBooks.lighter, b.latestBooks.dydx;
    SizedExits(b, direction, b.latestBooks, p);
    BestPositionFacts(SetupFor(b, direction, b.latestBooks), p);
    EntryNonnegative(p, lighter, dydx);
    ForcedNonnegative(p, lighter, dydx, b.policy.forcedExitDepthMultiplier);
    assert b.policy.operationalCostUsd >= 0.0 && b.policy.doubledCostMultiplier == 2.0;
    hide EntrySlippageCost, ForcedExitCost, ExitNotionals, TakerFeeCost, IsLatencyReserve, AllSamples,
      DocumentedLatency, QuotesInOrder, LatencySampled, ValidBundle, IsBestPosition, Sized, SetupFor, StrictlyOrdered,
      ValidCosts, CostsOf;
    var entry := EntrySlippageCost(p, lighter, dydx);
    var forced := ForcedExitCost(p, lighter, dydx, b.policy.forcedExitDepthMultiplier);
    var exits := ExitNotionals(p, lighter, dydx);
    if forced.NoDepth? || exits.NoDepth? {
      return CostsUnavailable;
    }
    var fee := TakerFeeCost(b, p, exits.value.0, exits.value.1);
    if b.lighterTakerRate >= 0.0 && b.dydxTakerRate >= 0.0 {
      FeeNonnegative(b, p, exits.value.0, exits.value.1);
    }
    var latency := LatencyCost(b, direction, p.baseQuantity);
    if latency.NoSample? {
      return CostsIncomplete(LatencyExecutableSampleInsufficient);
    }
    if latency.Unordered? {
      return CostsRaised;
    }
    var costs := CostsOf(entry, forced.value, fee, b.policy.operationalCostUsd, latency.usd,
      b.policy.doubledCostMultiplier);
    CostsOfValid(entry, forced.value, fee, b.policy.operationalCostUsd, latency.usd);
    CostsOfParts(entry, forced.value, fee, b.policy.operationalCostUsd, latency.usd, b.policy.doubledCostMultiplier);
    if !ValidCosts(costs) {
      return CostsRaised;
    }
    return Costs(costs);
  }

  lemma CostsOfParts(entry: real, forced: real, fee: real, operational: real, latency: real, multiplier: real)
    ensures var c := CostsOf(entry, forced, fee, operational, latency, multiplier);
      && c.entrySlippageUsd == entry && c.forcedExitCostUsd == forced && c.takerFeeCostUsd == fee
      && c.operationalCostUsd == operational && c.latencyReserveUsd == latency
  {
  }

  // ---------------------------------------------------------------- horizons

  method BuildHorizons(policy: Policy, p: ShadowPosition, costs: CostBreakdown,
                       statistics: seq<CashflowStatistics>, basisRates: seq<real>)
    returns (horizons: seq<HorizonEconomics>, reasons: set<Reason>)
    requires policy.accountEquityUsd > 0.0 && p.assignedCapitalUsd > 0.0
    requires |statistics| == |basisRates| == 3
    requires forall k :: 0 <= k < 3 ==>
      statistics[k].holdingDays == HorizonDays(k) && ConsistentStatistics(p, statistics[k], basisRates[k])
    ensures |horizons| == 3 && horizons[0].holdingDays == 7 && horizons[1].holdingDays == 14
    ensures horizons[2].holdingDays == 28
    ensures reasons == AllHorizonReasons(horizons)
    ensures forall k :: 0 <= k < 3 ==> BuiltHorizon(policy, p, costs, k, horizons[k], statistics[k], basisRates[k])
  {
    horizons, reasons := [], {};
    for k := 0 to 3
      invariant |horizons| == k && reasons == AllHorizonReasons(horizons)
      invariant forall j :: 0 <= j < k ==> BuiltHorizon(policy, p, costs, j, horizons[j], statistics[j], basisRates[j])
    {
      hide ConsistentStatistics, HorizonOf, ValidHorizon;
      assert statistics[k].holdingDays == HorizonDays(k) != 0;
      var horizon := HorizonOf(policy, p, costs, statistics[k], basisRates[k]);
      if !horizon.netPositive {
        reasons := reasons + {HorizonNonpositive(horizon.holdingDays)};
      }
      if !horizon.minimumProfitPass {
        reasons := reasons + {HorizonMinimumProfit(horizon.holdingDays)};
      }
      if !horizon.annualizedReturnPass {
        reasons := reasons + {HorizonAnnualizedReturn(horizon.holdingDays)};
      }
      assert (horizons + [horizon])[..|horizons|] == horizons;
      horizons := horizons + [horizon];
    }
    assert forall k :: 0 <= k < 3 ==> BuiltHorizon(policy, p, costs, k, horizons[k], statistics[k], basisRates[k]);
  }

  // ---------------------------------------------------------------- margin

  function LegStress(b: Bundle, direction: FundingDirection, p: ShadowPosition, venue: Venue): Outcome<MarginStress> {
    match venue
    case Dydx => StressMargin(direction.ShortLighterLongDydx?, p.baseQuantity, p.dydxEntry.weightedAveragePrice,
      p.dydxEntry.notional, b.dydxTakerRate, b.policy.incompleteLegShock, b.policy.dydxMargin)
    case Lighter => StressMargin(direction.ShortDydxLongLighter?, p.baseQuantity, p.lighterEntry.weightedAveragePrice,
      p.lighterEntry.notional, b.lighterTakerRate, b.policy.incompleteLegShock, b.policy.lighterMargin)
  }

  function Liquidated(b: Bundle, direction: FundingDirection, p: ShadowPosition): Outcome<bool> {
    var d, l := LegStress(b, direction, p, Dydx), LegStress(b, direction, p, Lighter);
    if d.ValueError? || l.ValueError? then ValueError
    else Ok(d.value.modeledLiquidation || l.value.modeledLiquidation)
  }

  /** A leg's entry notional is its base quantity at its average entry price. */
  lemma NotionalIsBaseTimesAverage(levels: seq<BookLevel>, base: real, multiplier: real)
    requires multiplier > 0.0 && base > 0.0
    ensures BaseQuote(levels, base, multiplier).Walked? ==>
      var q := BaseQuote(levels, base, multiplier).quote;
      q.notional == Notional(base, q.weightedAveragePrice)
  {
    PerContract(base, base, multiplier);
    var q, c := base / multiplier, Cost(levels, base / multiplier);
    hide Cost, AvailableQuantity;
    AverageTimesQuantity(c, q, multiplier, base);
  }

  lemma AverageTimesQuantity(c: real, q: real, multiplier: real, base: real)
    requires q > 0.0 && base == q * multiplier
    ensures c * multiplier == base * (c / q)
  {
    var a := c / q;
    assert c == a * q;
    assert (a * q) * multiplier == (q * multiplier) * a;
  }

  /** The liquidation gate depends on fees and margin assumptions, never on size or price. */
  lemma LiquidationIsAboutRates(b: Bundle, direction: FundingDirection, p: ShadowPosition)
    requires ValidBundle(b) && IsBestPosition(SetupFor(b, direction, b.latestBooks), p)
    ensures Liquidated(b, direction, p).Ok? <==> b.lighterTakerRate >= 0.0 && b.dydxTakerRate >= 0.0
    ensures Liquidated(b, direction, p).Ok? ==>
      (Liquidated(b, direction, p).value <==>
        || LegExhausted(direction.ShortLighterLongDydx?, b.dydxTakerRate, 0.10, b.policy.dydxMargin)
        || LegExhausted(direction.ShortDydxLongLighter?, b.lighterTakerRate, 0.10, b.policy.lighterMargin))
  {
    var s := SetupFor(b, direction, b.latestBooks);
    BestPositionFacts(s, p);
    EntryLegsPriced(s, p);
    hide StressMargin, IsBestPosition, ValidBook, ValidSetup, SetupFor, ValidPairs, Notional, LegExhausted;
    if b.lighterTakerRate >= 0.0 && b.dydxTakerRate >= 0.0 {
      FullyCollateralisedLiquidation(direction.ShortLighterLongDydx?, p.baseQuantity, p.dydxEntry.weightedAveragePrice,
        p.dydxEntry.notional, b.dydxTakerRate, 0.10, b.policy.dydxMargin);
      FullyCollateralisedLiquidation(direction.ShortDydxLongLighter?, p.baseQuantity,
        p.lighterEntry.weightedAveragePrice,
        p.lighterEntry.notional, b.lighterTakerRate, 0.10, b.policy.lighterMargin);
    } else {
      NegativeFeeRefused(direction.ShortLighterLongDydx?, p.baseQuantity, p.dydxEntry.weightedAveragePrice,
        p.dydxEntry.notional, b.dydxTakerRate, 0.10, b.policy.dydxMargin);
      NegativeFeeRefused(direction.ShortDydxLongLighter?, p.baseQuantity, p.lighterEntry.weightedAveragePrice,
        p.lighterEntry.notional, b.lighterTakerRate, 0.10, b.policy.lighterMargin);
    }
  }

  lemma NegativeFeeRefused(isLong: bool, base: real, price: real, collateral: real, fee: real, shock: real,
                           a: MarginAssumption)
    ensures fee < 0.0 ==> StressMargin(isLong, base, price, collateral, fee, shock, a).ValueError?
  {
  }

  lemma EntryLegsPriced(s: Setup, p: ShadowPosition)
    requires ValidSetup(s) && IsBestPosition(s, p)
    ensures p.lighterEntry.notional == Notional(p.baseQuantity, p.lighterEntry.weightedAveragePrice)
    ensures p.dydxEntry.notional == Notional(p.baseQuantity, p.dydxEntry.weightedAveragePrice)
    ensures p.lighterEntry.weightedAveragePrice > 0.0 && p.dydxEntry.weightedAveragePrice > 0.0
  {
    BestPositionFacts(s, p);
    hide Feasible, MeetsMinima;
    var units :| LargestFeasible(s, units) && IsPositionFor(s, units, p);
    SizedPosition(s, units, p);
    var l, d := LighterLeg(s), DydxLeg(s);
    assert p.baseQuantity > 0.0 && p.lighterMultiplier > 0.0 && p.dydxMultiplier > 0.0;
    hide *;
    NotionalIsBaseTimesAverage(l.entry, p.baseQuantity, p.lighterMultiplier);
    NotionalIsBaseTimesAverage(d.entry, p.baseQuantity, p.dydxMultiplier);
    PositiveFromProduct(p.baseQuantity, p.lighterEntry.weightedAveragePrice);
    PositiveFromProduct(p.baseQuantity, p.dydxEntry.weightedAveragePrice);
  }

  lemma PositiveFromProduct(base: real, price: real)
    requires Notional(base, price) > 0.0 && base > 0.0
    ensures price > 0.0
  {
    if price <= 0.0 {
      ScaleLe(price, 0.0, base);
    }
  }
}
