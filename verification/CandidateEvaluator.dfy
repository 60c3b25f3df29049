/** The decision: every complete bundle yields a report that its own model accepts. */
module CandidateEvaluator {
  import opened Numbers
  import opened OrderStatistics
  import opened OrderBook
  import opened QuantitySteps
  import opened Sizing
  import opened ExecutionCosts
  import opened HourlyWindows
  import opened FundingSeries
  import opened Cashflows
  import opened Reserves
  import opened EconomicsModel
  import opened Economics
  import opened QuoteCounts
  import opened Evaluator
  import opened Readiness

  // ---------------------------------------------------------------- from measurements to the record

  /** Horizon k is built from the fifth-percentile window and the 99th-percentile basis change. */
  ghost predicate HorizonTraced(b: Bundle, direction: FundingDirection, p: ShadowPosition, costs: CostBreakdown,
                                k: int, h: HorizonEconomics)
    requires ValidPairs(b.hourlyBooks)
  {
    exists stats: CashflowStatistics, rate: real ::
      && HorizonMeasured(b, direction, FundingCashflows(Pairs(b), direction, p), k, stats, rate)
      && BuiltHorizon(b.policy, p, costs, k, h, stats, rate)
  }

  /** The seven-day terms the hourly replay charges. */
  function TermsOf(p: ShadowPosition, sevenDay: HorizonEconomics): QuoteTerms
    requires p.assignedCapitalUsd > 0.0
  {
    QuoteTerms(sevenDay.lighterFundingRateSum, sevenDay.dydxFundingRateSum,
      sevenDay.fundingReversalReserveUsd / (p.assignedCapitalUsd / 2.0), sevenDay.basisDivergenceRate)
  }

  ghost predicate QuotesCounted(b: Bundle, direction: FundingDirection, p: ShadowPosition, e: CompleteEconomics)
    requires ValidBundle(b) && p.assignedCapitalUsd > 0.0 && |e.horizons| == 3
  {
    var terms := TermsOf(p, e.horizons[0]);
    && e.normalQuoteObservations == CountPositive(NetsBy(b, direction, |b.hourlyBooks|, terms, 0.0))
    && e.stressQuoteObservations
         == CountPositive(NetsBy(b, direction, |b.hourlyBooks|, terms, e.costs.latencyReserveUsd))
  }

  /** Every primary figure of the record is the calculators' figure for this bundle. */
  ghost predicate EconomicsMeasured(b: Bundle, direction: FundingDirection, p: ShadowPosition, e: CompleteEconomics)
    requires ValidBundle(b)
  {
    && p.assignedCapitalUsd > 0.0
    && CostsMeasured(b, direction, p, e.costs)
    && |e.horizons| == 3
    && (forall k :: 0 <= k < 3 ==> HorizonTraced(b, direction, p, e.costs, k, e.horizons[k]))
    && QuotesCounted(b, direction, p, e)
    && Liquidated(b, direction, p) == Ok(e.modeledLiquidation)
    && e == EconomicsOf(b, p, e.costs, e.horizons, e.normalQuoteObservations, e.stressQuoteObservations,
         e.modeledLiquidation)
  }

  lemma MeasuredIsConsistent(b: Bundle, direction: FundingDirection, p: ShadowPosition, k: int,
                             stats: CashflowStatistics, rate: real)
    requires ValidPairs(b.hourlyBooks) && 0 <= k < 3
    requires HorizonMeasured(b, direction, FundingCashflows(Pairs(b), direction, p), k, stats, rate)
    ensures stats.holdingDays == HorizonDays(k) && ConsistentStatistics(p, stats, rate)
  {
    var rows := FundingCashflows(Pairs(b), direction, p);
    CashflowsScale(Pairs(b), direction, p);
    BasisReserveNonnegative(b.hourlyBooks, direction, HorizonDays(k));
    hide FundingCashflows, Cash, AllChanges, BasisComputable, RankValue, ValidPairs, SelectedWindow, AllWindows;
    assert stats.grossUsd == stats.lighterUsd + stats.dydxUsd;
    assert stats.maximumDrawdownUsd >= 0.0;
    hide IsWorstDrop, IsCashflowStatistics;
    ComponentsScale(rows, HorizonDays(k), stats, p.lighterEntry.notional, p.dydxEntry.notional);
  }

  lemma AllConsistent(b: Bundle, direction: FundingDirection, p: ShadowPosition,
                      statistics: seq<CashflowStatistics>, rates: seq<real>)
    requires ValidPairs(b.hourlyBooks) && |statistics| == |rates| == 3
    requires forall k :: 0 <= k < 3 ==>
      HorizonMeasured(b, direction, FundingCashflows(Pairs(b), direction, p), k, statistics[k], rates[k])
    ensures forall k :: 0 <= k < 3 ==>
      statistics[k].holdingDays == HorizonDays(k) && ConsistentStatistics(p, statistics[k], rates[k])
  {
    hide HorizonMeasured, ConsistentStatistics;
    forall k | 0 <= k < 3
      ensures statistics[k].holdingDays == HorizonDays(k) && ConsistentStatistics(p, statistics[k], rates[k])
    {
      MeasuredIsConsistent(b, direction, p, k, statistics[k], rates[k]);
    }
  }

  lemma AllTraced(b: Bundle, direction: FundingDirection, p: ShadowPosition, costs: CostBreakdown,
                  horizons: seq<HorizonEconomics>, statistics: seq<CashflowStatistics>, rates: seq<real>)
    requires ValidPairs(b.hourlyBooks) && |horizons| == |statistics| == |rates| == 3
    requires forall k :: 0 <= k < 3 ==>
      HorizonMeasured(b, direction, FundingCashflows(Pairs(b), direction, p), k, statistics[k], rates[k])
    requires forall k :: 0 <= k < 3 ==> BuiltHorizon(b.policy, p, costs, k, horizons[k], statistics[k], rates[k])
    ensures forall k :: 0 <= k < 3 ==> HorizonTraced(b, direction, p, costs, k, horizons[k])
  {
    hide HorizonMeasured, BuiltHorizon;
    forall k | 0 <= k < 3 ensures HorizonTraced(b, direction, p, costs, k, horizons[k]) {
      assert HorizonMeasured(b, direction, FundingCashflows(Pairs(b), direction, p), k, statistics[k], rates[k]);
      assert BuiltHorizon(b.policy, p, costs, k, horizons[k], statistics[k], rates[k]);
    }
  }

  // ---------------------------------------------------------------- completion

  datatype Completion =
    | Completed(economics: CompleteEconomics, reasons: set<Reason>)
    | Incomplete(reason: Reason)
    | SizingRejected(reason: Reason)
    | Raised

  /** What a completed evaluation guarantees. */
  ghost predicate Sound(b: Bundle, direction: FundingDirection, p: ShadowPosition, e: CompleteEconomics,
                        reasons: set<Reason>)
    requires ValidBundle(b)
  {
    && ValidEconomics(e)
    && EconomicsMeasured(b, direction, p, e)
    && b.lighterTakerRate >= 0.0 && b.dydxTakerRate >= 0.0
    && FundingReady(b, direction)
    && Amounts(CurrentRows(b, direction)) != []
    && reasons == RegimeReasons(b, Amounts(CurrentRows(b, direction))) + AllHorizonReasons(e.horizons)
         + GateReasons(e, b.policy)
  }

  lemma CompletedSound(b: Bundle, direction: FundingDirection, p: ShadowPosition, costs: CostBreakdown,
                       statistics: seq<CashflowStatistics>, rates: seq<real>, horizons: seq<HorizonEconomics>,
                       normal: nat, stress: nat, liquidation: bool)
    requires ValidBundle(b) && ConsistentPosition(b.policy, p) && ValidCosts(costs)
    requires CostsMeasured(b, direction, p, costs)
    requires b.lighterTakerRate >= 0.0 && b.dydxTakerRate >= 0.0
    requires |horizons| == |statistics| == |rates| == 3
    requires forall k :: 0 <= k < 3 ==>
      HorizonMeasured(b, direction, FundingCashflows(Pairs(b), direction, p), k, statistics[k], rates[k])
    requires forall k :: 0 <= k < 3 ==> BuiltHorizon(b.policy, p, costs, k, horizons[k], statistics[k], rates[k])
    requires p.assignedCapitalUsd > 0.0
    requires normal == CountPositive(NetsBy(b, direction, |b.hourlyBooks|, TermsOf(p, horizons[0]), 0.0))
    requires stress
      == CountPositive(NetsBy(b, direction, |b.hourlyBooks|, TermsOf(p, horizons[0]), costs.latencyReserveUsd))
    requires Liquidated(b, direction, p) == Ok(liquidation)
    ensures b.policy.accountEquityUsd != 0.0
    ensures ValidEconomics(EconomicsOf(b, p, costs, horizons, normal, stress, liquidation))
    ensures EconomicsMeasured(b, direction, p, EconomicsOf(b, p, costs, horizons, normal, stress, liquidation))
    ensures EconomicsOf(b, p, costs, horizons, normal, stress, liquidation).horizons == horizons
  {
    hide HorizonMeasured, BuiltHorizon, ValidPairs, NetsBy, CountPositive, Liquidated, ValidCosts, ConsistentPosition,
      TermsOf;
    assert costs.operationalCostUsd == b.policy.operationalCostUsd;
    hide CostsMeasured, ValidEconomics, ValidInstrument, ValidBook;
    EconomicsOfValid(b, p, costs, horizons, statistics, rates, normal, stress, liquidation);
    AllTraced(b, direction, p, costs, horizons, statistics, rates);
    hide HorizonTraced;
    var e := EconomicsOf(b, p, costs, horizons, normal, stress, liquidation);
    assert e.costs == costs && e.horizons == horizons && e.normalQuoteObservations == normal
      && e.stressQuoteObservations == stress && e.modeledLiquidation == liquidation;
  }

  lemma ConsistentBest(b: Bundle, direction: FundingDirection, p: ShadowPosition)
    requires ValidBundle(b) && IsBestPosition(SetupFor(b, direction, b.latestBooks), p)
    ensures ConsistentPosition(b.policy, p)
  {
    BestPositionFacts(SetupFor(b, direction, b.latestBooks), p);
    hide IsBestPosition, ValidBundle;
  }

  lemma TermsChargeable(b: Bundle, p: ShadowPosition, costs: CostBreakdown, h: HorizonEconomics)
    requires p.assignedCapitalUsd > 0.0 && b.lighterTakerRate >= 0.0 && b.dydxTakerRate >= 0.0
    requires ValidCosts(costs) && ValidHorizon(h)
    ensures ChargeableTerms(b, TermsOf(p, h), costs.latencyReserveUsd)
  {
    QuotientNonnegative(h.fundingReversalReserveUsd, p.assignedCapitalUsd / 2.0);
  }

  /** Measures, prices, nets and gates a sized position. */
  method CompleteEconomicsFor(b: Bundle, direction: FundingDirection, p: ShadowPosition) returns (r: Completion)
    requires ValidBundle(b) && Sized(SetupFor(b, direction, b.latestBooks)) == Some(p)
    requires IsBestPosition(SetupFor(b, direction, b.latestBooks), p)
    ensures r.Completed? <==> Evaluable(b, direction, p)
    ensures r.Completed? ==> Sound(b, direction, p, r.economics, r.reasons)
    ensures r.Incomplete? ==> Lacks(b, direction, p, r.reason)
    ensures !r.Incomplete? ==> forall reason :: !Lacks(b, direction, p, reason)
    ensures !r.SizingRejected?
    ensures Orderly(b) ==> !r.Raised?
  {
    var oriented := OrientFunding(Differentials(Pairs(b)), direction);
    if oriented.ValueError? {
      NothingLacks(b, direction, p);
      return Raised;
    }
    ConsistentBest(b, direction, p);
    hide Evaluable, Lacks;
    assert p.assignedCapitalUsd > 0.0 && b.policy.accountEquityUsd > 0.0 && ValidPairs(b.hourlyBooks);
    hide ConsistentPosition, ValidBundle, Sized, IsBestPosition, SetupFor, Pairs, Differentials, StrictlyOrdered,
      FundingReady;
    ReadyIs(b, direction);
    EvaluableNeeds(b, direction, p);
    if |Pairs(b)| < 28 * 24 {
      ShortFunding(b, direction, p);
      return Incomplete(FundingContiguousWindowInsufficient);
    }
    var current := CurrentRows(b, direction);
    if Stamps(current) != CurrentStamps(b) {
      StaleFunding(b, direction, p);
      return Incomplete(CurrentFundingWindowInsufficient);
    }
    ReadyHasCurrent(b, direction);
    hide CurrentRows, CurrentStamps, OrientFunding;
    r := CompleteReady(b, direction, p, Amounts(current));
  }

  lemma NothingLacksLater(b: Bundle, direction: FundingDirection, p: ShadowPosition)
    requires ValidBundle(b)
    ensures FundingReady(b, direction) && HistoryCovered(b)
      && (QuotesInOrder(b, direction, p.baseQuantity) ==> LatencySampled(b, direction, p.baseQuantity))
      ==> forall reason :: !Lacks(b, direction, p, reason)
  {
    hide ValidBundle, FundingReady, HistoryCovered, QuotesInOrder, LatencySampled, Lacks;
    if FundingReady(b, direction) && HistoryCovered(b)
       && (QuotesInOrder(b, direction, p.baseQuantity) ==> LatencySampled(b, direction, p.baseQuantity)) {
      NothingLacks(b, direction, p);
    }
  }

  method CompleteReady(b: Bundle, direction: FundingDirection, p: ShadowPosition, current: seq<real>)
    returns (r: Completion)
    requires ValidBundle(b) && Sized(SetupFor(b, direction, b.latestBooks)) == Some(p)
    requires ConsistentPosition(b.policy, p) && p.assignedCapitalUsd > 0.0 && b.policy.accountEquityUsd > 0.0
    requires ValidPairs(b.hourlyBooks)
    requires FundingReady(b, direction) && current == Amounts(CurrentRows(b, direction)) && current != []
    ensures r.Completed? <==> Evaluable(b, direction, p)
    ensures r.Completed? ==> Sound(b, direction, p, r.economics, r.reasons)
    ensures r.Incomplete? ==> Lacks(b, direction, p, r.reason)
    ensures !r.Incomplete? ==> forall reason :: !Lacks(b, direction, p, reason)
    ensures !r.SizingRejected?
    ensures Orderly(b) ==> !r.Raised?
  {
    hide *;
    EvaluableNeeds(b, direction, p);
    MeasurableIffCovered(b, direction, p);
    OrderlyParts(b, direction, p);
    NothingLacksLater(b, direction, p);
    var cashflows := FundingCashflows(Pairs(b), direction, p);
    var measured := MeasureHorizons(b, direction, cashflows);
    if measured.ValueError? {
      BrokenHistory(b, direction, p);
      return Incomplete(EvaluationWindowInsufficient);
    }
    var (statistics, basisRates) := measured.value;
    AllConsistent(b, direction, p, statistics, basisRates);
    var reasons := RegimeReasons(b, current);
    var priced := PriceCosts(b, direction, p);
    if priced.CostsUnavailable? {
      return SizingRejected(DepthForcedExitUnavailable);
    }
    if priced.CostsIncomplete? {
      NoLatencySample(b, direction, p);
      return Incomplete(priced.reason);
    }
    if priced.CostsRaised? {
      return Raised;
    }
    var costs := priced.costs;
    var horizons, horizonReasons := BuildHorizons(b.policy, p, costs, statistics, basisRates);
    var liquidation := Liquidated(b, direction, p);
    LiquidationSigns(b, direction, p);
    if liquidation.ValueError? {
      return Raised;
    }
    SevenDayValid(b, p, costs, horizons, statistics, basisRates);
    TermsChargeable(b, p, costs, horizons[0]);
    var normal, stress := CountQuotes(b, direction, TermsOf(p, horizons[0]), costs.latencyReserveUsd);
    CompletedSound(b, direction, p, costs, statistics, basisRates, horizons, normal, stress, liquidation.value);
    var economics := EconomicsOf(b, p, costs, horizons, normal, stress, liquidation.value);
    reasons := reasons + horizonReasons + GateReasons(economics, b.policy);
    SoundIs(b, direction, p, economics, reasons);
    return Completed(economics, reasons);
  }

  lemma LiquidationSigns(b: Bundle, direction: FundingDirection, p: ShadowPosition)
    requires ValidBundle(b) && Sized(SetupFor(b, direction, b.latestBooks)) == Some(p)
    ensures Liquidated(b, direction, p).Ok? <==> b.lighterTakerRate >= 0.0 && b.dydxTakerRate >= 0.0
  {
    assert IsBestPosition(SetupFor(b, direction, b.latestBooks), p);
    hide *;
    LiquidationIsAboutRates(b, direction, p);
  }

  lemma SevenDayValid(b: Bundle, p: ShadowPosition, costs: CostBreakdown, horizons: seq<HorizonEconomics>,
                      statistics: seq<CashflowStatistics>, rates: seq<real>)
    requires |horizons| == |statistics| == |rates| == 3 && p.assignedCapitalUsd > 0.0
    requires forall k :: 0 <= k < 3 ==> BuiltHorizon(b.policy, p, costs, k, horizons[k], statistics[k], rates[k])
    ensures ValidHorizon(horizons[0])
  {
    assert BuiltHorizon(b.policy, p, costs, 0, horizons[0], statistics[0], rates[0]);
    hide ValidHorizon, ConsistentStatistics, HorizonOf;
    HorizonOfInRange(b.policy, p, costs, statistics[0], rates[0]);
  }

  lemma SoundIs(b: Bundle, direction: FundingDirection, p: ShadowPosition, e: CompleteEconomics, reasons: set<Reason>)
    requires ValidBundle(b) && ValidEconomics(e) && EconomicsMeasured(b, direction, p, e)
    requires b.lighterTakerRate >= 0.0 && b.dydxTakerRate >= 0.0 && FundingReady(b, direction)
    requires Amounts(CurrentRows(b, direction)) != []
    requires reasons == RegimeReasons(b, Amounts(CurrentRows(b, direction))) + AllHorizonReasons(e.horizons)
      + GateReasons(e, b.policy)
    ensures Sound(b, direction, p, e, reasons)
  {
  }

  // ---------------------------------------------------------------- the report

  datatype AssemblyResult = AssemblyResult(
    coverage: Coverage,
    reasons: set<Reason>,
    bundle: Option<Bundle>)

  datatype Evaluation = Produced(report: Report) | Failed

  /** The assembler withholds a bundle only with reasons, and hands one over only fully covered. */
  ghost predicate ValidAssembly(a: AssemblyResult) {
    match a.bundle
    case None => a.reasons != {}
    case Some(b) => ValidBundle(b) && CompleteCoverage(a.coverage)
  }

  function DirectionVenues(direction: FundingDirection): (Venue, Venue) {
    if direction.ShortLighterLongDydx? then (Lighter, Dydx) else (Dydx, Lighter)
  }

  function Training(b: Bundle): seq<real> {
    TrainingDifferentials(b.fundingPairs, b.trainingEnd)
  }

  /** The position the evaluator prices: sized on the latest books in the training direction. */
  ghost predicate Chosen(b: Bundle, direction: FundingDirection, p: ShadowPosition)
    requires ValidBundle(b)
  {
    && SelectDirection(Training(b)) == Ok(Some(direction))
    && Sized(SetupFor(b, direction, b.latestBooks)) == Some(p)
  }

  /** A shadow candidate: every numeric gate passes, funding still pays, and the dossier is clean. */
  ghost predicate Qualifies(b: Bundle, direction: FundingDirection, e: CompleteEconomics) {
    && AllNumericGatesPass(e)
    && Amounts(CurrentRows(b, direction)) != []
    && RegimeClean(b, Amounts(CurrentRows(b, direction)))
  }

  function ReportWith(decision: Decision, reasons: set<Reason>, direction: FundingDirection, coverage: Coverage,
                      economics: Option<CompleteEconomics>): Report {
    var (short, long) := DirectionVenues(direction);
    Report(decision, reasons, Some(direction), Some(short), Some(long), coverage, economics)
  }

  /** The report on an evaluated position: a shadow candidate exactly when it qualifies. */
  ghost predicate AnswersEvaluated(b: Bundle, coverage: Coverage, direction: FundingDirection, p: ShadowPosition,
                                   r: Report)
    requires ValidBundle(b)
  {
    && r.economics.Some?
    && Sound(b, direction, p, r.economics.value, r.reasons)
    && r == ReportWith(if Qualifies(b, direction, r.economics.value) then ShadowCandidate else Rejected,
                       r.reasons, direction, coverage, r.economics)
  }

  /** The report on a sized position: its economics when it is evaluable, and otherwise what is missing. */
  ghost predicate AnswersSized(b: Bundle, coverage: Coverage, direction: FundingDirection, p: ShadowPosition, r: Report)
    requires ValidBundle(b)
  {
    if Evaluable(b, direction, p) then AnswersEvaluated(b, coverage, direction, p, r)
    else exists reason ::
      Lacks(b, direction, p, reason) && r == Report(InsufficientEvidence, {reason}, None, None, None, coverage, None)
  }

  /** What the evaluator answers for a bundle, case by case of its two searches. */
  ghost predicate Answers(b: Bundle, coverage: Coverage, r: Report)
    requires ValidBundle(b)
  {
    && SelectDirection(Training(b)).Ok?
    && match SelectDirection(Training(b)).value
       case None => r == Report(Rejected, {TrainingFundingMedianZero}, None, None, None, coverage, None)
       case Some(direction) =>
         match Sized(SetupFor(b, direction, b.latestBooks))
         case None => r == ReportWith(Rejected, {DepthCompatibleSizeUnavailable}, direction, coverage, None)
         case Some(p) => AnswersSized(b, coverage, direction, p, r)
  }

  /** No report at all: nothing to train on, or a sized position whose evidence raises. */
  ghost predicate Unanswerable(b: Bundle)
    requires ValidBundle(b)
  {
    || Training(b) == []
    || exists direction, p :: Chosen(b, direction, p) && Raises(b, direction, p)
  }

  /**
   * The evaluator never builds a report its own model rejects, answers every bundle it can with
   * exactly the report its evidence calls for, and raises only on an empty training window or a
   * disorderly bundle.
   */
  method Evaluate(a: AssemblyResult) returns (r: Evaluation)
    requires ValidAssembly(a)
    ensures r.Produced? ==> ValidReport(r.report)
    ensures r.Produced? && a.bundle.Some? ==> Answers(a.bundle.value, a.coverage, r.report)
    ensures r.Produced? && a.bundle.None? ==>
      r.report == Report(InsufficientEvidence, a.reasons, None, None, None, a.coverage, None)
    ensures r.Failed? <==> a.bundle.Some? && Unanswerable(a.bundle.value)
    ensures r.Failed? ==> a.bundle.Some? && (Training(a.bundle.value) == [] || !Orderly(a.bundle.value))
  {
    hide Answers, ValidBundle, Orderly, Training, Unanswerable;
    match a.bundle {
      case None =>
        r := Produced(Report(InsufficientEvidence, a.reasons, None, None, None, a.coverage, None));
      case Some(b) =>
        r := EvaluateBundle(b, a.coverage);
    }
  }

  method EvaluateBundle(b: Bundle, coverage: Coverage) returns (r: Evaluation)
    requires ValidBundle(b) && CompleteCoverage(coverage)
    ensures r.Produced? ==> ValidReport(r.report) && Answers(b, coverage, r.report)
    ensures r.Failed? <==> Unanswerable(b)
    ensures r.Failed? ==> Training(b) == [] || !Orderly(b)
  {
    hide *;
    var selected := SelectDirection(Training(b));
    SelectionFails(Training(b));
    UnanswerableCases(b);
    if selected.ValueError? {
      return Failed;
    }
    if selected.value.None? {
      r := Produced(Report(Rejected, {TrainingFundingMedianZero}, None, None, None, coverage, None));
      MedianZeroAnswers(b, coverage, r.report);
      return;
    }
    var direction := selected.value.value;
    LatestSetup(b, direction);
    var position := SizeShadowPosition(SetupFor(b, direction, b.latestBooks));
    if position.None? {
      r := Produced(ReportWith(Rejected, {DepthCompatibleSizeUnavailable}, direction, coverage, None));
      NoSizeAnswers(b, coverage, direction, r.report);
      return;
    }
    RaisesIff(b, direction, position.value);
    var completion := CompleteEconomicsFor(b, direction, position.value);
    // A sized position is never rejected later for want of depth, so that answer needs no case here.
    if completion.Incomplete? {
      r := Produced(Report(InsufficientEvidence, {completion.reason}, None, None, None, coverage, None));
      LacksExcludesEvaluable(b, direction, position.value, completion.reason);
      IncompleteAnswers(b, coverage, direction, position.value, completion.reason, r.report);
    } else if completion.Raised? {
      r := Failed;
    } else {
      var decision := if completion.reasons == {} then ShadowCandidate else Rejected;
      r := Produced(ReportWith(decision, completion.reasons, direction, coverage, Some(completion.economics)));
      CompletedAnswers(b, coverage, direction, position.value, completion.economics, completion.reasons, r.report);
    }
  }

  lemma UnanswerableCases(b: Bundle)
    requires ValidBundle(b)
    ensures match SelectDirection(Training(b))
      case ValueError => Unanswerable(b)
      case Ok(None) => !Unanswerable(b)
      case Ok(Some(direction)) =>
        match Sized(SetupFor(b, direction, b.latestBooks))
        case None => !Unanswerable(b)
        case Some(p) => Unanswerable(b) <==> Raises(b, direction, p)
  {
    SelectionFails(Training(b));
    hide ValidBundle, SelectDirection, Training, Sized, SetupFor, Raises;
    if SelectDirection(Training(b)).Ok? && SelectDirection(Training(b)).value.Some? {
      var direction := SelectDirection(Training(b)).value.value;
      LatestSetup(b, direction);
      var sized := Sized(SetupFor(b, direction, b.latestBooks));
      assert sized.Some? ==> Chosen(b, direction, sized.value);
    }
  }

  lemma MedianZeroAnswers(b: Bundle, coverage: Coverage, r: Report)
    requires ValidBundle(b) && SelectDirection(Training(b)) == Ok(None)
    requires r == Report(Rejected, {TrainingFundingMedianZero}, None, None, None, coverage, None)
    ensures ValidReport(r) && Answers(b, coverage, r)
  {
    hide ValidBundle, SelectDirection, Training;
  }

  lemma NoSizeAnswers(b: Bundle, coverage: Coverage, direction: FundingDirection, r: Report)
    requires ValidBundle(b) && CompleteCoverage(coverage) && SelectDirection(Training(b)) == Ok(Some(direction))
    requires Sized(SetupFor(b, direction, b.latestBooks)).None?
    requires r == ReportWith(Rejected, {DepthCompatibleSizeUnavailable}, direction, coverage, None)
    ensures ValidReport(r) && Answers(b, coverage, r)
  {
    hide ValidBundle, SelectDirection, Training, Sized, SetupFor, CompleteCoverage, AnswersSized;
  }

  lemma SizedAnswers(b: Bundle, coverage: Coverage, direction: FundingDirection, p: ShadowPosition, r: Report)
    requires ValidBundle(b) && SelectDirection(Training(b)) == Ok(Some(direction))
    requires Sized(SetupFor(b, direction, b.latestBooks)) == Some(p)
    ensures Answers(b, coverage, r) <==> AnswersSized(b, coverage, direction, p, r)
  {
    hide ValidBundle, SelectDirection, Training, Sized, SetupFor, AnswersSized;
  }

  lemma IncompleteAnswers(b: Bundle, coverage: Coverage, direction: FundingDirection, p: ShadowPosition,
                          reason: Reason, r: Report)
    requires ValidBundle(b) && SelectDirection(Training(b)) == Ok(Some(direction))
    requires Sized(SetupFor(b, direction, b.latestBooks)) == Some(p)
    requires !Evaluable(b, direction, p) && Lacks(b, direction, p, reason)
    requires r == Report(InsufficientEvidence, {reason}, None, None, None, coverage, None)
    ensures ValidReport(r) && Answers(b, coverage, r)
  {
    SizedAnswers(b, coverage, direction, p, r);
    hide Answers, ValidBundle, SelectDirection, Training, Sized, SetupFor, CompleteCoverage, Evaluable, Lacks;
  }

  lemma CompletedAnswers(b: Bundle, coverage: Coverage, direction: FundingDirection, p: ShadowPosition,
                         e: CompleteEconomics, reasons: set<Reason>, r: Report)
    requires ValidBundle(b) && CompleteCoverage(coverage) && SelectDirection(Training(b)) == Ok(Some(direction))
    requires Sized(SetupFor(b, direction, b.latestBooks)) == Some(p)
    requires Evaluable(b, direction, p) && Sound(b, direction, p, e, reasons)
    requires r == ReportWith(if reasons == {} then ShadowCandidate else Rejected, reasons, direction, coverage, Some(e))
    ensures ValidReport(r) && Answers(b, coverage, r)
  {
    hide *;
    SoundDecides(b, direction, p, e, reasons);
    EconomicsReportValid(coverage, direction, e, reasons, r);
    EvaluatedAnswers(b, coverage, direction, p, e, reasons, r);
    SizedAnswers(b, coverage, direction, p, r);
  }

  lemma EconomicsReportValid(coverage: Coverage, direction: FundingDirection, e: CompleteEconomics,
                             reasons: set<Reason>, r: Report)
    requires CompleteCoverage(coverage) && ValidEconomics(e) && (reasons == {} ==> AllNumericGatesPass(e))
    requires r == ReportWith(if reasons == {} then ShadowCandidate else Rejected, reasons, direction, coverage, Some(e))
    ensures ValidReport(r)
  {
    hide CompleteCoverage, ValidEconomics, AllNumericGatesPass, SizingReason;
  }

  lemma EvaluatedAnswers(b: Bundle, coverage: Coverage, direction: FundingDirection, p: ShadowPosition,
                         e: CompleteEconomics, reasons: set<Reason>, r: Report)
    requires ValidBundle(b) && Evaluable(b, direction, p) && Sound(b, direction, p, e, reasons)
    requires reasons == {} <==> Qualifies(b, direction, e)
    requires r == ReportWith(if reasons == {} then ShadowCandidate else Rejected, reasons, direction, coverage, Some(e))
    ensures AnswersSized(b, coverage, direction, p, r)
  {
    hide ValidBundle, Evaluable, Lacks, Sound, Qualifies;
  }

  lemma SelectionFails(values: seq<real>)
    ensures SelectDirection(values).ValueError? <==> values == []
  {
  }

  lemma LatestSetup(b: Bundle, direction: FundingDirection)
    requires ValidBundle(b)
    ensures ValidSetup(SetupFor(b, direction, b.latestBooks))
  {
  }

  lemma SoundDecides(b: Bundle, direction: FundingDirection, p: ShadowPosition, e: CompleteEconomics,
                     reasons: set<Reason>)
    requires ValidBundle(b) && Sound(b, direction, p, e, reasons)
    ensures ValidEconomics(e)
    ensures reasons == {} <==> Qualifies(b, direction, e)
    ensures DepthForcedExitUnavailable !in reasons
    ensures Qualifies(b, direction, e) ==> AllNumericGatesPass(e)
  {
    var current := Amounts(CurrentRows(b, direction));
    hide EconomicsMeasured, ValidEconomics, FundingReady, AllNumericGatesPass, RegimeClean, CurrentRows,
      AllHorizonReasons;
    NoReasonsIffGatesPass(b, current, e);
    HorizonReasonsOnly(e.horizons);
  }

  lemma {:induction false} HorizonReasonsOnly(horizons: seq<HorizonEconomics>)
    ensures DepthForcedExitUnavailable !in AllHorizonReasons(horizons)
  {
    if horizons != [] {
      HorizonReasonsOnly(horizons[..|horizons| - 1]);
    }
  }

  // ---------------------------------------------------------------- the bundle alone decides

  lemma HorizonUnique(b: Bundle, direction: FundingDirection, p: ShadowPosition, costs: CostBreakdown, k: int,
                      h: HorizonEconomics, h': HorizonEconomics)
    requires ValidPairs(b.hourlyBooks)
    requires HorizonTraced(b, direction, p, costs, k, h) && HorizonTraced(b, direction, p, costs, k, h')
    ensures h == h'
  {
    var rows := FundingCashflows(Pairs(b), direction, p);
    hide FundingCashflows, ValidPairs, IsCashflowStatistics, BasisComputable, RankValue, AllChanges, HorizonOf,
      ConsistentStatistics, Pairs;
    var stats, rate :| HorizonMeasured(b, direction, rows, k, stats, rate)
      && BuiltHorizon(b.policy, p, costs, k, h, stats, rate);
    var stats', rate' :| HorizonMeasured(b, direction, rows, k, stats', rate')
      && BuiltHorizon(b.policy, p, costs, k, h', stats', rate');
    CashflowStatisticsUnique(rows, HorizonDays(k), stats, stats');
  }

  lemma CostsUnique(b: Bundle, direction: FundingDirection, p: ShadowPosition, c: CostBreakdown, c': CostBreakdown)
    requires ValidBundle(b) && ValidCosts(c) && ValidCosts(c')
    requires CostsMeasured(b, direction, p, c) && CostsMeasured(b, direction, p, c')
    ensures c == c'
  {
    var samples := AllSamples(b, direction, p.baseQuantity);
    hide EntrySlippageCost, ForcedExitCost, ExitNotionals, TakerFeeCost, AllSamples, IsLatencyReserve, ValidBook,
      ValidPairs;
    LatencyReserveUnique(samples, DocumentedLatency(b.policy), c.latencyReserveUsd, c'.latencyReserveUsd);
  }

  lemma SoundParts(b: Bundle, direction: FundingDirection, p: ShadowPosition, e: CompleteEconomics,
                   reasons: set<Reason>)
    requires ValidBundle(b) && Sound(b, direction, p, e, reasons)
    ensures ValidPairs(b.hourlyBooks) && p.assignedCapitalUsd > 0.0 && b.policy.accountEquityUsd != 0.0
    ensures ValidCosts(e.costs) && CostsMeasured(b, direction, p, e.costs) && |e.horizons| == 3
    ensures forall k :: 0 <= k < 3 ==> HorizonTraced(b, direction, p, e.costs, k, e.horizons[k])
    ensures QuotesCounted(b, direction, p, e)
    ensures Liquidated(b, direction, p) == Ok(e.modeledLiquidation)
    ensures e == EconomicsOf(b, p, e.costs, e.horizons, e.normalQuoteObservations, e.stressQuoteObservations,
      e.modeledLiquidation)
    ensures Amounts(CurrentRows(b, direction)) != []
    ensures reasons == RegimeReasons(b, Amounts(CurrentRows(b, direction))) + AllHorizonReasons(e.horizons)
      + GateReasons(e, b.policy)
  {
    assert ValidCosts(e.costs);
    hide CostsMeasured, HorizonTraced, Liquidated, EconomicsOf, CurrentRows, RegimeReasons, AllHorizonReasons,
      GateReasons, ValidEconomics, QuotesCounted, FundingReady;
  }

  /** The economics and the reasons of an evaluated position are fixed by the bundle. */
  lemma SoundUnique(b: Bundle, direction: FundingDirection, p: ShadowPosition, e: CompleteEconomics,
                    reasons: set<Reason>,
                    e': CompleteEconomics, reasons': set<Reason>)
    requires ValidBundle(b) && Sound(b, direction, p, e, reasons) && Sound(b, direction, p, e', reasons')
    ensures e == e' && reasons == reasons'
  {
    SoundParts(b, direction, p, e, reasons);
    SoundParts(b, direction, p, e', reasons');
    hide *;
    CostsUnique(b, direction, p, e.costs, e'.costs);
    HorizonsUnique(b, direction, p, e.costs, e.horizons, e'.horizons);
    CountsUnique(b, direction, p, e, e');
    SameParts(b, p, e, e');
  }

  lemma HorizonsUnique(b: Bundle, direction: FundingDirection, p: ShadowPosition, costs: CostBreakdown,
                       horizons: seq<HorizonEconomics>, horizons': seq<HorizonEconomics>)
    requires ValidPairs(b.hourlyBooks) && |horizons| == |horizons'| == 3
    requires forall k :: 0 <= k < 3 ==> HorizonTraced(b, direction, p, costs, k, horizons[k])
    requires forall k :: 0 <= k < 3 ==> HorizonTraced(b, direction, p, costs, k, horizons'[k])
    ensures horizons == horizons'
  {
    hide HorizonTraced, ValidPairs;
    forall k | 0 <= k < 3 ensures horizons[k] == horizons'[k] {
      HorizonUnique(b, direction, p, costs, k, horizons[k], horizons'[k]);
    }
  }

  /** A record assembled from equal parts is the same record. */
  lemma SameParts(b: Bundle, p: ShadowPosition, e: CompleteEconomics, e': CompleteEconomics)
    requires p.assignedCapitalUsd > 0.0 && b.policy.accountEquityUsd != 0.0 && |e.horizons| == 3
    requires e.costs == e'.costs && e.horizons == e'.horizons && e.normalQuoteObservations == e'.normalQuoteObservations
    requires e.stressQuoteObservations == e'.stressQuoteObservations && e.modeledLiquidation == e'.modeledLiquidation
    requires e == EconomicsOf(b, p, e.costs, e.horizons, e.normalQuoteObservations, e.stressQuoteObservations,
      e.modeledLiquidation)
    requires e' == EconomicsOf(b, p, e'.costs, e'.horizons, e'.normalQuoteObservations, e'.stressQuoteObservations,
      e'.modeledLiquidation)
    ensures e == e'
  {
    hide EconomicsOf;
  }

  lemma CountsUnique(b: Bundle, direction: FundingDirection, p: ShadowPosition, e: CompleteEconomics,
                     e': CompleteEconomics)
    requires ValidBundle(b) && p.assignedCapitalUsd > 0.0 && |e.horizons| == 3
    requires e.horizons == e'.horizons && e.costs == e'.costs
    requires QuotesCounted(b, direction, p, e) && QuotesCounted(b, direction, p, e')
    ensures e.normalQuoteObservations == e'.normalQuoteObservations
    ensures e.stressQuoteObservations == e'.stressQuoteObservations
  {
    hide ValidBundle, TermsOf, NetsBy, CountPositive;
  }

  /** There is one answer to every bundle. */
  lemma AnswersUnique(b: Bundle, coverage: Coverage, r: Report, r': Report)
    requires ValidBundle(b) && Answers(b, coverage, r) && Answers(b, coverage, r')
    ensures r == r'
  {
    hide ValidBundle, SelectDirection, Training, Sized, SetupFor, AnswersSized, ReportWith;
    if SelectDirection(Training(b)).value.Some? {
      var direction := SelectDirection(Training(b)).value.value;
      LatestSetup(b, direction);
      var sized := Sized(SetupFor(b, direction, b.latestBooks));
      if sized.Some? {
        SizedAnswerUnique(b, coverage, direction, sized.value, r, r');
      }
    }
  }

  lemma SizedAnswerUnique(b: Bundle, coverage: Coverage, direction: FundingDirection, p: ShadowPosition, r: Report,
                          r': Report)
    requires ValidBundle(b)
    requires AnswersSized(b, coverage, direction, p, r) && AnswersSized(b, coverage, direction, p, r')
    ensures r == r'
  {
    hide ValidBundle, Evaluable, Lacks, Sound, Qualifies;
    if Evaluable(b, direction, p) {
      SoundUnique(b, direction, p, r.economics.value, r.reasons, r'.economics.value, r'.reasons);
    } else {
      forall r1, r2 | Lacks(b, direction, p, r1) && Lacks(b, direction, p, r2) ensures r1 == r2 {
        LacksUnique(b, direction, p, r1, r2);
      }
    }
  }

  /** A bundle names a shadow candidate: its sized position is evaluable, and its economics qualify. */
  ghost predicate NamesCandidate(b: Bundle)
    requires ValidBundle(b)
  {
    exists direction, p, e, reasons ::
      Chosen(b, direction, p) && Evaluable(b, direction, p) && Sound(b, direction, p, e, reasons)
        && Qualifies(b, direction, e)
  }

  /** Unconditionally: the answer is a shadow candidate if and only if the bundle names one. */
  lemma ShadowCandidateIff(b: Bundle, coverage: Coverage, r: Report)
    requires ValidBundle(b) && Answers(b, coverage, r)
    ensures r.decision == ShadowCandidate <==> NamesCandidate(b)
  {
    hide ValidBundle, SelectDirection, Training, Sized, SetupFor, AnswersSized, Sound, Evaluable, Qualifies, Lacks;
    if NamesCandidate(b) {
      var direction, p, e, reasons :| Chosen(b, direction, p) && Evaluable(b, direction, p)
        && Sound(b, direction, p, e, reasons) && Qualifies(b, direction, e);
      CandidateAnswered(b, coverage, direction, p, e, reasons, r);
    }
    if r.decision == ShadowCandidate {
      var direction := SelectDirection(Training(b)).value.value;
      LatestSetup(b, direction);
      var p := Sized(SetupFor(b, direction, b.latestBooks)).value;
      CandidateFound(b, coverage, direction, p, r);
      assert Chosen(b, direction, p);
    }
  }

  lemma CandidateAnswered(b: Bundle, coverage: Coverage, direction: FundingDirection, p: ShadowPosition,
                          e: CompleteEconomics, reasons: set<Reason>, r: Report)
    requires ValidBundle(b) && Answers(b, coverage, r) && Chosen(b, direction, p)
    requires Evaluable(b, direction, p) && Sound(b, direction, p, e, reasons) && Qualifies(b, direction, e)
    ensures r.decision == ShadowCandidate
  {
    assert SelectDirection(Training(b)) == Ok(Some(direction));
    assert Sized(SetupFor(b, direction, b.latestBooks)) == Some(p);
    SizedAnswers(b, coverage, direction, p, r);
    hide Answers, Chosen, ValidBundle, Sound, Evaluable, Qualifies, SelectDirection, Training, Sized, SetupFor;
    SoundUnique(b, direction, p, e, reasons, r.economics.value, r.reasons);
  }

  lemma CandidateFound(b: Bundle, coverage: Coverage, direction: FundingDirection, p: ShadowPosition, r: Report)
    requires ValidBundle(b) && AnswersSized(b, coverage, direction, p, r) && r.decision == ShadowCandidate
    ensures Evaluable(b, direction, p) && r.economics.Some?
    ensures Sound(b, direction, p, r.economics.value, r.reasons) && Qualifies(b, direction, r.economics.value)
  {
    hide ValidBundle, Sound, Evaluable, Qualifies, Lacks;
  }
}
