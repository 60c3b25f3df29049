/** What a completed evaluation says in dollars: its replay, its fees and each of its reasons. */
module ReportMeaning {
  import opened Numbers
  import opened OrderBook
  import opened OrderStatistics
  import opened QuantitySteps
  import opened EconomicsPolicy
  import opened Sizing
  import opened Tradability
  import opened ExecutionCosts
  import opened HourlyWindows
  import opened FundingSeries
  import opened Cashflows
  import opened Reserves
  import opened EconomicsModel
  import opened Economics
  import opened QuoteCounts
  import opened Evaluator
  import opened CandidateEvaluator
  import opened RoundTrips

  // ---------------------------------------------------------------- the replay of the latest hour

  lemma ShareTimes(x: real, y: real)
    requires y > 0.0
    ensures y * (x / y) == x
  {
  }

  /** The seven-day figures the replay starts from, as the record ties them to its own notionals and costs. */
  lemma SevenDayFigures(b: Bundle, direction: FundingDirection, p: ShadowPosition, e: CompleteEconomics,
                        reasons: set<Reason>)
    requires ValidBundle(b) && Sound(b, direction, p, e, reasons)
    ensures |e.horizons| == 3 && p.assignedCapitalUsd > 0.0 && CostsMeasured(b, direction, p, e.costs)
    ensures e.assignedCapitalUsd == p.assignedCapitalUsd
    ensures e.lighterEntryNotionalUsd == p.lighterEntry.notional && e.dydxEntryNotionalUsd == p.dydxEntry.notional
    ensures e.lighterTakerRate == b.lighterTakerRate && e.dydxTakerRate == b.dydxTakerRate
    ensures ValidCosts(e.costs) && ValidCapital(e)
    ensures e.accountEquityUsd != 0.0 && e.assignedCapitalUsd != 0.0
    ensures forall k :: 0 <= k < 3 ==> ValidHorizon(e.horizons[k]) && HorizonConsistent(e, e.horizons[k])
    ensures e.horizons[0].holdingDays == 7 && e.horizons[1].holdingDays == 14 && e.horizons[2].holdingDays == 28
    ensures StressConsistent(e, e.horizons[2])
  {
    SoundParts(b, direction, p, e, reasons);
    hide CostsMeasured, HorizonTraced, QuotesCounted, Liquidated, HorizonConsistent, ValidHorizon, ValidCosts,
      StressConsistent, RegimeReasons, AllHorizonReasons, GateReasons, FundingReady, CurrentRows, MinimumProfit,
      RequiredReturn;
    assert ValidEconomics(e);
  }

  /** With the seven-day terms, a position's gross and reserves are the horizon's own. */
  lemma TermsAreTheHorizon(e: CompleteEconomics, p: ShadowPosition, h: HorizonEconomics)
    requires p.assignedCapitalUsd > 0.0 && e.assignedCapitalUsd == p.assignedCapitalUsd
    requires e.lighterEntryNotionalUsd == p.lighterEntry.notional && e.dydxEntryNotionalUsd == p.dydxEntry.notional
    requires e.assignedCapitalUsd == e.lighterEntryNotionalUsd + e.dydxEntryNotionalUsd
    requires e.accountEquityUsd != 0.0 && ValidHorizon(h) && HorizonConsistent(e, h)
    ensures RowGross(p, TermsOf(p, h)) == h.grossFundingUsd
    ensures p.assignedCapitalUsd / 2.0 * TermsOf(p, h).reversalRate == h.fundingReversalReserveUsd
    ensures p.assignedCapitalUsd / 2.0 * TermsOf(p, h).basisRate == h.basisDivergenceReserveUsd
    ensures h.conservativeNetUsd == h.grossFundingUsd - e.costs.normalCostUsd - h.fundingReversalReserveUsd
                                    - h.basisDivergenceReserveUsd
  {
    ShareTimes(h.fundingReversalReserveUsd, p.assignedCapitalUsd / 2.0);
  }

  lemma CostsAddUp(b: Bundle, p: ShadowPosition, c: CostBreakdown, exits: (real, real), terms: QuoteTerms,
                   reversal: real, basis: real, latency: real)
    requires ValidCosts(c) && c.operationalCostUsd == b.policy.operationalCostUsd
    requires c.takerFeeCostUsd == TakerFeeCost(b, p, exits.0, exits.1)
    requires p.assignedCapitalUsd / 2.0 * terms.reversalRate == reversal
    requires p.assignedCapitalUsd / 2.0 * terms.basisRate == basis
    ensures TotalCost(RowCosts(b, p, c.entrySlippageUsd, c.forcedExitCostUsd, exits, terms, latency))
         == c.normalCostUsd - c.latencyReserveUsd + latency + reversal + basis
  {
    RowCostParts(b, p, c.entrySlippageUsd, c.forcedExitCostUsd, exits, terms, latency);
    hide TakerFeeCost, RowCosts;
    var r := RowCosts(b, p, c.entrySlippageUsd, c.forcedExitCostUsd, exits, terms, latency);
    assert r.reversal == reversal && r.basis == basis;
    TotalIs(r);
    hide TotalCost;
  }

  lemma RowCostParts(b: Bundle, p: ShadowPosition, entry: real, forced: real, exits: (real, real), terms: QuoteTerms,
                     latency: real)
    ensures var r := RowCosts(b, p, entry, forced, exits, terms, latency);
      && r.entry == entry && r.exit == forced && r.fee == TakerFeeCost(b, p, exits.0, exits.1)
      && r.operational == b.policy.operationalCostUsd && r.latency == latency
      && r.reversal == p.assignedCapitalUsd / 2.0 * terms.reversalRate
      && r.basis == p.assignedCapitalUsd / 2.0 * terms.basisRate
  {
    hide TakerFeeCost;
  }

  lemma TotalIs(c: QuoteCosts)
    ensures TotalCost(c) == c.entry + c.exit + c.fee + c.operational + c.latency + c.reversal + c.basis
  {
  }

  /**
   * Replaying the books the position was sized on, at the seven-day terms, quotes the seven-day net itself under
   * the latency reserve, and that net plus the reserve without it.
   */
  lemma ReplayQuotesTheHorizon(b: Bundle, direction: FundingDirection, p: ShadowPosition, e: CompleteEconomics,
                               reasons: set<Reason>)
    requires ValidBundle(b) && Sized(SetupFor(b, direction, b.latestBooks)) == Some(p)
    requires Sound(b, direction, p, e, reasons)
    ensures |e.horizons| == 3 && p.assignedCapitalUsd > 0.0
    ensures var terms, h := TermsOf(p, e.horizons[0]), e.horizons[0];
      && RowNet(b, direction, b.latestBooks, terms, e.costs.latencyReserveUsd) == Some(h.conservativeNetUsd)
      && RowNet(b, direction, b.latestBooks, terms, 0.0) == Some(h.conservativeNetUsd + e.costs.latencyReserveUsd)
  {
    hide *;
    SevenDayFigures(b, direction, p, e, reasons);
    var h, latency := e.horizons[0], e.costs.latencyReserveUsd;
    CapitalAdds(e);
    TermsAreTheHorizon(e, p, h);
    LatestRow(b, direction, p, e.costs);
    var terms, exits := TermsOf(p, h), ExitNotionals(p, b.latestBooks.lighter, b.latestBooks.dydx).value;
    CostsAddUp(b, p, e.costs, exits, terms, h.fundingReversalReserveUsd, h.basisDivergenceReserveUsd, latency);
    CostsAddUp(b, p, e.costs, exits, terms, h.fundingReversalReserveUsd, h.basisDivergenceReserveUsd, 0.0);
    RowNetIs(b, direction, b.latestBooks, p, terms, latency);
    RowNetIs(b, direction, b.latestBooks, p, terms, 0.0);
  }

  lemma CapitalAdds(e: CompleteEconomics)
    requires ValidCapital(e)
    ensures e.assignedCapitalUsd == e.lighterEntryNotionalUsd + e.dydxEntryNotionalUsd
  {
  }

  lemma RowNetIs(b: Bundle, direction: FundingDirection, row: PairedBooks, p: ShadowPosition, terms: QuoteTerms,
                 latency: real)
    requires ValidBundle(b) && ValidBook(row.lighter) && ValidBook(row.dydx)
    requires Sized(SetupFor(b, direction, row)) == Some(p)
    ensures ValidPosition(p) && ExitNotionals(p, row.lighter, row.dydx).Price?
    ensures ForcedExitCost(p, row.lighter, row.dydx, b.policy.forcedExitDepthMultiplier).Price?
    ensures RowNet(b, direction, row, terms, latency) == Some(RowGross(p, terms) - TotalCost(RowCosts(b, p,
      EntrySlippageCost(p, row.lighter, row.dydx),
      ForcedExitCost(p, row.lighter, row.dydx, b.policy.forcedExitDepthMultiplier).value,
      ExitNotionals(p, row.lighter, row.dydx).value, terms, latency)))
  {
    SizedExits(b, direction, row, p);
    hide Sized, SetupFor, ValidBook, EntrySlippageCost, ForcedExitCost, ExitNotionals, RowGross, RowCosts, TotalCost;
  }

  lemma LatestRow(b: Bundle, direction: FundingDirection, p: ShadowPosition, c: CostBreakdown)
    requires ValidBundle(b) && CostsMeasured(b, direction, p, c)
    ensures ValidBook(b.latestBooks.lighter) && ValidBook(b.latestBooks.dydx) && ValidPosition(p)
    ensures var lighter, dydx := b.latestBooks.lighter, b.latestBooks.dydx;
      && c.entrySlippageUsd == EntrySlippageCost(p, lighter, dydx)
      && ForcedExitCost(p, lighter, dydx, b.policy.forcedExitDepthMultiplier) == Price(c.forcedExitCostUsd)
      && ExitNotionals(p, lighter, dydx).Price?
      && c.takerFeeCostUsd == TakerFeeCost(b, p, ExitNotionals(p, lighter, dydx).value.0,
                                           ExitNotionals(p, lighter, dydx).value.1)
      && c.operationalCostUsd == b.policy.operationalCostUsd
  {
    hide EntrySlippageCost, ForcedExitCost, ExitNotionals, TakerFeeCost, IsLatencyReserve, AllSamples,
      DocumentedLatency, ValidPolicy;
  }

  // ---------------------------------------------------------------- what a horizon measures

  /**
   * A reported horizon's gross is the least that five percent of its hourly windows do not exceed, its reversal
   * reserve the worst run of hours within it, and its basis rate the least change that 99 percent do not exceed.
   */
  lemma HorizonMeaning(b: Bundle, direction: FundingDirection, p: ShadowPosition, e: CompleteEconomics,
                       reasons: set<Reason>, k: int)
    requires ValidBundle(b) && Sound(b, direction, p, e, reasons) && 0 <= k < 3
    ensures |e.horizons| == 3 && e.horizons[k].holdingDays == HorizonDays(k) > 0 && ValidPairs(b.hourlyBooks)
    ensures var h, w, cash := e.horizons[k], HorizonDays(k) * 24, FundingCashflows(Pairs(b), direction, p);
      var gross, changes := GrossOf(AllWindows(cash, w)), AllChanges(b.hourlyBooks, direction, w);
      && IsLeastCovering(gross, 0.05 * |gross| as real, h.grossFundingUsd)
      && IsLeastCovering(changes, 0.99 * |changes| as real, h.basisDivergenceRate)
      && IsWorstDrop(GrossRows(cash), w, h.fundingReversalReserveUsd)
  {
    SoundParts(b, direction, p, e, reasons);
    hide Sound, ValidBundle, ValidPairs, FundingCashflows, Pairs, AllWindows, AllChanges, IsWorstDrop, IsLeastCovering,
      SelectedWindow, RankValue, ConsistentStatistics, StrictlyOrdered, EconomicsOf, CostsMeasured, QuotesCounted,
      GrossRows, GrossOf, MinimumProfit, RequiredReturn;
    assert HorizonTraced(b, direction, p, e.costs, k, e.horizons[k]);
    var cash, w := FundingCashflows(Pairs(b), direction, p), HorizonDays(k) * 24;
    var stats, rate :| HorizonMeasured(b, direction, cash, k, stats, rate)
      && BuiltHorizon(b.policy, p, e.costs, k, e.horizons[k], stats, rate);
    SelectedGross(AllWindows(cash, w));
    RankLeast(GrossOf(AllWindows(cash, w)), 0.05);
    RankLeast(AllChanges(b.hourlyBooks, direction, w), 0.99);
  }

  // ---------------------------------------------------------------- fees

  /** What a venue charges for trading this much. */
  function Fee(traded: real, rate: real): real {
    traded * rate
  }

  lemma ExitsAreTrades(s: Setup, p: ShadowPosition)
    requires ValidSetup(s) && IsBestPosition(s, p) && ValidPosition(p)
    requires ExitNotionals(p, s.lighterBook, s.dydxBook).Price?
    ensures var q, l, d := p.baseQuantity, Multiplier(s.lighterInstrument), Multiplier(s.dydxInstrument);
      && l > 0.0 && d > 0.0
      && Trade(LighterSides(s).closing, q, l).Walked? && Trade(DydxSides(s).closing, q, d).Walked?
      && ExitNotionals(p, s.lighterBook, s.dydxBook).value
           == (Usd(LighterSides(s).closing, q, l), Usd(DydxSides(s).closing, q, d))
  {
    LegsAre(s);
    var units := BestUnits(s, p);
    SizedPosition(s, units, p);
    PositionSigns(s, p);
    ExitQuotesAre(s, p, p.baseQuantity);
    QuoteIsTrade(LighterSides(s).closing, p.baseQuantity, p.lighterMultiplier);
    QuoteIsTrade(DydxSides(s).closing, p.baseQuantity, p.dydxMultiplier);
    hide IsBestPosition, IsPositionFor, ValidSetup, ExitQuotes, BaseQuote, Trade, Usd, LighterSides, DydxSides,
      LighterLeg, DydxLeg, Multiplier, DepthAllows, CapsAllow, Notional, ValidLeg, Top;
  }

  /**
   * The fee of a completed evaluation is each venue's own reported rate on what the position trades there on the
   * latest books, opening and closing.
   */
  lemma FeesByVenue(b: Bundle, direction: FundingDirection, p: ShadowPosition, e: CompleteEconomics,
                    reasons: set<Reason>)
    requires ValidBundle(b) && Sized(SetupFor(b, direction, b.latestBooks)) == Some(p)
    requires Sound(b, direction, p, e, reasons)
    ensures var s, q := SetupFor(b, direction, b.latestBooks), p.baseQuantity;
      var l, d := Multiplier(b.lighterInstrument), Multiplier(b.dydxInstrument);
      && Fillable(s, q) && l > 0.0 && d > 0.0
      && Trade(LighterSides(s).closing, q, l).Walked? && Trade(DydxSides(s).closing, q, d).Walked?
      && e.costs.takerFeeCostUsd == Fee(LighterEntryUsd(s, q) + Usd(LighterSides(s).closing, q, l), e.lighterTakerRate)
                                    + Fee(DydxEntryUsd(s, q) + Usd(DydxSides(s).closing, q, d), e.dydxTakerRate)
    ensures e.lighterTakerRate == b.lighterTakerRate && e.dydxTakerRate == b.dydxTakerRate
  {
    hide *;
    var s := SetupFor(b, direction, b.latestBooks);
    LatestSetup(b, direction);
    BestOf(s, p);
    SameBooks(b, direction);
    SevenDayFigures(b, direction, p, e, reasons);
    LatestRow(b, direction, p, e.costs);
    LargestTradable(s, p);
    TradableFillable(s, p.baseQuantity);
    ExitsAreTrades(s, p);
    var exits := ExitNotionals(p, b.latestBooks.lighter, b.latestBooks.dydx).value;
    FeeAdds(b, p, exits.0, exits.1);
  }

  lemma BestOf(s: Setup, p: ShadowPosition)
    requires ValidSetup(s) && Sized(s) == Some(p)
    ensures IsBestPosition(s, p)
  {
    hide IsBestPosition, ValidSetup;
  }

  lemma SameBooks(b: Bundle, direction: FundingDirection)
    ensures var s := SetupFor(b, direction, b.latestBooks);
      && s.lighterBook == b.latestBooks.lighter && s.dydxBook == b.latestBooks.dydx
      && s.lighterInstrument == b.lighterInstrument && s.dydxInstrument == b.dydxInstrument
      && s.policy == b.policy && s.direction == direction
  {
  }

  lemma TradableFillable(s: Setup, q: real)
    requires ValidSetup(s) && Tradable(s, q)
    ensures Fillable(s, q)
  {
    hide Fillable, ValidSetup;
  }

  lemma FeeAdds(b: Bundle, p: ShadowPosition, lighterExit: real, dydxExit: real)
    ensures TakerFeeCost(b, p, lighterExit, dydxExit)
         == Fee(p.lighterEntry.notional + lighterExit, b.lighterTakerRate)
            + Fee(p.dydxEntry.notional + dydxExit, b.dydxTakerRate)
  {
  }

  /** The record names the account, the policy and the sized position it was computed for. */
  lemma RecordCopies(b: Bundle, direction: FundingDirection, p: ShadowPosition, e: CompleteEconomics,
                     reasons: set<Reason>)
    requires ValidBundle(b) && Sized(SetupFor(b, direction, b.latestBooks)) == Some(p)
    requires Sound(b, direction, p, e, reasons)
    ensures Tradable(SetupFor(b, direction, b.latestBooks), e.baseQuantity)
    ensures forall q :: Tradable(SetupFor(b, direction, b.latestBooks), q) ==> q <= e.baseQuantity
    ensures e.accountEquityUsd == b.policy.accountEquityUsd && e.prefunded == b.policy.prefunded
    ensures e.cashBenchmarkAnnualRate == b.policy.cashBenchmarkAnnualRate
    ensures e.costs.operationalCostUsd == b.policy.operationalCostUsd
    ensures e.incompleteLegLossUsd == p.incompleteLegLossUsd && IsDearerLegShock(p, b.policy)
  {
    SoundParts(b, direction, p, e, reasons);
    CopiesOf(b, p, e);
    hide *;
    var s := SetupFor(b, direction, b.latestBooks);
    LatestSetup(b, direction);
    BestOf(s, p);
    SameBooks(b, direction);
    LatestRow(b, direction, p, e.costs);
    LargestTradable(s, p);
  }

  lemma CopiesOf(b: Bundle, p: ShadowPosition, e: CompleteEconomics)
    requires p.assignedCapitalUsd != 0.0 && b.policy.accountEquityUsd != 0.0 && |e.horizons| == 3
    requires e == EconomicsOf(b, p, e.costs, e.horizons, e.normalQuoteObservations, e.stressQuoteObservations,
      e.modeledLiquidation)
    ensures e.baseQuantity == p.baseQuantity && e.incompleteLegLossUsd == p.incompleteLegLossUsd
    ensures e.accountEquityUsd == b.policy.accountEquityUsd && e.prefunded == b.policy.prefunded
    ensures e.cashBenchmarkAnnualRate == b.policy.cashBenchmarkAnnualRate
  {
    hide MinimumProfit, RequiredReturn;
  }

  // ---------------------------------------------------------------- reasons

  lemma {:induction false} HorizonReasonsMeaning(horizons: seq<HorizonEconomics>, days: int)
    ensures HorizonNonpositive(days) in AllHorizonReasons(horizons) <==>
      exists k :: 0 <= k < |horizons| && horizons[k].holdingDays == days && !horizons[k].netPositive
    ensures HorizonMinimumProfit(days) in AllHorizonReasons(horizons) <==>
      exists k :: 0 <= k < |horizons| && horizons[k].holdingDays == days && !horizons[k].minimumProfitPass
    ensures HorizonAnnualizedReturn(days) in AllHorizonReasons(horizons) <==>
      exists k :: 0 <= k < |horizons| && horizons[k].holdingDays == days && !horizons[k].annualizedReturnPass
    ensures forall x :: x in AllHorizonReasons(horizons) ==>
      x.HorizonNonpositive? || x.HorizonMinimumProfit? || x.HorizonAnnualizedReturn?
  {
    if horizons != [] {
      var init, last := horizons[..|horizons| - 1], horizons[|horizons| - 1];
      HorizonReasonsMeaning(init, days);
      assert forall k :: 0 <= k < |init| ==> init[k] == horizons[k];
      var before, own := AllHorizonReasons(init), HorizonReasons(last);
      assert AllHorizonReasons(horizons) == before + own;
      assert HorizonNonpositive(days) in own <==> last.holdingDays == days && !last.netPositive;
      assert HorizonMinimumProfit(days) in own <==> last.holdingDays == days && !last.minimumProfitPass;
      assert HorizonAnnualizedReturn(days) in own <==> last.holdingDays == days && !last.annualizedReturnPass;
      hide AllHorizonReasons, HorizonReasons;
    }
  }

  ghost predicate HorizonFalls(e: CompleteEconomics, days: int, short: HorizonEconomics -> bool) {
    exists k :: 0 <= k < |e.horizons| && e.horizons[k].holdingDays == days && short(e.horizons[k])
  }

  /** When each reason applies, in the record's own figures and the frozen limits. */
  ghost predicate Applies(b: Bundle, current: seq<real>, e: CompleteEconomics, x: Reason)
    requires current != []
  {
    match x
    case CurrentFundingRegimeReversed => Median(current) <= 0.0
    case CompatibilityBlocking => b.dossierStatus == Ineligible || b.dossierBlocking > 0
    case CompatibilityEvidenceIncomplete => b.dossierStatus == EvidenceIncomplete || b.dossierMissingEvidence > 0
    case HorizonNonpositive(days) => HorizonFalls(e, days, (h: HorizonEconomics) => h.conservativeNetUsd <= 0.0)
    case HorizonMinimumProfit(days) => HorizonFalls(e, days, (h: HorizonEconomics) =>
      h.conservativeNetUsd < 3.0 || h.conservativeNetUsd < e.assignedCapitalUsd * 0.003)
    case HorizonAnnualizedReturn(days) => HorizonFalls(e, days, (h: HorizonEconomics) =>
      h.annualizedConservativeReturn < 0.12 || h.annualizedConservativeReturn < e.cashBenchmarkAnnualRate + 0.05)
    case DoubledCostNonpositive => e.doubledCost28dNetUsd <= 0.0
    case StressLossLimitExceeded => e.fundingAndForcedExitLossRate > 0.0025
    case ModeledDrawdownLimitExceeded => e.modeledDrawdownRate >= 0.08
    case ModeledLiquidation => e.modeledLiquidation
    case NormalQuoteObservationsInsufficient => e.normalQuoteObservations < 25
    case StressQuoteObservationsInsufficient => e.stressQuoteObservations < 10
    case _ => false
  }

  lemma RegimeMembers(b: Bundle, current: seq<real>, e: CompleteEconomics, x: Reason)
    requires current != []
    ensures x in RegimeReasons(b, current) <==>
      (x.CurrentFundingRegimeReversed? || x.CompatibilityBlocking? || x.CompatibilityEvidenceIncomplete?)
      && Applies(b, current, e, x)
  {
    hide Median;
  }

  lemma GateMembers(b: Bundle, current: seq<real>, e: CompleteEconomics, x: Reason)
    requires current != [] && ValidPolicy(b.policy) && ValidEconomics(e)
    ensures x in GateReasons(e, b.policy) <==>
      (x.DoubledCostNonpositive? || x.StressLossLimitExceeded? || x.ModeledDrawdownLimitExceeded?
       || x.ModeledLiquidation? || x.NormalQuoteObservationsInsufficient? || x.StressQuoteObservationsInsufficient?)
      && Applies(b, current, e, x)
  {
    GateFigures(e);
    assert b.policy.minimumNormalQuoteObservations == 25 && b.policy.minimumStressQuoteObservations == 10;
    hide ValidPolicy, ValidEconomics, HorizonFalls, Median;
  }

  lemma GateFigures(e: CompleteEconomics)
    requires ValidEconomics(e)
    ensures e.doubledCost28dPass <==> e.doubledCost28dNetUsd > 0.0
    ensures e.stressLossPass <==> e.fundingAndForcedExitLossRate <= 0.0025
    ensures e.drawdownPass <==> e.modeledDrawdownRate < 0.08
    ensures e.liquidationPass <==> !e.modeledLiquidation
  {
    hide ValidCosts, ValidHorizon, HorizonConsistent;
  }

  lemma HorizonFigures(e: CompleteEconomics, k: int)
    requires ValidEconomics(e) && 0 <= k < 3
    ensures |e.horizons| == 3
    ensures var h := e.horizons[k];
      && (h.netPositive <==> h.conservativeNetUsd > 0.0)
      && (h.minimumProfitPass <==>
            h.conservativeNetUsd >= 3.0 && h.conservativeNetUsd >= e.assignedCapitalUsd * 0.003)
      && (h.annualizedReturnPass <==>
            && h.annualizedConservativeReturn >= 0.12
            && h.annualizedConservativeReturn >= e.cashBenchmarkAnnualRate + 0.05)
  {
    hide ValidCosts, StressConsistent;
    assert ValidHorizon(e.horizons[k]) && HorizonConsistent(e, e.horizons[k]);
  }

  lemma HorizonMembers(b: Bundle, current: seq<real>, e: CompleteEconomics, x: Reason)
    requires current != [] && ValidEconomics(e)
    ensures x in AllHorizonReasons(e.horizons) <==>
      (x.HorizonNonpositive? || x.HorizonMinimumProfit? || x.HorizonAnnualizedReturn?) && Applies(b, current, e, x)
  {
    assert |e.horizons| == 3;
    forall k | 0 <= k < 3
      ensures e.horizons[k].netPositive <==> e.horizons[k].conservativeNetUsd > 0.0
      ensures e.horizons[k].minimumProfitPass <==>
        e.horizons[k].conservativeNetUsd >= 3.0 && e.horizons[k].conservativeNetUsd >= e.assignedCapitalUsd * 0.003
      ensures e.horizons[k].annualizedReturnPass <==>
        && e.horizons[k].annualizedConservativeReturn >= 0.12
        && e.horizons[k].annualizedConservativeReturn >= e.cashBenchmarkAnnualRate + 0.05
    {
      HorizonFigures(e, k);
    }
    if x.HorizonNonpositive? || x.HorizonMinimumProfit? || x.HorizonAnnualizedReturn? {
      HorizonReasonsMeaning(e.horizons, x.days);
    } else {
      HorizonReasonsMeaning(e.horizons, 7);
    }
    hide ValidEconomics, AllHorizonReasons, Median;
  }

  /** A completed evaluation gives exactly the reasons that apply, each for its own figure. */
  lemma ReasonsExplained(b: Bundle, direction: FundingDirection, p: ShadowPosition, e: CompleteEconomics,
                         reasons: set<Reason>)
    requires ValidBundle(b) && Sound(b, direction, p, e, reasons)
    ensures var current := Amounts(CurrentRows(b, direction));
      current != [] && forall x :: x in reasons <==> Applies(b, current, e, x)
  {
    SoundParts(b, direction, p, e, reasons);
    PolicyOf(b, direction, p, e, reasons);
    hide *;
    var current := Amounts(CurrentRows(b, direction));
    forall x ensures x in reasons <==> Applies(b, current, e, x) {
      RegimeMembers(b, current, e, x);
      HorizonMembers(b, current, e, x);
      GateMembers(b, current, e, x);
      if Applies(b, current, e, x) {
        AppliesCases(b, current, e, x);
      }
    }
  }

  lemma PolicyOf(b: Bundle, direction: FundingDirection, p: ShadowPosition, e: CompleteEconomics, reasons: set<Reason>)
    requires ValidBundle(b) && Sound(b, direction, p, e, reasons)
    ensures ValidPolicy(b.policy) && ValidEconomics(e)
  {
    hide ValidPolicy, ValidEconomics, EconomicsMeasured, FundingReady;
  }

  /** Nothing else ever applies. */
  lemma AppliesCases(b: Bundle, current: seq<real>, e: CompleteEconomics, x: Reason)
    requires current != [] && Applies(b, current, e, x)
    ensures x.CurrentFundingRegimeReversed? || x.CompatibilityBlocking? || x.CompatibilityEvidenceIncomplete?
      || x.HorizonNonpositive? || x.HorizonMinimumProfit? || x.HorizonAnnualizedReturn?
      || x.DoubledCostNonpositive? || x.StressLossLimitExceeded? || x.ModeledDrawdownLimitExceeded?
      || x.ModeledLiquidation? || x.NormalQuoteObservationsInsufficient? || x.StressQuoteObservationsInsufficient?
  {
    hide HorizonFalls, Median;
  }
}
