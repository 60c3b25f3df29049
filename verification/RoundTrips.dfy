/** Opening a position and unwinding it on the same books: what the separate calculators agree on. */
module RoundTrips {
  import opened Numbers
  import opened OrderBook
  import opened QuantitySteps
  import opened Sizing
  import opened Tradability
  import opened ExecutionCosts
  import opened Economics
  import opened Evaluator

  /** The cash lost by leaving both legs at these notionals: the short's rise and the long's fall. */
  function UnwindLoss(p: ShadowPosition, lighterExit: real, dydxExit: real): real {
    match p.direction
    case ShortLighterLongDydx => (lighterExit - p.lighterEntry.notional) + (p.dydxEntry.notional - dydxExit)
    case ShortDydxLongLighter => (p.lighterEntry.notional - lighterExit) + (dydxExit - p.dydxEntry.notional)
  }

  lemma NotionalGap(base: real, high: real, low: real)
    ensures Notional(base, high) - Notional(base, low) == Notional(base, high - low)
  {
  }

  lemma CostIsNotional(base: real, adversity: (real, real))
    ensures UnclampedCost(base, adversity) == Notional(base, adversity.0) + Notional(base, adversity.1)
  {
  }

  lemma StressedOnce(base: real)
    ensures Stressed(base, 1.0) == base
  {
  }

  /** Both exits are priced, each leg loses, and the loss is the adversity of the exit prices. */
  lemma UnwindPriced(s: Setup, p: ShadowPosition, quotes: (WalkedQuote, WalkedQuote))
    requires ValidSetup(s) && IsBestPosition(s, p) && ValidPosition(p)
    requires ExitQuotes(p, s.lighterBook, s.dydxBook, p.baseQuantity) == Price(quotes)
    ensures var exit := ExitAdversity(p, quotes.0.weightedAveragePrice, quotes.1.weightedAveragePrice);
      UnwindLoss(p, quotes.0.notional, quotes.1.notional) == UnclampedCost(p.baseQuantity, exit)
  {
    EntryLegsPriced(s, p);
    var sides := ExitSides(p.direction, s.lighterBook, s.dydxBook);
    NotionalIsBaseTimesAverage(sides.0, p.baseQuantity, p.lighterMultiplier);
    NotionalIsBaseTimesAverage(sides.1, p.baseQuantity, p.dydxMultiplier);
    var l, d := quotes.0.weightedAveragePrice, quotes.1.weightedAveragePrice;
    CostIsNotional(p.baseQuantity, ExitAdversity(p, l, d));
    hide IsBestPosition, ValidSetup, BaseQuote, Notional, UnclampedCost, ExitSides;
    NotionalGap(p.baseQuantity, l, p.lighterEntry.weightedAveragePrice);
    NotionalGap(p.baseQuantity, p.lighterEntry.weightedAveragePrice, l);
    NotionalGap(p.baseQuantity, d, p.dydxEntry.weightedAveragePrice);
    NotionalGap(p.baseQuantity, p.dydxEntry.weightedAveragePrice, d);
  }

  /**
   * Unwinding a just-sized position on its own books always loses, by exactly the forced-exit cost
   * at depth one; the policy's deeper forced-exit reserve therefore covers that loss.
   */
  lemma ReserveCoversUnwind(s: Setup, p: ShadowPosition)
    requires ValidSetup(s) && IsBestPosition(s, p) && s.policy.forcedExitDepthMultiplier >= 1.0
    ensures ValidPosition(p)
    ensures ExitNotionals(p, s.lighterBook, s.dydxBook).Price?
    ensures ForcedExitCost(p, s.lighterBook, s.dydxBook, s.policy.forcedExitDepthMultiplier).Price?
    ensures var exits := ExitNotionals(p, s.lighterBook, s.dydxBook).value;
      && 0.0 < UnwindLoss(p, exits.0, exits.1)
      && ForcedExitCost(p, s.lighterBook, s.dydxBook, 1.0) == Price(UnwindLoss(p, exits.0, exits.1))
      && UnwindLoss(p, exits.0, exits.1)
         <= ForcedExitCost(p, s.lighterBook, s.dydxBook, s.policy.forcedExitDepthMultiplier).value
  {
    var m := s.policy.forcedExitDepthMultiplier;
    var units := BestUnits(s, p);
    SizedNeverRunsOut(s, units, p);
    StressedOnce(p.baseQuantity);
    hide IsBestPosition, IsPositionFor, ExitQuotes, Stressed, UnclampedCost, ExitAdversity, ClampedCost;
    ExitClampNeverBinds(s, units, p, 1.0);
    ForcedExitMonotone(p, s.lighterBook, s.dydxBook, 1.0, m);
    hide ValidBook, UnwindLoss;
    UnwindPriced(s, p, ExitQuotes(p, s.lighterBook, s.dydxBook, p.baseQuantity).value);
  }

  lemma BestUnits(s: Setup, p: ShadowPosition) returns (units: int)
    requires ValidSetup(s) && IsBestPosition(s, p)
    ensures IsPositionFor(s, units, p)
  {
    hide MeetsMinima, IsPositionFor;
    units :| LargestFeasible(s, units) && MeetsMinima(s, units) && IsPositionFor(s, units, p);
  }

  /** On the sizing books, the executable entry cost is the long leg's notional less the short leg's. */
  lemma EntryQuoteMatchesPosition(s: Setup, p: ShadowPosition)
    requires ValidSetup(s) && IsBestPosition(s, p)
    ensures EntryQuoteCost(s, p.baseQuantity) == Price(
      if p.direction.ShortLighterLongDydx? then p.dydxEntry.notional - p.lighterEntry.notional
      else p.lighterEntry.notional - p.dydxEntry.notional)
  {
    var units := BestUnits(s, p);
    SizedPosition(s, units, p);
    hide IsBestPosition, IsPositionFor, BaseQuote, DepthAllows, CapsAllow, LighterLeg, DydxLeg;
  }

  // ---------------------------------------------------------------- slippage and forced exits as cash

  /** What the two entry notionals fall short of the midpoints: the short's proceeds missed, the long's excess paid. */
  function EntryShortfall(p: ShadowPosition, lighterMid: real, dydxMid: real): real {
    match p.direction
    case ShortLighterLongDydx =>
      (p.baseQuantity * lighterMid - p.lighterEntry.notional) + (p.dydxEntry.notional - p.baseQuantity * dydxMid)
    case ShortDydxLongLighter =>
      (p.lighterEntry.notional - p.baseQuantity * lighterMid) + (p.baseQuantity * dydxMid - p.dydxEntry.notional)
  }

  /** The entry slippage of a sized position is the cash it falls short of trading both legs at the midpoints. */
  lemma SlippageIsShortfall(s: Setup, p: ShadowPosition)
    requires ValidSetup(s) && IsBestPosition(s, p)
    ensures EntrySlippageCost(p, s.lighterBook, s.dydxBook)
         == EntryShortfall(p, (s.lighterBook.bids[0].price + s.lighterBook.asks[0].price) / 2.0,
                           (s.dydxBook.bids[0].price + s.dydxBook.asks[0].price) / 2.0)
  {
    var units := BestUnits(s, p);
    EntryClampNeverBinds(s, units, p);
    EntryLegsPriced(s, p);
    var entry := EntryAdversity(p, s.lighterBook, s.dydxBook);
    var l, d := Midpoint(s.lighterBook), Midpoint(s.dydxBook);
    CostIsNotional(p.baseQuantity, entry);
    ShortfallAdds(p, l, d, entry);
    hide IsBestPosition, IsPositionFor, EntryShortfall, UnclampedCost, EntrySlippageCost, Notional, EntryAdversity;
  }

  lemma ShortfallAdds(p: ShadowPosition, l: real, d: real, entry: (real, real))
    requires p.lighterEntry.notional == Notional(p.baseQuantity, p.lighterEntry.weightedAveragePrice)
    requires p.dydxEntry.notional == Notional(p.baseQuantity, p.dydxEntry.weightedAveragePrice)
    requires entry == match p.direction
      case ShortLighterLongDydx =>
        (l - p.lighterEntry.weightedAveragePrice, p.dydxEntry.weightedAveragePrice - d)
      case ShortDydxLongLighter =>
        (p.lighterEntry.weightedAveragePrice - l, d - p.dydxEntry.weightedAveragePrice)
    ensures Notional(p.baseQuantity, entry.0) + Notional(p.baseQuantity, entry.1) == EntryShortfall(p, l, d)
  {
  }

  /** Unwinding m times the position at these notionals: what it loses against m times the entry. */
  function DeepUnwindLoss(p: ShadowPosition, m: real, lighterExit: real, dydxExit: real): real {
    match p.direction
    case ShortLighterLongDydx => (lighterExit - m * p.lighterEntry.notional) + (m * p.dydxEntry.notional - dydxExit)
    case ShortDydxLongLighter => (m * p.lighterEntry.notional - lighterExit) + (dydxExit - m * p.dydxEntry.notional)
  }

  predicate IsShare(cost: real, m: real, total: real) {
    m * cost == total
  }

  /**
   * A forced exit at depth m is priced exactly when both closing sides fill m times the position, and then m times
   * its cost is what unwinding m such positions in one walk would lose.
   */
  lemma ForcedExitIsDeepUnwind(s: Setup, p: ShadowPosition, m: real)
    requires ValidSetup(s) && IsBestPosition(s, p) && m > 0.0
    ensures ValidPosition(p) && Multiplier(s.lighterInstrument) > 0.0 && Multiplier(s.dydxInstrument) > 0.0
    ensures var cost := ForcedExitCost(p, s.lighterBook, s.dydxBook, m);
      var q, l, d := p.baseQuantity * m, Multiplier(s.lighterInstrument), Multiplier(s.dydxInstrument);
      if Trade(LighterSides(s).closing, q, l).Walked? && Trade(DydxSides(s).closing, q, d).Walked? then
        cost.Price? && IsShare(cost.value, m, DeepUnwindLoss(p, m, Usd(LighterSides(s).closing, q, l),
                                                             Usd(DydxSides(s).closing, q, d)))
      else cost.NoDepth?
  {
    LegsAre(s);
    hide *;
    var units := BestUnits(s, p);
    SizedPosition(s, units, p);
    PositionSigns(s, p);
    EntryLegsPriced(s, p);
    var base := Stressed(p.baseQuantity, m);
    StressedIs(p.baseQuantity, m);
    QuoteIsTrade(LighterSides(s).closing, base, p.lighterMultiplier);
    QuoteIsTrade(DydxSides(s).closing, base, p.dydxMultiplier);
    ExitQuotesAre(s, p, base);
    ForcedExitPriced(p, s.lighterBook, s.dydxBook, m);
    ExitClampNeverBinds(s, units, p, m);
    var quotes := ExitQuotes(p, s.lighterBook, s.dydxBook, base);
    assert base == p.baseQuantity * m;
    if quotes.Price? {
      DeepUnwindAdds(p, m, base, quotes.value.0, quotes.value.1);
    }
  }

  lemma PositionSigns(s: Setup, p: ShadowPosition)
    requires ValidPosition(p)
    requires p.lighterMultiplier == LighterLeg(s).multiplier && p.dydxMultiplier == DydxLeg(s).multiplier
    ensures p.baseQuantity > 0.0 && p.lighterMultiplier > 0.0 && p.dydxMultiplier > 0.0
    ensures p.lighterMultiplier == Multiplier(s.lighterInstrument) && p.dydxMultiplier == Multiplier(s.dydxInstrument)
  {
    hide Top, Multiplier;
  }

  lemma ExitQuotesAre(s: Setup, p: ShadowPosition, base: real)
    requires ValidPosition(p) && p.direction == s.direction
    ensures var quotes := ExitQuotes(p, s.lighterBook, s.dydxBook, base);
      var l := BaseQuote(Top(LighterSides(s).closing), base, p.lighterMultiplier);
      var d := BaseQuote(Top(DydxSides(s).closing), base, p.dydxMultiplier);
      && (quotes.Price? <==> l.Walked? && d.Walked?)
      && (!l.InvalidQuantity? && !d.InvalidQuantity? ==> !quotes.BadInput?)
      && (quotes.Price? ==> quotes.value == (l.quote, d.quote))
  {
    hide BaseQuote, Top;
  }

  lemma ForcedExitPriced(p: ShadowPosition, lighter: Book, dydx: Book, m: real)
    requires ValidPosition(p) && m > 0.0
    ensures var quotes := ExitQuotes(p, lighter, dydx, Stressed(p.baseQuantity, m));
      && (ForcedExitCost(p, lighter, dydx, m).Price? <==> quotes.Price?)
      && (ForcedExitCost(p, lighter, dydx, m).NoDepth? <==> quotes.NoDepth?)
  {
    hide ExitQuotes;
  }

  lemma QuoteIsTrade(side: seq<BookLevel>, base: real, contract: real)
    requires contract > 0.0 && base > 0.0
    ensures BaseQuote(Top(side), base, contract).Walked? <==> Trade(side, base, contract).Walked?
    ensures BaseQuote(Top(side), base, contract).Walked? ==>
      var q := BaseQuote(Top(side), base, contract).quote;
      && q.notional == Usd(side, base, contract)
      && q.notional == Notional(base, q.weightedAveragePrice)
    ensures !BaseQuote(Top(side), base, contract).InvalidQuantity?
  {
    TradeIs(side, base, contract);
    NotionalIsBaseTimesAverage(Top(side), base, contract);
    hide Top, Trade, BaseNotional, BaseAverage, Fits, Notional;
  }

  lemma DeepUnwindAdds(p: ShadowPosition, m: real, base: real, l: WalkedQuote, d: WalkedQuote)
    requires base == p.baseQuantity * m
    requires l.notional == Notional(base, l.weightedAveragePrice)
    requires d.notional == Notional(base, d.weightedAveragePrice)
    requires p.lighterEntry.notional == Notional(p.baseQuantity, p.lighterEntry.weightedAveragePrice)
    requires p.dydxEntry.notional == Notional(p.baseQuantity, p.dydxEntry.weightedAveragePrice)
    ensures IsShare(UnclampedCost(p.baseQuantity, ExitAdversity(p, l.weightedAveragePrice, d.weightedAveragePrice)), m,
                    DeepUnwindLoss(p, m, l.notional, d.notional))
  {
    ScaledGap(p.baseQuantity, m, l.weightedAveragePrice, p.lighterEntry.weightedAveragePrice);
    ScaledGap(p.baseQuantity, m, d.weightedAveragePrice, p.dydxEntry.weightedAveragePrice);
    var a := ExitAdversity(p, l.weightedAveragePrice, d.weightedAveragePrice);
    assert m * UnclampedCost(p.baseQuantity, a) == m * (p.baseQuantity * a.0) + m * (p.baseQuantity * a.1);
  }

  lemma ScaledGap(base: real, m: real, exit: real, entry: real)
    ensures m * (base * (exit - entry)) == Notional(base * m, exit) - m * Notional(base, entry)
    ensures m * (base * (entry - exit)) == m * Notional(base, entry) - Notional(base * m, exit)
  {
  }
}
