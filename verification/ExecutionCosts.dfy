/** Entry slippage, forced exits, exit notionals, margin stress and quoted net of a sized position. */
module ExecutionCosts {
  import opened Numbers
  import opened OrderBook
  import opened OrderStatistics
  import opened EconomicsPolicy
  import opened Sizing

  /** A price that needs depth: the walk may find too little of it, or reject its input. */
  datatype Priced<+T> = Price(value: T) | NoDepth | BadInput

  predicate ValidPosition(p: ShadowPosition) {
    p.baseQuantity > 0.0 && p.lighterMultiplier > 0.0 && p.dydxMultiplier > 0.0
  }

  /** How far each leg's entry average is on the wrong side of the midpoint, before clamping. */
  function EntryAdversity(p: ShadowPosition, lighter: Book, dydx: Book): (real, real)
    requires ValidBook(lighter) && ValidBook(dydx)
  {
    match p.direction
    case ShortLighterLongDydx =>
      (Midpoint(lighter) - p.lighterEntry.weightedAveragePrice, p.dydxEntry.weightedAveragePrice - Midpoint(dydx))
    case ShortDydxLongLighter =>
      (p.lighterEntry.weightedAveragePrice - Midpoint(lighter), Midpoint(dydx) - p.dydxEntry.weightedAveragePrice)
  }

  /** The base quantity times both adversities, each clamped at zero. */
  function ClampedCost(base: real, adversity: (real, real)): real {
    base * (Max(0.0, adversity.0) + Max(0.0, adversity.1))
  }

  function UnclampedCost(base: real, adversity: (real, real)): real {
    base * (adversity.0 + adversity.1)
  }

  function EntrySlippageCost(p: ShadowPosition, lighter: Book, dydx: Book): real
    requires ValidBook(lighter) && ValidBook(dydx)
  {
    ClampedCost(p.baseQuantity, EntryAdversity(p, lighter, dydx))
  }

  /** The sides a position leaves through: a short buys asks back, a long sells into bids. */
  function ExitSides(direction: FundingDirection, lighter: Book, dydx: Book): (seq<BookLevel>, seq<BookLevel>) {
    match direction
    case ShortLighterLongDydx => (Top(lighter.asks), Top(dydx.bids))
    case ShortDydxLongLighter => (Top(lighter.bids), Top(dydx.asks))
  }

  function ExitAdversity(p: ShadowPosition, lighterExit: real, dydxExit: real): (real, real) {
    match p.direction
    case ShortLighterLongDydx =>
      (lighterExit - p.lighterEntry.weightedAveragePrice, p.dydxEntry.weightedAveragePrice - dydxExit)
    case ShortDydxLongLighter =>
      (p.lighterEntry.weightedAveragePrice - lighterExit, dydxExit - p.dydxEntry.weightedAveragePrice)
  }

  /** Walks base units out of both sides; the Lighter walk comes first. */
  function ExitQuotes(p: ShadowPosition, lighter: Book, dydx: Book, base: real): Priced<(WalkedQuote, WalkedQuote)>
    requires ValidPosition(p)
  {
    var sides := ExitSides(p.direction, lighter, dydx);
    match BaseQuote(sides.0, base, p.lighterMultiplier)
    case InvalidQuantity => BadInput
    case InsufficientDepth => NoDepth
    case Walked(l) =>
      match BaseQuote(sides.1, base, p.dydxMultiplier)
      case InvalidQuantity => BadInput
      case InsufficientDepth => NoDepth
      case Walked(d) => Price((l, d))
  }

  function ForcedExitCost(p: ShadowPosition, lighter: Book, dydx: Book, depthMultiplier: real): Priced<real>
    requires ValidPosition(p)
  {
    if depthMultiplier <= 0.0 then BadInput
    else match ExitQuotes(p, lighter, dydx, Stressed(p.baseQuantity, depthMultiplier))
      case BadInput => BadInput
      case NoDepth => NoDepth
      case Price(quotes) =>
        Price(ClampedCost(p.baseQuantity,
          ExitAdversity(p, quotes.0.weightedAveragePrice, quotes.1.weightedAveragePrice)))
  }

  function ExitNotionals(p: ShadowPosition, lighter: Book, dydx: Book): Priced<(real, real)>
    requires ValidPosition(p)
  {
    match ExitQuotes(p, lighter, dydx, p.baseQuantity)
    case BadInput => BadInput
    case NoDepth => NoDepth
    case Price(quotes) => Price((quotes.0.notional, quotes.1.notional))
  }

  lemma ClampedOrdered(base: real, a: (real, real), b: (real, real))
    requires base > 0.0 && a.0 <= b.0 && a.1 <= b.1
    ensures 0.0 <= ClampedCost(base, a) <= ClampedCost(base, b)
    ensures a.0 > 0.0 && a.1 > 0.0 ==> ClampedCost(base, a) == UnclampedCost(base, a) > 0.0
  {
    var x, y := Max(0.0, a.0) + Max(0.0, a.1), Max(0.0, b.0) + Max(0.0, b.1);
    ScaleLe(0.0, x, base);
    ScaleLe(x, y, base);
    if a.0 > 0.0 && a.1 > 0.0 {
      ProductPositive(base, x);
      assert x == a.0 + a.1;
    }
  }

  lemma SizedPosition(s: Setup, units: int, p: ShadowPosition)
    requires ValidSetup(s) && IsPositionFor(s, units, p)
    ensures ValidPosition(p) && p.direction == s.direction
    ensures p.lighterMultiplier == LighterLeg(s).multiplier && p.dydxMultiplier == DydxLeg(s).multiplier
    ensures DepthAllows(s, p.baseQuantity) && CapsAllow(s, p.baseQuantity)
    ensures BaseQuote(LighterLeg(s).entry, p.baseQuantity, p.lighterMultiplier) == Walked(p.lighterEntry)
    ensures BaseQuote(DydxLeg(s).entry, p.baseQuantity, p.dydxMultiplier) == Walked(p.dydxEntry)
    ensures ExitSides(s.direction, s.lighterBook, s.dydxBook) == (LighterLeg(s).exit, DydxLeg(s).exit)
    ensures ValidLeg(LighterLeg(s)) && ValidLeg(DydxLeg(s))
  {
    LegsValid(s);
  }

  /** A walk on one side of a book averages no better than that side's best price. */
  lemma SideAverages(book: Book, base: real, multiplier: real)
    requires ValidBook(book) && multiplier > 0.0
    ensures BaseQuote(Top(book.bids), base, multiplier).Walked? ==>
      BaseQuote(Top(book.bids), base, multiplier).quote.weightedAveragePrice <= book.bids[0].price
    ensures BaseQuote(Top(book.asks), base, multiplier).Walked? ==>
      BaseQuote(Top(book.asks), base, multiplier).quote.weightedAveragePrice >= book.asks[0].price
  {
    if base > 0.0 {
      PerContract(base, base, multiplier);
      AverageBetween(book, base / multiplier);
    }
  }

  lemma EntryAdverse(s: Setup, units: int, p: ShadowPosition)
    requires ValidSetup(s) && IsPositionFor(s, units, p)
    ensures EntryAdversity(p, s.lighterBook, s.dydxBook).0 > 0.0
    ensures EntryAdversity(p, s.lighterBook, s.dydxBook).1 > 0.0
    ensures p.direction == s.direction
    ensures match s.direction
      case ShortLighterLongDydx =>
        && p.lighterEntry.weightedAveragePrice <= s.lighterBook.bids[0].price
        && p.dydxEntry.weightedAveragePrice >= s.dydxBook.asks[0].price
      case ShortDydxLongLighter =>
        && p.lighterEntry.weightedAveragePrice >= s.lighterBook.asks[0].price
        && p.dydxEntry.weightedAveragePrice <= s.dydxBook.bids[0].price
  {
    SizedPosition(s, units, p);
    hide BaseQuote, IsPositionFor;
    SideAverages(s.lighterBook, p.baseQuantity, p.lighterMultiplier);
    SideAverages(s.dydxBook, p.baseQuantity, p.dydxMultiplier);
  }

  lemma ExitAdverse(s: Setup, units: int, p: ShadowPosition, base: real)
    requires ValidSetup(s) && IsPositionFor(s, units, p)
    requires ValidPosition(p) && ExitQuotes(p, s.lighterBook, s.dydxBook, base).Price?
    ensures var quotes := ExitQuotes(p, s.lighterBook, s.dydxBook, base).value;
      var exit := ExitAdversity(p, quotes.0.weightedAveragePrice, quotes.1.weightedAveragePrice);
      exit.0 > 0.0 && exit.1 > 0.0
  {
    EntryAdverse(s, units, p);
    hide BaseQuote, IsPositionFor;
    SideAverages(s.lighterBook, base, p.lighterMultiplier);
    SideAverages(s.dydxBook, base, p.dydxMultiplier);
  }

  /** A position sized from these books pays to enter on both legs: no entry clamp ever binds. */
  lemma EntryClampNeverBinds(s: Setup, units: int, p: ShadowPosition)
    requires ValidSetup(s) && IsPositionFor(s, units, p)
    ensures var entry := EntryAdversity(p, s.lighterBook, s.dydxBook);
      && entry.0 > 0.0 && entry.1 > 0.0
      && EntrySlippageCost(p, s.lighterBook, s.dydxBook) == UnclampedCost(p.baseQuantity, entry) > 0.0
  {
    SizedPosition(s, units, p);
    EntryAdverse(s, units, p);
    hide ClampedCost, UnclampedCost, EntryAdversity, IsPositionFor;
    var entry := EntryAdversity(p, s.lighterBook, s.dydxBook);
    ClampedOrdered(p.baseQuantity, entry, entry);
  }

  /** It also pays to leave on both legs, at every exit depth the same books can fill. */
  lemma ExitClampNeverBinds(s: Setup, units: int, p: ShadowPosition, depthMultiplier: real)
    requires ValidSetup(s) && IsPositionFor(s, units, p) && depthMultiplier > 0.0
    ensures ValidPosition(p)
    ensures var quotes := ExitQuotes(p, s.lighterBook, s.dydxBook, Stressed(p.baseQuantity, depthMultiplier));
      quotes.Price? ==>
        var exit := ExitAdversity(p, quotes.value.0.weightedAveragePrice, quotes.value.1.weightedAveragePrice);
        && exit.0 > 0.0 && exit.1 > 0.0
        && ForcedExitCost(p, s.lighterBook, s.dydxBook, depthMultiplier) == Price(UnclampedCost(p.baseQuantity, exit))
        && UnclampedCost(p.baseQuantity, exit) > 0.0
  {
    SizedPosition(s, units, p);
    hide ClampedCost, UnclampedCost, ExitQuotes, ExitAdversity, IsPositionFor, Stressed;
    var quotes := ExitQuotes(p, s.lighterBook, s.dydxBook, Stressed(p.baseQuantity, depthMultiplier));
    if quotes.Price? {
      ExitAdverse(s, units, p, Stressed(p.baseQuantity, depthMultiplier));
      var exit := ExitAdversity(p, quotes.value.0.weightedAveragePrice, quotes.value.1.weightedAveragePrice);
      ClampedOrdered(p.baseQuantity, exit, exit);
    }
  }

  /** One side's quote worsens as more is taken: bids fall, asks rise, and depth shrinks to fit. */
  lemma SideWorsens(book: Book, base: real, base': real, multiplier: real)
    requires ValidBook(book) && multiplier > 0.0 && 0.0 < base <= base'
    ensures BaseQuote(Top(book.bids), base', multiplier).Walked? ==>
      && BaseQuote(Top(book.bids), base, multiplier).Walked?
      && BaseQuote(Top(book.bids), base', multiplier).quote.weightedAveragePrice
         <= BaseQuote(Top(book.bids), base, multiplier).quote.weightedAveragePrice
    ensures BaseQuote(Top(book.asks), base', multiplier).Walked? ==>
      && BaseQuote(Top(book.asks), base, multiplier).Walked?
      && BaseQuote(Top(book.asks), base', multiplier).quote.weightedAveragePrice
         >= BaseQuote(Top(book.asks), base, multiplier).quote.weightedAveragePrice
  {
    PerContract(base, base', multiplier);
    AverageMonotone(book, base / multiplier, base' / multiplier);
  }

  /** For any position and books, a deeper forced exit is never cheaper. */
  lemma ForcedExitMonotone(p: ShadowPosition, lighter: Book, dydx: Book, m: real, m': real)
    requires ValidPosition(p) && ValidBook(lighter) && ValidBook(dydx) && 0.0 < m <= m'
    requires ForcedExitCost(p, lighter, dydx, m').Price?
    ensures ForcedExitCost(p, lighter, dydx, m).Price?
    ensures 0.0 <= ForcedExitCost(p, lighter, dydx, m).value <= ForcedExitCost(p, lighter, dydx, m').value
  {
    var near, far := Stressed(p.baseQuantity, m), Stressed(p.baseQuantity, m');
    StressedGrows(p.baseQuantity, p.baseQuantity, m, m');
    ExitWorsens(p, lighter, dydx, near, far);
    hide ClampedCost, ExitQuotes, ExitAdversity, Stressed;
    var q, q' := ExitQuotes(p, lighter, dydx, near).value, ExitQuotes(p, lighter, dydx, far).value;
    ClampedOrdered(p.baseQuantity, ExitAdversity(p, q.0.weightedAveragePrice, q.1.weightedAveragePrice),
                   ExitAdversity(p, q'.0.weightedAveragePrice, q'.1.weightedAveragePrice));
  }

  lemma ExitWorsens(p: ShadowPosition, lighter: Book, dydx: Book, base: real, base': real)
    requires ValidPosition(p) && ValidBook(lighter) && ValidBook(dydx) && 0.0 < base <= base'
    requires ExitQuotes(p, lighter, dydx, base').Price?
    ensures ExitQuotes(p, lighter, dydx, base).Price?
    ensures var q, q' := ExitQuotes(p, lighter, dydx, base).value, ExitQuotes(p, lighter, dydx, base').value;
      var a := ExitAdversity(p, q.0.weightedAveragePrice, q.1.weightedAveragePrice);
      var a' := ExitAdversity(p, q'.0.weightedAveragePrice, q'.1.weightedAveragePrice);
      a.0 <= a'.0 && a.1 <= a'.1
  {
    SideWorsens(lighter, base, base', p.lighterMultiplier);
    SideWorsens(dydx, base, base', p.dydxMultiplier);
    hide BaseQuote;
  }

  /**
   * On the books it was sized from, a position can always be force-exited at the policy's depth
   * multiple, and unwound at its own size whenever that multiple is at least one.
   */
  lemma SizedNeverRunsOut(s: Setup, units: int, p: ShadowPosition)
    requires ValidSetup(s) && IsPositionFor(s, units, p)
    ensures ValidPosition(p)
    ensures ForcedExitCost(p, s.lighterBook, s.dydxBook, s.policy.forcedExitDepthMultiplier).Price?
    ensures s.policy.forcedExitDepthMultiplier >= 1.0 ==>
      && ExitNotionals(p, s.lighterBook, s.dydxBook).Price?
      && ExitNotionals(p, s.lighterBook, s.dydxBook).value.0 > 0.0
      && ExitNotionals(p, s.lighterBook, s.dydxBook).value.1 > 0.0
  {
    SizedPosition(s, units, p);
    var m := s.policy.forcedExitDepthMultiplier;
    var base, stressed := p.baseQuantity, Stressed(p.baseQuantity, m);
    StressedGrows(base, base, m, m);
    hide Stressed, IsPositionFor, CapsAllow, BaseQuote, PositionOf, ClampedCost, ExitAdversity;
    ExitFits(LighterLeg(s).exit, stressed, stressed, p.lighterMultiplier);
    ExitFits(DydxLeg(s).exit, stressed, stressed, p.dydxMultiplier);
    if m >= 1.0 {
      ExitFits(LighterLeg(s).exit, base, stressed, p.lighterMultiplier);
      ExitFits(DydxLeg(s).exit, base, stressed, p.dydxMultiplier);
    }
  }

  lemma ExitFits(levels: seq<BookLevel>, base: real, stressed: real, multiplier: real)
    requires PositiveLevels(levels) && multiplier > 0.0 && 0.0 < base <= stressed
    requires Fits(levels, stressed, multiplier)
    ensures BaseQuote(levels, base, multiplier).Walked?
    ensures BaseQuote(levels, base, multiplier).quote.notional > 0.0
  {
    PerContract(base, stressed, multiplier);
    NotionalPositive(levels, base, multiplier);
  }

  // ---------------------------------------------------------------- margin stress

  datatype MarginStress = MarginStress(
    stressedExitPrice: real,
    stressedExitNotionalUsd: real,
    stressedPnlUsd: real,
    stressedFeeUsd: real,
    liquidationPenaltyUsd: real,
    remainingCollateralUsd: real,
    requiredCollateralUsd: real,
    modeledLiquidation: bool)

  function StressMargin(isLong: bool, baseQuantity: real, entryPrice: real, collateralUsd: real,
                        takerFeeRate: real, shock: real, assumption: MarginAssumption): Outcome<MarginStress> {
    if baseQuantity <= 0.0 || entryPrice <= 0.0 || collateralUsd <= 0.0
       || takerFeeRate < 0.0 || shock < 0.0 || shock >= 1.0
    then ValueError
    else
      var exitPrice := entryPrice * (1.0 + (if isLong then -1.0 else 1.0) * shock);
      var entryNotional, exitNotional := baseQuantity * entryPrice, baseQuantity * exitPrice;
      var pnl := if isLong then exitNotional - entryNotional else entryNotional - exitNotional;
      var fee := exitNotional * takerFeeRate;
      var penalty := exitNotional * assumption.liquidationPenaltyFraction;
      var remaining := collateralUsd + pnl - fee - penalty;
      var required := exitNotional * Max(assumption.maintenanceMarginFraction, assumption.closeOutMarginFraction);
      Ok(MarginStress(exitPrice, exitNotional, pnl, fee, penalty, remaining, required,
        collateralUsd < entryNotional * assumption.initialMarginFraction || remaining <= required))
  }

  function Slack(isLong: bool, shock: real, rates: real): real {
    if isLong then (1.0 - shock) * (1.0 - rates) else 1.0 - shock - (1.0 + shock) * rates
  }

  /**
   * For a fully collateralised leg liquidation depends on rates alone: a long is liquidated
   * exactly when fee, penalty and maintenance use up the whole exit, whatever the shock, and
   * a short exactly when they use up the share (1 - shock) / (1 + shock) of it.
   */
  lemma FullyCollateralisedLiquidation(isLong: bool, base: real, price: real, collateral: real,
                                       fee: real, shock: real, a: MarginAssumption)
    requires base > 0.0 && price > 0.0 && collateral == Notional(base, price)
    requires fee >= 0.0 && 0.0 <= shock < 1.0 && ValidMargin(a)
    ensures StressMargin(isLong, base, price, collateral, fee, shock, a).Ok?
    ensures StressMargin(isLong, base, price, collateral, fee, shock, a).value.modeledLiquidation <==>
      LegExhausted(isLong, fee, shock, a)
  {
    ProductPositive(base, price);
    var rates := fee + a.liquidationPenaltyFraction + a.maintenanceMarginFraction;
    StressGap(isLong, base, price, fee, shock, a);
    hide StressMargin, Slack, LegExhausted;
    SignOfProduct(collateral, Slack(isLong, shock, rates));
    SlackSign(isLong, fee, shock, a);
  }

  lemma SlackSign(isLong: bool, fee: real, shock: real, a: MarginAssumption)
    requires 0.0 <= shock < 1.0
    ensures Slack(isLong, shock, fee + a.liquidationPenaltyFraction + a.maintenanceMarginFraction) <= 0.0
      <==> LegExhausted(isLong, fee, shock, a)
  {
    SignOfProduct(1.0 - shock, 1.0 - (fee + a.liquidationPenaltyFraction + a.maintenanceMarginFraction));
  }

  /** The rates use up all that a fully collateralised leg keeps when its price moves by the shock. */
  predicate LegExhausted(isLong: bool, fee: real, shock: real, a: MarginAssumption) {
    var rates := fee + a.liquidationPenaltyFraction + a.maintenanceMarginFraction;
    if isLong then rates >= 1.0 else 1.0 - shock <= (1.0 + shock) * rates
  }

  /** With the entry notional as collateral, what is left over the requirement is n times the slack. */
  lemma StressGap(isLong: bool, base: real, price: real, fee: real, shock: real, a: MarginAssumption)
    requires base > 0.0 && price > 0.0 && base * price > 0.0
    requires fee >= 0.0 && 0.0 <= shock < 1.0 && ValidMargin(a)
    ensures var r := StressMargin(isLong, base, price, base * price, fee, shock, a);
      var rates := fee + a.liquidationPenaltyFraction + a.maintenanceMarginFraction;
      r.Ok? && (r.value.modeledLiquidation <==> (base * price) * Slack(isLong, shock, rates) <= 0.0)
  {
    var n := base * price;
    StressParts(isLong, base, price, n, fee, shock, a);
    var r := StressMargin(isLong, base, price, n, fee, shock, a).value;
    var e := r.stressedExitNotionalUsd;
    hide StressMargin, Slack, Max;
    ScaleLe(a.initialMarginFraction, 1.0, n);
    GapAlgebra(isLong, base, price, n, e, fee, a.liquidationPenaltyFraction, a.maintenanceMarginFraction, shock);
  }

  /** The figures the liquidation flag is decided from. */
  lemma StressParts(isLong: bool, base: real, price: real, n: real, fee: real, shock: real, a: MarginAssumption)
    requires base > 0.0 && price > 0.0 && n == base * price && n > 0.0
    requires fee >= 0.0 && 0.0 <= shock < 1.0 && ValidMargin(a)
    ensures StressMargin(isLong, base, price, n, fee, shock, a).Ok?
    ensures var r := StressMargin(isLong, base, price, n, fee, shock, a).value;
      var e := r.stressedExitNotionalUsd;
      && e == base * (price * (1.0 + (if isLong then -1.0 else 1.0) * shock))
      && r.remainingCollateralUsd
         == n + (if isLong then e - n else n - e) - e * fee - e * a.liquidationPenaltyFraction
      && r.requiredCollateralUsd == e * a.maintenanceMarginFraction
      && (r.modeledLiquidation <==>
            n < n * a.initialMarginFraction || r.remainingCollateralUsd <= r.requiredCollateralUsd)
  {
    assert Max(a.maintenanceMarginFraction, a.closeOutMarginFraction) == a.maintenanceMarginFraction;
  }

  lemma GapAlgebra(isLong: bool, base: real, price: real, n: real, e: real,
                   fee: real, penalty: real, maintenance: real, shock: real)
    requires n == base * price && e == base * (price * (1.0 + (if isLong then -1.0 else 1.0) * shock))
    ensures n + (if isLong then e - n else n - e) - e * fee - e * penalty - e * maintenance
         == n * Slack(isLong, shock, fee + penalty + maintenance)
  {
    var share := if isLong then 1.0 - shock else 1.0 + shock;
    var rates := fee + penalty + maintenance;
    assert base * (price * share) == (base * price) * share;
    assert e * fee + e * penalty + e * maintenance == e * rates;
    assert e * rates == n * (share * rates) by {
      assert (n * share) * rates == n * (share * rates);
    }
  }

  lemma SignOfProduct(n: real, x: real)
    requires n > 0.0
    ensures n * x <= 0.0 <==> x <= 0.0
  {
    if x > 0.0 {
      ProductPositive(n, x);
    } else {
      ScaleLe(x, 0.0, n);
    }
  }

  // ---------------------------------------------------------------- quoted net

  datatype QuoteCosts = QuoteCosts(
    entry: real, exit: real, fee: real, operational: real, latency: real, reversal: real, basis: real)

  /** Gross funding less every cost; a negative cost is refused. */
  function QuotedNet(gross: real, c: QuoteCosts): Outcome<real> {
    if c.entry < 0.0 || c.exit < 0.0 || c.fee < 0.0 || c.operational < 0.0
       || c.latency < 0.0 || c.reversal < 0.0 || c.basis < 0.0
    then ValueError
    else Ok(gross - (c.entry + c.exit + c.fee + c.operational + c.latency + c.reversal + c.basis))
  }
}
