/** What sizing achieves, said of the books' first twenty levels and the policy's own numbers. */
module Tradability {
  import opened Numbers
  import opened OrderBook
  import opened OrderStatistics
  import opened QuantitySteps
  import opened EconomicsPolicy
  import opened Sizing

  /** The side of a book that opens a leg, and the side that closes it. */
  datatype Sides = Sides(opening: seq<BookLevel>, closing: seq<BookLevel>)

  /** A short sells into the bids and is bought back from the asks; a long the other way round. */
  function SidesOf(book: Book, short: bool): Sides {
    if short then Sides(book.bids, book.asks) else Sides(book.asks, book.bids)
  }

  function LighterSides(s: Setup): Sides {
    SidesOf(s.lighterBook, s.direction == ShortLighterLongDydx)
  }

  function DydxSides(s: Setup): Sides {
    SidesOf(s.dydxBook, s.direction == ShortDydxLongLighter)
  }

  /** Walking q base units, counted in contracts, through at most twenty levels. */
  function Trade(side: seq<BookLevel>, q: real, contract: real): WalkResult
    requires contract > 0.0
  {
    Walk(side[..if |side| < 20 then |side| else 20], q / contract)
  }

  function Usd(side: seq<BookLevel>, q: real, contract: real): real
    requires contract > 0.0 && Trade(side, q, contract).Walked?
  {
    Trade(side, q, contract).quote.notional * contract
  }

  /** A leg can be opened at q, and closed at m times q. */
  predicate LegFills(sides: Sides, q: real, m: real, contract: real)
    requires contract > 0.0
  {
    Trade(sides.opening, q, contract).Walked? && Trade(sides.closing, q * m, contract).Walked?
  }

  /** Both legs can be opened at q, and closed at the policy's multiple of q. */
  ghost predicate Fillable(s: Setup, q: real)
    requires ValidSetup(s)
  {
    LegsValid(s);
    && LegFills(LighterSides(s), q, s.policy.forcedExitDepthMultiplier, Multiplier(s.lighterInstrument))
    && LegFills(DydxSides(s), q, s.policy.forcedExitDepthMultiplier, Multiplier(s.dydxInstrument))
  }

  function LighterEntryUsd(s: Setup, q: real): real
    requires ValidSetup(s) && Fillable(s, q)
  {
    LegsValid(s);
    Usd(LighterSides(s).opening, q, Multiplier(s.lighterInstrument))
  }

  function DydxEntryUsd(s: Setup, q: real): real
    requires ValidSetup(s) && Fillable(s, q)
  {
    LegsValid(s);
    Usd(DydxSides(s).opening, q, Multiplier(s.dydxInstrument))
  }

  /** Both legs together stay within either capital limit, and a shock on either leg alone within the loss limit. */
  predicate WithinLimits(p: Policy, lighter: real, dydx: real) {
    && lighter + dydx <= p.accountEquityUsd * p.maximumAssignedEquityFraction
    && lighter + dydx <= p.maximumAssignedUsd
    && lighter * p.incompleteLegShock <= p.accountEquityUsd * p.maximumIncompleteLossEquityFraction
    && dydx * p.incompleteLegShock <= p.accountEquityUsd * p.maximumIncompleteLossEquityFraction
  }

  /** A quantity both venues accept, both books can open and close, and the policy's limits allow. */
  ghost predicate Tradable(s: Setup, q: real)
    requires ValidSetup(s)
  {
    && Accepted(s.lighterInstrument, s.dydxInstrument, q)
    && Fillable(s, q)
    && WithinLimits(s.policy, LighterEntryUsd(s, q), DydxEntryUsd(s, q))
  }

  /** Each leg reaches its venue's published minimum notional. */
  ghost predicate AboveMinima(s: Setup, q: real)
    requires ValidSetup(s)
  {
    && Fillable(s, q)
    && s.lighterInstrument.minNotional.Some? && s.dydxInstrument.minNotional.Some?
    && s.lighterInstrument.minNotional.value <= LighterEntryUsd(s, q)
    && s.dydxInstrument.minNotional.value <= DydxEntryUsd(s, q)
  }

  lemma TradeIs(side: seq<BookLevel>, q: real, contract: real)
    requires contract > 0.0
    ensures Trade(side, q, contract).Walked? <==> q > 0.0 && Fits(Top(side), q, contract)
    ensures Trade(side, q, contract).Walked? ==> Usd(side, q, contract) == BaseNotional(Top(side), q, contract)
  {
    assert Top(side) == side[..if |side| < 20 then |side| else 20];
    PerContract(q, 0.0, contract);
    PerContract(0.0, q, contract);
    assert q <= 0.0 ==> q / contract <= 0.0;
  }

  lemma LegFillsIs(sides: Sides, q: real, m: real, leg: Leg)
    requires leg.multiplier > 0.0 && m > 0.0
    requires leg == Leg(Top(sides.opening), Top(sides.closing), leg.multiplier)
    ensures LegFills(sides, q, m, leg.multiplier) <==>
      q > 0.0 && Fits(leg.entry, q, leg.multiplier) && Fits(leg.exit, Stressed(q, m), leg.multiplier)
    ensures LegFills(sides, q, m, leg.multiplier) ==>
      Usd(sides.opening, q, leg.multiplier) == BaseNotional(leg.entry, q, leg.multiplier)
  {
    StressedIs(q, m);
    TradeIs(sides.opening, q, leg.multiplier);
    TradeIs(sides.closing, Stressed(q, m), leg.multiplier);
    hide Trade, Usd, Fits, BaseNotional, Stressed, Top;
    assert LegFills(sides, q, m, leg.multiplier) <==>
      Trade(sides.opening, q, leg.multiplier).Walked? && Trade(sides.closing, Stressed(q, m), leg.multiplier).Walked?;
  }

  lemma FillableIs(s: Setup, q: real)
    requires ValidSetup(s)
    ensures Fillable(s, q) <==> q > 0.0 && DepthAllows(s, q)
    ensures Fillable(s, q) ==>
      LighterEntryUsd(s, q) == LighterNotional(s, q) && DydxEntryUsd(s, q) == DydxNotional(s, q)
  {
    LegsValid(s);
    LegsAre(s);
    hide LegFills, Usd, Fits, BaseNotional, LighterSides, DydxSides, LighterLeg, DydxLeg, Multiplier, Stressed, Top,
      ValidBook, Trade;
    LegFillsIs(LighterSides(s), q, s.policy.forcedExitDepthMultiplier, LighterLeg(s));
    LegFillsIs(DydxSides(s), q, s.policy.forcedExitDepthMultiplier, DydxLeg(s));
  }

  lemma StressedIs(q: real, m: real)
    requires m > 0.0
    ensures Stressed(q, m) == q * m
    ensures q > 0.0 <==> Stressed(q, m) > 0.0
  {
    if q > 0.0 {
      ProductPositive(q, m);
    } else {
      ScaleLe(q, 0.0, m);
    }
  }

  lemma LegsAre(s: Setup)
    ensures LighterLeg(s) == Leg(Top(LighterSides(s).opening), Top(LighterSides(s).closing),
                                 Multiplier(s.lighterInstrument))
    ensures DydxLeg(s) == Leg(Top(DydxSides(s).opening), Top(DydxSides(s).closing), Multiplier(s.dydxInstrument))
  {
    hide Top;
  }

  /** The cap on the worse leg is a cap on each leg. */
  lemma LimitsAre(p: Policy, lighter: real, dydx: real)
    requires p.incompleteLegShock >= 0.0
    ensures WithinLimits(p, lighter, dydx) <==>
      lighter + dydx <= CapitalCap(p) && IncompleteLoss(lighter, dydx, p) <= IncompleteLossCap(p)
    ensures IncompleteLoss(lighter, dydx, p) == lighter * p.incompleteLegShock
      || IncompleteLoss(lighter, dydx, p) == dydx * p.incompleteLegShock
    ensures IncompleteLoss(lighter, dydx, p) >= lighter * p.incompleteLegShock
    ensures IncompleteLoss(lighter, dydx, p) >= dydx * p.incompleteLegShock
  {
    ScaleLe(lighter, Max(lighter, dydx), p.incompleteLegShock);
    ScaleLe(dydx, Max(lighter, dydx), p.incompleteLegShock);
  }

  lemma TradableIs(s: Setup, q: real)
    requires ValidSetup(s)
    ensures Tradable(s, q) <==>
      Accepted(s.lighterInstrument, s.dydxInstrument, q) && q > 0.0 && DepthAllows(s, q) && CapsAllow(s, q)
    ensures Fillable(s, q) ==>
      LighterEntryUsd(s, q) == LighterNotional(s, q) && DydxEntryUsd(s, q) == DydxNotional(s, q)
  {
    FillableIs(s, q);
    LimitsAre(s.policy, LighterNotional(s, q), DydxNotional(s, q));
    hide Fillable, LighterEntryUsd, DydxEntryUsd, LighterNotional, DydxNotional, DepthAllows, Accepted, WithinLimits,
      IncompleteLoss, CapitalCap, IncompleteLossCap;
  }

  /** The feasible numbers of steps are the tradable quantities. */
  lemma FeasibleIsTradable(s: Setup, units: int)
    requires ValidSetup(s) && CommonBaseStep(s.lighterInstrument, s.dydxInstrument).Some?
    ensures var q := Steps(units, CommonBaseStep(s.lighterInstrument, s.dydxInstrument).value);
      && (Feasible(s, units) <==> Tradable(s, q))
      && (Feasible(s, units) ==> (MeetsMinima(s, units) <==> AboveMinima(s, q)))
  {
    var step := CommonBaseStep(s.lighterInstrument, s.dydxInstrument).value;
    var q := Steps(units, step);
    StepPositive(s);
    TradableIs(s, q);
    FillableIs(s, q);
    assert WholeMultiple(q, step);
    AcceptedIffWholeSteps(s.lighterInstrument, s.dydxInstrument, q);
    UnitsPositive(units, step);
    hide CommonBaseStep, Steps, DepthAllows, CapsAllow, Accepted, Tradable, Fillable, LighterEntryUsd, DydxEntryUsd,
      LighterNotional, DydxNotional, ValidSetup;
  }

  lemma UnitsPositive(units: int, step: real)
    requires step > 0.0
    ensures Steps(units, step) > 0.0 <==> units > 0
  {
    if units > 0 {
      ProductPositive(units as real, step);
    } else {
      ScaleLe(units as real, 0.0, step);
    }
  }

  lemma TradableSteps(s: Setup, q: real) returns (units: int)
    requires ValidSetup(s) && Tradable(s, q)
    ensures CommonBaseStep(s.lighterInstrument, s.dydxInstrument).Some?
    ensures q == Steps(units, CommonBaseStep(s.lighterInstrument, s.dydxInstrument).value) && Feasible(s, units)
  {
    CommonStepMeaning(s.lighterInstrument, s.dydxInstrument);
    AcceptedIffWholeSteps(s.lighterInstrument, s.dydxInstrument, q);
    hide CommonBaseStep, VenueStep, Fillable, WithinLimits, LighterEntryUsd, DydxEntryUsd, Steps, ValidSetup, Feasible;
    var step := CommonBaseStep(s.lighterInstrument, s.dydxInstrument).value;
    units :| q == Steps(units, step);
    FeasibleIsTradable(s, units);
  }

  /**
   * The sized position trades the largest tradable quantity, both legs at the price of walking it, each
   * above its venue's minimum; its capital is both legs, and its incomplete-leg loss the shock on the dearer one.
   */
  lemma LargestTradable(s: Setup, p: ShadowPosition)
    requires ValidSetup(s) && IsBestPosition(s, p)
    ensures Tradable(s, p.baseQuantity) && AboveMinima(s, p.baseQuantity)
    ensures forall q :: Tradable(s, q) ==> q <= p.baseQuantity
    ensures p.direction == s.direction
    ensures p.lighterEntry.notional == LighterEntryUsd(s, p.baseQuantity)
    ensures p.dydxEntry.notional == DydxEntryUsd(s, p.baseQuantity)
    ensures p.assignedCapitalUsd == p.lighterEntry.notional + p.dydxEntry.notional
    ensures p.unusedCashUsd == s.policy.accountEquityUsd - p.lighterEntry.notional - p.dydxEntry.notional
    ensures IsDearerLegShock(p, s.policy)
  {
    assert s.policy.incompleteLegShock >= 0.0;
    hide IsBestPosition, ValidSetup, Tradable, AboveMinima;
    var units := LargestUnits(s, p);
    PositionFigures(s, units, p);
    FeasibleIsTradable(s, units);
    var step := CommonBaseStep(s.lighterInstrument, s.dydxInstrument).value;
    hide CommonBaseStep, Steps, IsPositionFor, LighterEntryUsd, DydxEntryUsd, IsDearerLegShock, Feasible, MeetsMinima;
    forall q | Tradable(s, q) ensures q <= p.baseQuantity {
      var v := TradableSteps(s, q);
      assert Feasible(s, v);
      StepPositive(s);
      StepsUpTo(v, units, step);
    }
  }

  lemma LargestUnits(s: Setup, p: ShadowPosition) returns (units: int)
    requires ValidSetup(s) && IsBestPosition(s, p)
    ensures LargestFeasible(s, units) && MeetsMinima(s, units) && IsPositionFor(s, units, p)
  {
    hide DepthAllows, CapsAllow, MeetsMinima, PositionOf;
    units :| LargestFeasible(s, units) && MeetsMinima(s, units) && IsPositionFor(s, units, p);
  }

  lemma StepsUpTo(u: int, v: int, step: real)
    requires step > 0.0 && u <= v
    ensures Steps(u, step) <= Steps(v, step)
  {
    ScaleLe(u as real, v as real, step);
  }

  /** The loss on an incomplete position is the shock on one leg, and no less than the shock on the other. */
  predicate IsDearerLegShock(p: ShadowPosition, policy: Policy) {
    var l, d := p.lighterEntry.notional * policy.incompleteLegShock, p.dydxEntry.notional * policy.incompleteLegShock;
    (p.incompleteLegLossUsd == l || p.incompleteLegLossUsd == d) && p.incompleteLegLossUsd >= l
      && p.incompleteLegLossUsd >= d
  }

  lemma PositionFigures(s: Setup, units: int, p: ShadowPosition)
    requires ValidSetup(s) && s.policy.incompleteLegShock >= 0.0 && IsPositionFor(s, units, p)
    ensures CommonBaseStep(s.lighterInstrument, s.dydxInstrument).Some? && Feasible(s, units)
    ensures p.baseQuantity == Steps(units, CommonBaseStep(s.lighterInstrument, s.dydxInstrument).value)
    ensures p.direction == s.direction && Fillable(s, p.baseQuantity)
    ensures p.lighterEntry.notional == LighterEntryUsd(s, p.baseQuantity)
    ensures p.dydxEntry.notional == DydxEntryUsd(s, p.baseQuantity)
    ensures p.assignedCapitalUsd == p.lighterEntry.notional + p.dydxEntry.notional
    ensures p.unusedCashUsd == s.policy.accountEquityUsd - p.lighterEntry.notional - p.dydxEntry.notional
    ensures IsDearerLegShock(p, s.policy)
  {
    var base := Steps(units, CommonBaseStep(s.lighterInstrument, s.dydxInstrument).value);
    assert Feasible(s, units) && DepthAllows(s, base) && p == PositionOf(s, base);
    hide ValidSetup, IsPositionFor, Feasible, PositionOf, DepthAllows, CommonBaseStep, Steps;
    FillableIs(s, base);
    PositionParts(s, base);
    hide LighterEntryUsd, DydxEntryUsd, LighterNotional, DydxNotional, Fillable;
    DearerLeg(p, s.policy);
  }

  lemma DearerLeg(p: ShadowPosition, policy: Policy)
    requires policy.incompleteLegShock >= 0.0
    requires p.incompleteLegLossUsd == IncompleteLoss(p.lighterEntry.notional, p.dydxEntry.notional, policy)
    ensures IsDearerLegShock(p, policy)
  {
    LimitsAre(policy, p.lighterEntry.notional, p.dydxEntry.notional);
    hide IncompleteLoss, WithinLimits;
  }

  lemma PositionParts(s: Setup, base: real)
    requires ValidSetup(s) && base > 0.0
    ensures var p, l, d := PositionOf(s, base), LighterNotional(s, base), DydxNotional(s, base);
      && p.direction == s.direction && p.baseQuantity == base
      && p.lighterEntry.notional == l && p.dydxEntry.notional == d
      && p.assignedCapitalUsd == l + d && p.unusedCashUsd == s.policy.accountEquityUsd - (l + d)
      && p.incompleteLegLossUsd == IncompleteLoss(l, d, s.policy)
  {
    hide LighterNotional, DydxNotional, IncompleteLoss, BaseAverage, LighterLeg, DydxLeg;
  }

  /** Depth bounds the feasible numbers of steps. */
  lemma FeasibleBounded(s: Setup) returns (bound: int)
    requires ValidSetup(s)
    ensures forall v :: Feasible(s, v) ==> v <= bound
  {
    var maximum := CompatibleBaseQuantity(s.lighterInstrument, s.dydxInstrument, MaximumBase(s));
    bound := 0;
    assert ValidInstrument(s.lighterInstrument) && ValidInstrument(s.dydxInstrument);
    if CommonBaseStep(s.lighterInstrument, s.dydxInstrument).Some? {
      StepPositive(s);
    }
    hide *;
    if maximum.None? || CommonBaseStep(s.lighterInstrument, s.dydxInstrument).None? {
      NothingFits(s);
    } else {
      bound := (maximum.value / CommonBaseStep(s.lighterInstrument, s.dydxInstrument).value).Floor;
      MaximumUnits(s, maximum.value, bound);
    }
  }

  lemma {:induction false} LargestExists(s: Setup, u: int, bound: int) returns (v: int)
    requires ValidSetup(s) && Feasible(s, u) && forall w :: Feasible(s, w) ==> w <= bound
    ensures LargestFeasible(s, v)
    decreases bound - u
  {
    hide Feasible, ValidSetup;
    if w :| Feasible(s, w) && w > u {
      v := LargestExists(s, w, bound);
    } else {
      v := u;
    }
  }

  lemma SizedExists(s: Setup, units: int)
    requires ValidSetup(s) && Feasible(s, units) && MeetsMinima(s, units)
    ensures Sized(s).Some?
  {
    var bound := FeasibleBounded(s);
    var largest := LargestExists(s, units, bound);
    MinimaAtLargest(s, largest);
    var step := CommonBaseStep(s.lighterInstrument, s.dydxInstrument).value;
    StepPositive(s);
    UnitsPositive(largest, step);
    hide CommonBaseStep, Steps, DepthAllows, CapsAllow, MeetsMinima, PositionOf;
    var p := PositionOf(s, Steps(largest, step));
    assert IsPositionFor(s, largest, p);
    assert IsBestPosition(s, p);
  }

  /** A position is sized exactly when some tradable quantity reaches both minimum notionals. */
  lemma SizedIffTradable(s: Setup)
    requires ValidSetup(s)
    ensures Sized(s).Some? <==> exists q :: Tradable(s, q) && AboveMinima(s, q)
  {
    if Sized(s).Some? {
      LargestTradable(s, Sized(s).value);
    }
    hide Tradable, AboveMinima, Feasible, MeetsMinima;
    if exists q :: Tradable(s, q) && AboveMinima(s, q) {
      var q :| Tradable(s, q) && AboveMinima(s, q);
      var units := TradableSteps(s, q);
      FeasibleIsTradable(s, units);
      SizedExists(s, units);
    }
  }
}
