/** The largest two-leg position within depth, capital and incomplete-leg limits. */
module Sizing {
  import opened Numbers
  import opened OrderBook
  import opened OrderStatistics
  import opened QuantitySteps
  import opened EconomicsPolicy

  datatype Setup = Setup(
    policy: Policy,
    direction: FundingDirection,
    lighterBook: Book,
    dydxBook: Book,
    lighterInstrument: Instrument,
    dydxInstrument: Instrument)

  datatype ShadowPosition = ShadowPosition(
    direction: FundingDirection,
    baseQuantity: real,
    lighterEntry: WalkedQuote,
    dydxEntry: WalkedQuote,
    lighterMultiplier: real,
    dydxMultiplier: real,
    assignedCapitalUsd: real,
    unusedCashUsd: real,
    incompleteLegLossUsd: real)

  /** Validated records, and the two policy numbers the walk and the cap rely on. */
  ghost predicate ValidSetup(s: Setup) {
    && ValidBook(s.lighterBook) && ValidBook(s.dydxBook)
    && ValidInstrument(s.lighterInstrument) && ValidInstrument(s.dydxInstrument)
    && s.policy.forcedExitDepthMultiplier > 0.0
    && s.policy.incompleteLegShock >= 0.0
  }

  /** One venue's side of the position. */
  datatype Leg = Leg(entry: seq<BookLevel>, exit: seq<BookLevel>, multiplier: real)

  ghost predicate ValidLeg(leg: Leg) {
    PositiveLevels(leg.entry) && PositiveLevels(leg.exit) && leg.multiplier > 0.0
  }

  function LighterLeg(s: Setup): Leg {
    match s.direction
    case ShortLighterLongDydx => Leg(Top(s.lighterBook.bids), Top(s.lighterBook.asks), Multiplier(s.lighterInstrument))
    case ShortDydxLongLighter => Leg(Top(s.lighterBook.asks), Top(s.lighterBook.bids), Multiplier(s.lighterInstrument))
  }

  function DydxLeg(s: Setup): Leg {
    match s.direction
    case ShortLighterLongDydx => Leg(Top(s.dydxBook.asks), Top(s.dydxBook.bids), Multiplier(s.dydxInstrument))
    case ShortDydxLongLighter => Leg(Top(s.dydxBook.bids), Top(s.dydxBook.asks), Multiplier(s.dydxInstrument))
  }

  lemma LegsValid(s: Setup)
    requires ValidSetup(s)
    ensures ValidLeg(LighterLeg(s)) && ValidLeg(DydxLeg(s))
  {
    ValueSign(s.lighterInstrument.contractMultiplier);
    ValueSign(s.dydxInstrument.contractMultiplier);
  }

  // ---------------------------------------------------------------- one leg

  /** The book holds `base`, counted in contracts of `multiplier` base units. */
  predicate Fits(levels: seq<BookLevel>, base: real, multiplier: real)
    requires multiplier > 0.0
  {
    base / multiplier <= AvailableQuantity(levels)
  }

  function BaseNotional(levels: seq<BookLevel>, base: real, multiplier: real): real
    requires multiplier > 0.0
  {
    Cost(levels, base / multiplier) * multiplier
  }

  function BaseAverage(levels: seq<BookLevel>, base: real, multiplier: real): real
    requires multiplier > 0.0 && base / multiplier > 0.0
  {
    Average(levels, base / multiplier)
  }

  lemma PerContract(base: real, base': real, multiplier: real)
    requires multiplier > 0.0
    ensures base > 0.0 ==> base / multiplier > 0.0
    ensures base < base' ==> base / multiplier < base' / multiplier
    ensures base == base / multiplier * multiplier
  {
    var x, x' := base / multiplier, base' / multiplier;
    QuotientTimes(base, multiplier);
    QuotientTimes(base', multiplier);
    if x <= 0.0 {
      ScaleLe(x, 0.0, multiplier);
    }
    if x' <= x {
      ScaleLe(x', x, multiplier);
    }
  }

  /** A larger leg that fits leaves room for a smaller one, which costs strictly less. */
  lemma LegShrinks(levels: seq<BookLevel>, base: real, base': real, multiplier: real)
    requires PositiveLevels(levels) && multiplier > 0.0
    requires 0.0 < base < base' && Fits(levels, base', multiplier)
    ensures Fits(levels, base, multiplier)
    ensures 0.0 < BaseNotional(levels, base, multiplier) < BaseNotional(levels, base', multiplier)
  {
    PerContract(base, base', multiplier);
    var q, q' := base / multiplier, base' / multiplier;
    CostStrictlyIncreasing(levels, q, q');
    NotionalPositive(levels, base, multiplier);
    ProductPositive(Cost(levels, q') - Cost(levels, q), multiplier);
  }

  lemma NotionalPositive(levels: seq<BookLevel>, base: real, multiplier: real)
    requires PositiveLevels(levels) && multiplier > 0.0
    requires 0.0 < base && Fits(levels, base, multiplier)
    ensures 0.0 < BaseNotional(levels, base, multiplier)
    ensures base / multiplier > 0.0
  {
    PerContract(base, base, multiplier);
    CostStrictlyIncreasing(levels, 0.0, base / multiplier);
    assert Cost(levels, 0.0) == 0.0;
    ProductPositive(Cost(levels, base / multiplier), multiplier);
  }

  /** A walk of `base` base units, quoted in base units. */
  function BaseQuote(levels: seq<BookLevel>, base: real, multiplier: real): WalkResult
    requires multiplier > 0.0
  {
    if base <= 0.0 then InvalidQuantity
    else if !Fits(levels, base, multiplier) then InsufficientDepth
    else
      PerContract(base, base, multiplier);
      Walked(WalkedQuote(base, BaseNotional(levels, base, multiplier), BaseAverage(levels, base, multiplier)))
  }

  /** Converts to contracts, walks the book and rescales the notional. */
  method BaseWalk(levels: seq<BookLevel>, base: real, multiplier: real) returns (r: WalkResult)
    requires PositiveLevels(levels) && multiplier > 0.0
    ensures r == BaseQuote(levels, base, multiplier)
  {
    PerContract(base, 0.0, multiplier);
    PerContract(0.0, base, multiplier);
    var walked := WalkBook(levels, base / multiplier);
    if walked.Walked? {
      r := Walked(WalkedQuote(base, walked.quote.notional * multiplier, walked.quote.weightedAveragePrice));
    } else {
      r := walked;
    }
  }

  // ---------------------------------------------------------------- both legs

  function CapitalCap(p: Policy): real {
    Min(p.accountEquityUsd * p.maximumAssignedEquityFraction, p.maximumAssignedUsd)
  }

  function IncompleteLossCap(p: Policy): real {
    p.accountEquityUsd * p.maximumIncompleteLossEquityFraction
  }

  /** The quantity a forced exit at a depth multiple must be able to trade. */
  function Stressed(base: real, depthMultiplier: real): real {
    base * depthMultiplier
  }

  function IncompleteLoss(lighter: real, dydx: real, p: Policy): real {
    Max(lighter, dydx) * p.incompleteLegShock
  }

  ghost predicate DepthAllows(s: Setup, base: real)
    requires ValidSetup(s)
  {
    LegsValid(s);
    var l, d, stressed := LighterLeg(s), DydxLeg(s), Stressed(base, s.policy.forcedExitDepthMultiplier);
    && Fits(l.entry, base, l.multiplier) && Fits(d.entry, base, d.multiplier)
    && Fits(l.exit, stressed, l.multiplier) && Fits(d.exit, stressed, d.multiplier)
  }

  function LighterNotional(s: Setup, base: real): real
    requires ValidSetup(s)
  {
    LegsValid(s);
    BaseNotional(LighterLeg(s).entry, base, LighterLeg(s).multiplier)
  }

  function DydxNotional(s: Setup, base: real): real
    requires ValidSetup(s)
  {
    LegsValid(s);
    BaseNotional(DydxLeg(s).entry, base, DydxLeg(s).multiplier)
  }

  ghost predicate CapsAllow(s: Setup, base: real)
    requires ValidSetup(s)
  {
    var l, d := LighterNotional(s, base), DydxNotional(s, base);
    && l + d <= CapitalCap(s.policy)
    && IncompleteLoss(l, d, s.policy) <= IncompleteLossCap(s.policy)
  }

  /** A positive whole number of common steps that depth and both caps allow. */
  ghost predicate Feasible(s: Setup, units: int)
    requires ValidSetup(s)
  {
    && units > 0 && CommonBaseStep(s.lighterInstrument, s.dydxInstrument).Some?
    && var base := Steps(units, CommonBaseStep(s.lighterInstrument, s.dydxInstrument).value);
    && DepthAllows(s, base) && CapsAllow(s, base)
  }

  ghost predicate MeetsMinima(s: Setup, units: int)
    requires ValidSetup(s) && CommonBaseStep(s.lighterInstrument, s.dydxInstrument).Some?
  {
    var base := Steps(units, CommonBaseStep(s.lighterInstrument, s.dydxInstrument).value);
    && s.lighterInstrument.minNotional.Some? && s.dydxInstrument.minNotional.Some?
    && LighterNotional(s, base) >= s.lighterInstrument.minNotional.value
    && DydxNotional(s, base) >= s.dydxInstrument.minNotional.value
  }

  ghost predicate LargestFeasible(s: Setup, units: int)
    requires ValidSetup(s)
  {
    Feasible(s, units) && forall v :: Feasible(s, v) ==> v <= units
  }

  lemma StepPositive(s: Setup)
    requires ValidSetup(s) && CommonBaseStep(s.lighterInstrument, s.dydxInstrument).Some?
    ensures CommonBaseStep(s.lighterInstrument, s.dydxInstrument).value > 0.0
  {
    CommonStepMeaning(s.lighterInstrument, s.dydxInstrument);
  }

  lemma StepsOrdered(u: int, v: int, step: real)
    requires step > 0.0 && 0 < u <= v
    ensures 0.0 < Steps(u, step)
    ensures u < v ==> Steps(u, step) < Steps(v, step)
  {
    ProductPositive(u as real, step);
    if u < v {
      ProductPositive((v - u) as real, step);
      assert (v - u) as real * step == Steps(v, step) - Steps(u, step);
    }
  }

  /** Smaller positions stay inside every limit and have strictly smaller notionals. */
  lemma PositionShrinks(s: Setup, base: real, base': real)
    requires ValidSetup(s) && 0.0 < base < base' && DepthAllows(s, base')
    ensures DepthAllows(s, base)
    ensures 0.0 < LighterNotional(s, base) < LighterNotional(s, base')
    ensures 0.0 < DydxNotional(s, base) < DydxNotional(s, base')
    ensures CapsAllow(s, base') ==> CapsAllow(s, base)
  {
    LegsValid(s);
    var l, d, p, m := LighterLeg(s), DydxLeg(s), s.policy, s.policy.forcedExitDepthMultiplier;
    StressedGrows(base, base', m, m);
    hide LighterLeg, DydxLeg, BaseNotional, Fits, Stressed, IncompleteLoss;
    LegShrinks(l.entry, base, base', l.multiplier);
    LegShrinks(d.entry, base, base', d.multiplier);
    LegShrinks(l.exit, Stressed(base, m), Stressed(base', m), l.multiplier);
    LegShrinks(d.exit, Stressed(base, m), Stressed(base', m), d.multiplier);
    IncompleteLossGrows(LighterNotional(s, base), DydxNotional(s, base),
                        LighterNotional(s, base'), DydxNotional(s, base'), p);
  }

  lemma StressedGrows(base: real, base': real, m: real, m': real)
    requires 0.0 < base <= base' && 0.0 < m <= m'
    ensures 0.0 < Stressed(base, m) <= Stressed(base', m')
    ensures base < base' ==> Stressed(base, m) < Stressed(base', m')
    ensures m >= 1.0 ==> base <= Stressed(base, m)
  {
    ProductPositive(base, m);
    ScaleLe(base, base', m);
    ScaleLe(m, m', base');
    var near, middle, far := base * m, base' * m, base' * m';
    assert 0.0 < near <= middle <= far;
    if base < base' {
      GapPositive(base, base', m);
    }
    if m >= 1.0 {
      ScaleLe(1.0, m, base);
    }
  }

  lemma GapPositive(a: real, b: real, m: real)
    requires a < b && m > 0.0
    ensures a * m < b * m
  {
    ProductPositive(b - a, m);
    assert b * m - a * m == (b - a) * m;
  }

  lemma IncompleteLossGrows(l: real, d: real, l': real, d': real, p: Policy)
    requires l <= l' && d <= d' && p.incompleteLegShock >= 0.0
    ensures IncompleteLoss(l, d, p) <= IncompleteLoss(l', d', p)
  {
    ScaleLe(Max(l, d), Max(l', d'), p.incompleteLegShock);
  }

  /** Feasibility is downward closed, and notionals grow with the number of steps. */
  lemma FeasibleBelow(s: Setup, u: int, v: int)
    requires ValidSetup(s) && Feasible(s, v) && 0 < u <= v
    ensures Feasible(s, u)
    ensures MeetsMinima(s, u) ==> MeetsMinima(s, v)
  {
    var step := CommonBaseStep(s.lighterInstrument, s.dydxInstrument).value;
    StepPositive(s);
    StepsOrdered(u, v, step);
    hide Steps, CommonBaseStep, DepthAllows, CapsAllow, LighterNotional, DydxNotional;
    if u < v {
      PositionShrinks(s, Steps(u, step), Steps(v, step));
    }
  }

  function MaximumBase(s: Setup): real {
    Min(EntryDepth(LighterLeg(s)), EntryDepth(DydxLeg(s)))
  }

  function EntryDepth(leg: Leg): real {
    AvailableQuantity(leg.entry) * leg.multiplier
  }

  lemma DepthBoundsBase(s: Setup, base: real)
    requires ValidSetup(s) && DepthAllows(s, base)
    ensures base <= MaximumBase(s)
  {
    LegsValid(s);
    hide LighterLeg, DydxLeg, Fits, EntryDepth;
    FitsBound(LighterLeg(s), base);
    FitsBound(DydxLeg(s), base);
  }

  lemma FitsBound(leg: Leg, base: real)
    requires leg.multiplier > 0.0 && Fits(leg.entry, base, leg.multiplier)
    ensures base <= EntryDepth(leg)
  {
    PerContract(base, base, leg.multiplier);
    hide AvailableQuantity;
    ScaleLe(base / leg.multiplier, AvailableQuantity(leg.entry), leg.multiplier);
  }

  /** The search's upper end is the number of whole steps in the entry depth. */
  lemma MaximumUnits(s: Setup, maximum: real, units: int)
    requires ValidSetup(s)
    requires var c := CompatibleBaseQuantity(s.lighterInstrument, s.dydxInstrument, MaximumBase(s));
      c.Some? && c.value == maximum
    requires CommonBaseStep(s.lighterInstrument, s.dydxInstrument).Some?
      && CommonBaseStep(s.lighterInstrument, s.dydxInstrument).value > 0.0
      && units == (maximum / CommonBaseStep(s.lighterInstrument, s.dydxInstrument).value).Floor
    ensures forall v :: Feasible(s, v) ==> v <= units
  {
    var step := CommonBaseStep(s.lighterInstrument, s.dydxInstrument).value;
    var n := (MaximumBase(s) / step).Floor;
    assert maximum == Steps(n, step);
    QuotientOfSteps(n, step);
    hide Steps, MaximumBase, CommonBaseStep, CompatibleBaseQuantity, DepthAllows, CapsAllow;
    FloorBounds(MaximumBase(s), step, n);
    forall v | Feasible(s, v) ensures v <= units {
      DepthBoundsBase(s, Steps(v, step));
      StepsBound(v, n, step, MaximumBase(s));
    }
  }

  lemma StepsBound(v: int, n: int, step: real, maximum: real)
    requires step > 0.0 && Steps(v, step) <= maximum < Steps(n + 1, step)
    ensures v <= n
  {
    if v > n {
      ScaleLe((n + 1) as real, v as real, step);
    }
  }

  lemma QuotientOfSteps(n: int, step: real)
    requires step > 0.0
    ensures (Steps(n, step) / step).Floor == n
  {
    QuotientTimes(Steps(n, step), step);
    var x := Steps(n, step) / step;
    assert (x - n as real) * step == 0.0;
    ZeroFactor(x - n as real, step);
  }

  function PositionOf(s: Setup, base: real): ShadowPosition
    requires ValidSetup(s) && base > 0.0
  {
    LegsValid(s);
    var l, d := LighterLeg(s), DydxLeg(s);
    PerContract(base, base, l.multiplier);
    PerContract(base, base, d.multiplier);
    var ln, dn := LighterNotional(s, base), DydxNotional(s, base);
    ShadowPosition(
      s.direction, base,
      WalkedQuote(base, ln, BaseAverage(l.entry, base, l.multiplier)),
      WalkedQuote(base, dn, BaseAverage(d.entry, base, d.multiplier)),
      l.multiplier, d.multiplier,
      ln + dn, s.policy.accountEquityUsd - (ln + dn), IncompleteLoss(ln, dn, s.policy))
  }

  /** The position for a unit count: the common step times the count. */
  ghost predicate IsPositionFor(s: Setup, units: int, p: ShadowPosition)
    requires ValidSetup(s)
  {
    && Feasible(s, units)
    && Steps(units, CommonBaseStep(s.lighterInstrument, s.dydxInstrument).value) > 0.0
    && p == PositionOf(s, Steps(units, CommonBaseStep(s.lighterInstrument, s.dydxInstrument).value))
  }

  /** p is the position for the largest feasible unit count, and meets both minimum notionals. */
  ghost predicate IsBestPosition(s: Setup, p: ShadowPosition)
    requires ValidSetup(s)
  {
    exists units :: LargestFeasible(s, units) && MeetsMinima(s, units) && IsPositionFor(s, units, p)
  }

  lemma BestPositionUnique(s: Setup, p: ShadowPosition, p': ShadowPosition)
    requires ValidSetup(s) && IsBestPosition(s, p) && IsBestPosition(s, p')
    ensures p == p'
  {
    hide DepthAllows, CapsAllow, MeetsMinima, PositionOf;
    var u :| LargestFeasible(s, u) && MeetsMinima(s, u) && IsPositionFor(s, u, p);
    var u' :| LargestFeasible(s, u') && MeetsMinima(s, u') && IsPositionFor(s, u', p');
    assert u == u';
  }

  /** The best position, if there is one. */
  ghost function Sized(s: Setup): Option<ShadowPosition>
    requires ValidSetup(s)
  {
    if exists p :: IsBestPosition(s, p) then
      var p :| IsBestPosition(s, p);
      Some(p)
    else None
  }

  /** Both entry quotes for a unit count, or None when a walk or a cap refuses it. */
  method QuoteForUnits(s: Setup, step: real, units: int) returns (r: Option<(WalkedQuote, WalkedQuote)>)
    requires ValidSetup(s) && CommonBaseStep(s.lighterInstrument, s.dydxInstrument) == Some(step) && step > 0.0
    ensures r.Some? <==> Feasible(s, units)
    ensures r.Some? ==> var base := Steps(units, step);
      base > 0.0 && r.value == (PositionOf(s, base).lighterEntry, PositionOf(s, base).dydxEntry)
  {
    if units <= 0 {
      return None;
    }
    var base := Steps(units, step);
    StepsOrdered(units, units, step);
    LegsValid(s);
    var l, d := LighterLeg(s), DydxLeg(s);
    var stressed := Stressed(base, s.policy.forcedExitDepthMultiplier);
    StressedGrows(base, base, s.policy.forcedExitDepthMultiplier, s.policy.forcedExitDepthMultiplier);
    hide Steps, CommonBaseStep, BaseNotional, BaseAverage, Fits, LighterLeg, DydxLeg, Stressed, IncompleteLoss,
      CapitalCap, IncompleteLossCap;
    var lighter := BaseWalk(l.entry, base, l.multiplier);
    if lighter.InsufficientDepth? {
      return None;
    }
    var dydx := BaseWalk(d.entry, base, d.multiplier);
    if dydx.InsufficientDepth? {
      return None;
    }
    var lighterExit := BaseWalk(l.exit, stressed, l.multiplier);
    if lighterExit.InsufficientDepth? {
      return None;
    }
    var dydxExit := BaseWalk(d.exit, stressed, d.multiplier);
    if dydxExit.InsufficientDepth? {
      return None;
    }
    var committed := lighter.quote.notional + dydx.quote.notional;
    var incompleteLoss := IncompleteLoss(lighter.quote.notional, dydx.quote.notional, s.policy);
    if committed > CapitalCap(s.policy) || incompleteLoss > IncompleteLossCap(s.policy) {
      return None;
    }
    return Some((lighter.quote, dydx.quote));
  }

  /**
   * The binary search returns the position for the largest feasible number of steps, and
   * None exactly when no feasible number of steps meets both minimum notionals.
   */
  method SizeShadowPosition(s: Setup) returns (r: Option<ShadowPosition>)
    requires ValidSetup(s)
    ensures r.Some? ==> IsBestPosition(s, r.value)
    ensures r.None? <==> !exists units :: Feasible(s, units) && MeetsMinima(s, units)
    ensures r == Sized(s)
  {
    var maximumCompatible := CompatibleBaseQuantity(s.lighterInstrument, s.dydxInstrument, MaximumBase(s));
    var commonStep := CommonBaseStep(s.lighterInstrument, s.dydxInstrument);
    if maximumCompatible.None? || commonStep.None? {
      NothingFits(s);
      return None;
    }
    var step := commonStep.value;
    StepPositive(s);
    var maximumUnits := (maximumCompatible.value / step).Floor;
    MaximumUnits(s, maximumCompatible.value, maximumUnits);
    var lower, upper := 1, maximumUnits;
    var best: Option<(int, WalkedQuote, WalkedQuote)> := None;
    while lower <= upper
      invariant lower >= 1
      invariant forall v :: Feasible(s, v) ==> v <= upper
      invariant best.None? ==> lower == 1
      invariant best.Some? ==> best.value.0 == lower - 1 && Feasible(s, lower - 1)
      invariant best.Some? ==> var base := Steps(lower - 1, step);
        base > 0.0 && (best.value.1, best.value.2) == (PositionOf(s, base).lighterEntry, PositionOf(s, base).dydxEntry)
      decreases upper - lower
    {
      var middle := (lower + upper) / 2;
      var quotes := QuoteForUnits(s, step, middle);
      if quotes.None? {
        forall v | Feasible(s, v) ensures v <= middle - 1 {
          if v >= middle {
            FeasibleBelow(s, middle, v);
          }
        }
        upper := middle - 1;
      } else {
        best := Some((middle, quotes.value.0, quotes.value.1));
        lower := middle + 1;
      }
    }
    if best.None? {
      return None;
    }
    var (units, lighter, dydx) := best.value;
    assert LargestFeasible(s, units);
    MinimaAtLargest(s, units);
    if s.lighterInstrument.minNotional.None? || s.dydxInstrument.minNotional.None? {
      return None;
    }
    if lighter.notional < s.lighterInstrument.minNotional.value || dydx.notional < s.dydxInstrument.minNotional.value {
      return None;
    }
    var committed := lighter.notional + dydx.notional;
    var incompleteLoss := IncompleteLoss(lighter.notional, dydx.notional, s.policy);
    r := Some(ShadowPosition(
      s.direction, Steps(units, step), lighter, dydx,
      Multiplier(s.lighterInstrument), Multiplier(s.dydxInstrument),
      committed, s.policy.accountEquityUsd - committed, incompleteLoss));
    assert IsPositionFor(s, units, r.value);
    SizedIs(s, r.value);
  }

  lemma SizedIs(s: Setup, p: ShadowPosition)
    requires ValidSetup(s) && IsBestPosition(s, p)
    ensures Sized(s) == Some(p)
  {
    hide IsBestPosition;
    var q := Sized(s).value;
    BestPositionUnique(s, p, q);
  }

  lemma NothingFits(s: Setup)
    requires ValidSetup(s)
    requires CompatibleBaseQuantity(s.lighterInstrument, s.dydxInstrument, MaximumBase(s)).None?
      || CommonBaseStep(s.lighterInstrument, s.dydxInstrument).None?
    ensures forall v :: !Feasible(s, v)
  {
    if v :| Feasible(s, v) {
      var step := CommonBaseStep(s.lighterInstrument, s.dydxInstrument).value;
      StepPositive(s);
      StepsOrdered(v, v, step);
      DepthBoundsBase(s, Steps(v, step));
      CompatibleIsGreatest(s.lighterInstrument, s.dydxInstrument, MaximumBase(s));
      assert WholeMultiple(Steps(v, step), step);
      AcceptedIffWholeSteps(s.lighterInstrument, s.dydxInstrument, Steps(v, step));
      assert false;
    }
  }

  lemma MinimaAtLargest(s: Setup, units: int)
    requires ValidSetup(s) && LargestFeasible(s, units)
    ensures (exists v :: Feasible(s, v) && MeetsMinima(s, v)) <==> MeetsMinima(s, units)
  {
    if v :| Feasible(s, v) && MeetsMinima(s, v) {
      FeasibleBelow(s, v, units);
    }
  }
}
