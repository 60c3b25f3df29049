/** Replays the position hour by hour and counts the hours whose quoted net is positive. */
module QuoteCounts {
  import opened Numbers
  import opened OrderBook
  import opened OrderStatistics
  import opened EconomicsPolicy
  import opened Sizing
  import opened ExecutionCosts
  import opened Reserves
  import opened Economics

  datatype QuoteTerms = QuoteTerms(lighterRateSum: real, dydxRateSum: real, reversalRate: real, basisRate: real)

  function RowGross(p: ShadowPosition, terms: QuoteTerms): real {
    p.lighterEntry.notional * terms.lighterRateSum + p.dydxEntry.notional * terms.dydxRateSum
  }

  function RowCosts(b: Bundle, p: ShadowPosition, entry: real, forced: real, exits: (real, real),
                    terms: QuoteTerms, latency: real): QuoteCosts {
    var reference := p.assignedCapitalUsd / 2.0;
    QuoteCosts(entry, forced, TakerFeeCost(b, p, exits.0, exits.1), b.policy.operationalCostUsd, latency,
      reference * terms.reversalRate, reference * terms.basisRate)
  }

  function TotalCost(c: QuoteCosts): real {
    c.entry + c.exit + c.fee + c.operational + c.latency + c.reversal + c.basis
  }

  /** The net an hour would have quoted, or None when no position could be sized from its books. */
  ghost function RowNet(b: Bundle, direction: FundingDirection, row: PairedBooks, terms: QuoteTerms,
                        latency: real): Option<real>
    requires ValidBundle(b) && ValidBook(row.lighter) && ValidBook(row.dydx)
  {
    match Sized(SetupFor(b, direction, row))
    case None => None
    case Some(p) =>
      SizedExits(b, direction, row, p);
      var forced := ForcedExitCost(p, row.lighter, row.dydx, b.policy.forcedExitDepthMultiplier).value;
      var exits := ExitNotionals(p, row.lighter, row.dydx).value;
      Some(RowGross(p, terms)
           - TotalCost(RowCosts(b, p, EntrySlippageCost(p, row.lighter, row.dydx), forced, exits, terms, latency)))
  }

  /** A position sized from a row can be priced on that row: the depth skip never happens. */
  lemma SizedExits(b: Bundle, direction: FundingDirection, row: PairedBooks, p: ShadowPosition)
    requires ValidBundle(b) && ValidBook(row.lighter) && ValidBook(row.dydx)
    requires Sized(SetupFor(b, direction, row)) == Some(p)
    ensures ValidPosition(p)
    ensures ForcedExitCost(p, row.lighter, row.dydx, b.policy.forcedExitDepthMultiplier).Price?
    ensures ExitNotionals(p, row.lighter, row.dydx).Price?
    ensures ExitNotionals(p, row.lighter, row.dydx).value.0 > 0.0
    ensures ExitNotionals(p, row.lighter, row.dydx).value.1 > 0.0
  {
    var s := SetupFor(b, direction, row);
    hide Feasible, MeetsMinima, PositionOf;
    assert IsBestPosition(s, p);
    var units :| LargestFeasible(s, units) && IsPositionFor(s, units, p);
    hide IsPositionFor, LargestFeasible, IsBestPosition, Sized;
    SizedNeverRunsOut(s, units, p);
  }

  /** The nets of the rows below n that could be sized, in order. */
  ghost function NetsBy(b: Bundle, direction: FundingDirection, n: nat, terms: QuoteTerms, latency: real): seq<real>
    requires ValidBundle(b) && n <= |b.hourlyBooks|
  {
    if n == 0 then []
    else
      var net := RowNet(b, direction, b.hourlyBooks[n - 1], terms, latency);
      NetsBy(b, direction, n - 1, terms, latency) + (if net.Some? then [net.value] else [])
  }

  function CountPositive(values: seq<real>): nat {
    if values == [] then 0
    else CountPositive(values[..|values| - 1]) + (if values[|values| - 1] > 0.0 then 1 else 0)
  }

  /** What every cost of a row being nonnegative rests on. */
  predicate ChargeableTerms(b: Bundle, terms: QuoteTerms, latency: real) {
    && b.lighterTakerRate >= 0.0 && b.dydxTakerRate >= 0.0
    && terms.reversalRate >= 0.0 && terms.basisRate >= 0.0 && latency >= 0.0
  }

  lemma FeeNonnegative(b: Bundle, p: ShadowPosition, lighterExit: real, dydxExit: real)
    requires b.lighterTakerRate >= 0.0 && b.dydxTakerRate >= 0.0
    requires p.lighterEntry.notional + lighterExit >= 0.0 && p.dydxEntry.notional + dydxExit >= 0.0
    ensures TakerFeeCost(b, p, lighterExit, dydxExit) >= 0.0
  {
    ScaleLe(0.0, b.lighterTakerRate, p.lighterEntry.notional + lighterExit);
    ScaleLe(0.0, b.dydxTakerRate, p.dydxEntry.notional + dydxExit);
  }

  lemma BestPositionFacts(s: Setup, p: ShadowPosition)
    requires ValidSetup(s) && IsBestPosition(s, p)
    ensures ValidPosition(p) && p.direction == s.direction
    ensures p.lighterEntry.notional > 0.0 && p.dydxEntry.notional > 0.0
    ensures p.assignedCapitalUsd == p.lighterEntry.notional + p.dydxEntry.notional
    ensures p.unusedCashUsd == s.policy.accountEquityUsd - p.assignedCapitalUsd
    ensures p.incompleteLegLossUsd == IncompleteLoss(p.lighterEntry.notional, p.dydxEntry.notional, s.policy)
    ensures p.assignedCapitalUsd <= CapitalCap(s.policy)
    ensures p.incompleteLegLossUsd <= IncompleteLossCap(s.policy)
  {
    hide Feasible, MeetsMinima;
    var units :| LargestFeasible(s, units) && IsPositionFor(s, units, p);
    SizedPosition(s, units, p);
    var l, d := LighterLeg(s), DydxLeg(s);
    hide LargestFeasible, IsBestPosition, Fits, BaseNotional, IncompleteLoss, CapitalCap, IncompleteLossCap,
      LighterLeg, DydxLeg;
    NotionalPositive(l.entry, p.baseQuantity, l.multiplier);
    NotionalPositive(d.entry, p.baseQuantity, d.multiplier);
  }

  lemma RowCostsNonnegative(b: Bundle, direction: FundingDirection, row: PairedBooks, p: ShadowPosition,
                            terms: QuoteTerms, latency: real)
    requires ValidBundle(b) && ValidBook(row.lighter) && ValidBook(row.dydx)
    requires Sized(SetupFor(b, direction, row)) == Some(p) && ChargeableTerms(b, terms, latency)
    ensures ValidPosition(p)
    ensures ForcedExitCost(p, row.lighter, row.dydx, b.policy.forcedExitDepthMultiplier).Price?
    ensures ExitNotionals(p, row.lighter, row.dydx).Price?
    ensures var c := RowCosts(b, p, EntrySlippageCost(p, row.lighter, row.dydx),
        ForcedExitCost(p, row.lighter, row.dydx, b.policy.forcedExitDepthMultiplier).value,
        ExitNotionals(p, row.lighter, row.dydx).value, terms, latency);
      QuotedNet(RowGross(p, terms), c) == Ok(RowGross(p, terms) - TotalCost(c))
  {
    var s := SetupFor(b, direction, row);
    SizedExits(b, direction, row, p);
    BestPositionFacts(s, p);
    hide Sized, ExitNotionals, IsBestPosition, ValidSetup, ValidBook, SetupFor;
    EntryNonnegative(p, row.lighter, row.dydx);
    ForcedNonnegative(p, row.lighter, row.dydx, b.policy.forcedExitDepthMultiplier);
    hide *;
    CostsAccepted(b, p, EntrySlippageCost(p, row.lighter, row.dydx),
      ForcedExitCost(p, row.lighter, row.dydx, b.policy.forcedExitDepthMultiplier).value,
      ExitNotionals(p, row.lighter, row.dydx).value, terms, latency);
  }

  lemma CostsAccepted(b: Bundle, p: ShadowPosition, entry: real, forced: real, exits: (real, real),
                      terms: QuoteTerms, latency: real)
    requires ChargeableTerms(b, terms, latency) && b.policy.operationalCostUsd >= 0.0
    requires p.lighterEntry.notional > 0.0 && p.dydxEntry.notional > 0.0 && p.assignedCapitalUsd > 0.0
    requires entry >= 0.0 && forced >= 0.0 && exits.0 > 0.0 && exits.1 > 0.0
    ensures var c := RowCosts(b, p, entry, forced, exits, terms, latency);
      QuotedNet(RowGross(p, terms), c) == Ok(RowGross(p, terms) - TotalCost(c))
  {
    hide RowGross, TakerFeeCost;
    FeeNonnegative(b, p, exits.0, exits.1);
    ScaleLe(0.0, terms.reversalRate, p.assignedCapitalUsd / 2.0);
    ScaleLe(0.0, terms.basisRate, p.assignedCapitalUsd / 2.0);
  }

  lemma EntryNonnegative(p: ShadowPosition, lighter: Book, dydx: Book)
    requires ValidPosition(p) && ValidBook(lighter) && ValidBook(dydx)
    ensures EntrySlippageCost(p, lighter, dydx) >= 0.0
  {
    ClampedOrdered(p.baseQuantity, EntryAdversity(p, lighter, dydx), EntryAdversity(p, lighter, dydx));
  }

  lemma ForcedNonnegative(p: ShadowPosition, lighter: Book, dydx: Book, m: real)
    requires ValidPosition(p) && ForcedExitCost(p, lighter, dydx, m).Price?
    ensures ForcedExitCost(p, lighter, dydx, m).value >= 0.0
  {
    var q := ExitQuotes(p, lighter, dydx, Stressed(p.baseQuantity, m)).value;
    var a := ExitAdversity(p, q.0.weightedAveragePrice, q.1.weightedAveragePrice);
    hide ExitQuotes, ExitAdversity, ClampedCost;
    ClampedOrdered(p.baseQuantity, a, a);
  }

  datatype RowQuote = Skipped | Quoted(normal: real, stress: real) | Refused

  /** One hour: size afresh, price entry, forced exit and fees, and net them twice. */
  method QuoteRow(b: Bundle, direction: FundingDirection, row: PairedBooks, terms: QuoteTerms, latency: real)
    returns (r: RowQuote)
    requires ValidBundle(b) && ValidBook(row.lighter) && ValidBook(row.dydx) && ChargeableTerms(b, terms, latency)
    ensures !r.Refused?
    ensures r.Skipped? <==> RowNet(b, direction, row, terms, latency).None?
    ensures r.Quoted? ==> RowNet(b, direction, row, terms, 0.0) == Some(r.normal)
    ensures r.Quoted? ==> RowNet(b, direction, row, terms, latency) == Some(r.stress)
  {
    var position := SizeShadowPosition(SetupFor(b, direction, row));
    hide ValidSetup, ValidBook, SetupFor, IsBestPosition, Feasible, MeetsMinima, Sized;
    if position.None? {
      return Skipped;
    }
    var p := position.value;
    RowCostsNonnegative(b, direction, row, p, terms, 0.0);
    RowCostsNonnegative(b, direction, row, p, terms, latency);
    hide EntrySlippageCost, ForcedExitCost, ExitNotionals, QuotedNet, RowGross, RowCosts, TotalCost, ValidBundle;
    var entry := EntrySlippageCost(p, row.lighter, row.dydx);
    var forced := ForcedExitCost(p, row.lighter, row.dydx, b.policy.forcedExitDepthMultiplier);
    var exits := ExitNotionals(p, row.lighter, row.dydx);
    if forced.NoDepth? || exits.NoDepth? {
      return Skipped;
    }
    var normal := QuotedNet(RowGross(p, terms), RowCosts(b, p, entry, forced.value, exits.value, terms, 0.0));
    var stress := QuotedNet(RowGross(p, terms), RowCosts(b, p, entry, forced.value, exits.value, terms, latency));
    if normal.ValueError? || stress.ValueError? {
      return Refused;
    }
    return Quoted(normal.value, stress.value);
  }

  /** Counts the hours with positive net, without and with the latency reserve. */
  method CountQuotes(b: Bundle, direction: FundingDirection, terms: QuoteTerms, latency: real)
    returns (normalPositive: nat, stressPositive: nat)
    requires ValidBundle(b) && ChargeableTerms(b, terms, latency)
    ensures normalPositive == CountPositive(NetsBy(b, direction, |b.hourlyBooks|, terms, 0.0))
    ensures stressPositive == CountPositive(NetsBy(b, direction, |b.hourlyBooks|, terms, latency))
  {
    hide ValidBook, ValidPolicy, RowNet, CountPositive, ChargeableTerms;
    var normal: seq<real>, stress: seq<real> := [], [];
    for n := 0 to |b.hourlyBooks|
      invariant normal == NetsBy(b, direction, n, terms, 0.0)
      invariant stress == NetsBy(b, direction, n, terms, latency)
    {
      var quote := QuoteRow(b, direction, b.hourlyBooks[n], terms, latency);
      RowNetsTogether(b, direction, b.hourlyBooks[n], terms, 0.0, latency);
      if quote.Quoted? {
        normal, stress := normal + [quote.normal], stress + [quote.stress];
      } else {
        assert normal + [] == normal && stress + [] == stress;
      }
    }
    normalPositive, stressPositive := CountPositive(normal), CountPositive(stress);
  }

  /** Whether an hour is quoted does not depend on the latency reserve; its net falls by it. */
  lemma RowNetsTogether(b: Bundle, direction: FundingDirection, row: PairedBooks, terms: QuoteTerms, x: real, y: real)
    requires ValidBundle(b) && ValidBook(row.lighter) && ValidBook(row.dydx)
    ensures RowNet(b, direction, row, terms, x).None? <==> RowNet(b, direction, row, terms, y).None?
    ensures RowNet(b, direction, row, terms, x).Some? ==>
      RowNet(b, direction, row, terms, x).value - RowNet(b, direction, row, terms, y).value == y - x
  {
    hide ValidBundle, ValidBook, Sized, EntrySlippageCost, ForcedExitCost, ExitNotionals, TakerFeeCost, RowGross;
  }

  /** The latency reserve can only lose positive hours. */
  lemma {:induction false} StressNeverExceedsNormal(b: Bundle, direction: FundingDirection, n: nat, terms: QuoteTerms,
                                                    latency: real)
    requires ValidBundle(b) && n <= |b.hourlyBooks| && latency >= 0.0
    ensures |NetsBy(b, direction, n, terms, latency)| == |NetsBy(b, direction, n, terms, 0.0)|
    ensures CountPositive(NetsBy(b, direction, n, terms, latency)) <= CountPositive(NetsBy(b, direction, n, terms, 0.0))
  {
    hide ValidBook, ValidPolicy, RowNet;
    if n > 0 {
      var row := b.hourlyBooks[n - 1];
      StressNeverExceedsNormal(b, direction, n - 1, terms, latency);
      RowNetsTogether(b, direction, row, terms, 0.0, latency);
      var x, y := NetsBy(b, direction, n - 1, terms, 0.0), NetsBy(b, direction, n - 1, terms, latency);
      if RowNet(b, direction, row, terms, 0.0).Some? {
        CountAppend(x, RowNet(b, direction, row, terms, 0.0).value);
        CountAppend(y, RowNet(b, direction, row, terms, latency).value);
      } else {
        assert x + [] == x && y + [] == y;
      }
    }
  }

  lemma CountAppend(s: seq<real>, x: real)
    ensures CountPositive(s + [x]) == CountPositive(s) + (if x > 0.0 then 1 else 0)
  {
    assert (s + [x])[..|s|] == s;
  }

  lemma {:induction false} CountAtMostAppend(s: seq<real>, x: real, y: real)
    ensures CountAtMost(s + [x], y) == CountAtMost(s, y) + (if x <= y then 1 else 0)
  {
    if s != [] {
      assert (s + [x])[1..] == s[1..] + [x];
      CountAtMostAppend(s[1..], x, y);
    }
  }

  /** A net of exactly zero is not positive: the count is of the values above zero. */
  lemma {:induction false} CountIsAboveZero(values: seq<real>)
    ensures CountPositive(values) == |values| - CountAtMost(values, 0.0)
  {
    if values != [] {
      var init, last := values[..|values| - 1], values[|values| - 1];
      assert values == init + [last];
      CountIsAboveZero(init);
      CountAtMostAppend(init, last, 0.0);
    }
  }
}
