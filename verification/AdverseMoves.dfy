/** Which moves the reserves are taken over: relative premiums that rise against a position, and dearer entries. */
module AdverseMoves {
  import opened Numbers
  import opened OrderBook
  import opened OrderStatistics
  import opened QuantitySteps
  import opened EconomicsPolicy
  import opened Reserves
  import opened Sizing
  import opened ExecutionCosts
  import opened Tradability
  import opened Economics

  // ---------------------------------------------------------------- basis

  /** Lighter's premium over dYdX, relative to the middle of the two midpoints. */
  function Premium(lighter: real, dydx: real): real
    requires lighter + dydx > 0.0
  {
    (lighter - dydx) / ((lighter + dydx) / 2.0)
  }

  lemma MidpointPositive(book: Book)
    requires ValidBook(book)
    ensures Midpoint(book) > 0.0
  {
  }

  lemma QuotientsOrdered(c: real, q: real, c': real, q': real)
    requires q > 0.0 && q' > 0.0
    ensures c / q < c' / q' <==> c * q' < c' * q
  {
    if c' * q <= c * q' {
      QuotientLe(c', q', c, q);
    } else {
      QuotientLe(c, q, c', q');
      QuotientTimes(c, q);
      QuotientTimes(c', q');
      SameQuotient(c / q, q, q', c, c');
    }
  }

  lemma SameQuotient(x: real, q: real, q': real, c: real, c': real)
    requires c == x * q
    ensures c' == x * q' ==> c * q' == c' * q
  {
  }

  /** The premium rises exactly when Lighter's midpoint grows by more, in proportion, than dYdX's. */
  lemma PremiumRises(l0: real, d0: real, l1: real, d1: real)
    requires l0 > 0.0 && d0 > 0.0 && l1 > 0.0 && d1 > 0.0
    ensures Premium(l0, d0) < Premium(l1, d1) <==> l0 * d1 < l1 * d0
    ensures Premium(l1, d1) < Premium(l0, d0) <==> l1 * d0 < l0 * d1
  {
    var a, b := (l0 + d0) / 2.0, (l1 + d1) / 2.0;
    QuotientsOrdered(l0 - d0, a, l1 - d1, b);
    QuotientsOrdered(l1 - d1, b, l0 - d0, a);
    assert (l1 - d1) * a - (l0 - d0) * b == l1 * d0 - l0 * d1;
  }

  lemma BasisIsPremium(row: PairedBooks, direction: FundingDirection)
    requires ValidBook(row.lighter) && ValidBook(row.dydx)
    ensures Midpoint(row.lighter) > 0.0 && Midpoint(row.dydx) > 0.0
    ensures FixedDirectionBasis(row, direction) == if direction == ShortLighterLongDydx
      then Premium(Midpoint(row.lighter), Midpoint(row.dydx))
      else -Premium(Midpoint(row.lighter), Midpoint(row.dydx))
  {
    MidpointPositive(row.lighter);
    MidpointPositive(row.dydx);
    var l, d := Midpoint(row.lighter), Midpoint(row.dydx);
    QuotientNegated(l - d, (l + d) / 2.0);
  }

  /**
   * A window's change is positive exactly when the midpoints moved against the position: Lighter's gaining on
   * dYdX's for a short on Lighter, and losing on it for a long. Taken in the two directions, the changes differ
   * by the move of Lighter's relative premium, and at most one of them is positive.
   */
  lemma ChangeIsAdverse(rows: seq<PairedBooks>, s: nat, w: nat)
    requires ValidPairs(rows) && w > 0 && s + w <= |rows|
    ensures var first, last := rows[s], rows[s + w - 1];
      var l0, d0 := Midpoint(first.lighter), Midpoint(first.dydx);
      var l1, d1 := Midpoint(last.lighter), Midpoint(last.dydx);
      && l0 > 0.0 && d0 > 0.0 && l1 > 0.0 && d1 > 0.0
      && (AdverseChange(rows, ShortLighterLongDydx, s, w) > 0.0 <==> l1 * d0 > l0 * d1)
      && (AdverseChange(rows, ShortDydxLongLighter, s, w) > 0.0 <==> l1 * d0 < l0 * d1)
      && AdverseChange(rows, ShortLighterLongDydx, s, w) - AdverseChange(rows, ShortDydxLongLighter, s, w)
         == Premium(l1, d1) - Premium(l0, d0)
    ensures AdverseChange(rows, ShortLighterLongDydx, s, w) >= 0.0
    ensures AdverseChange(rows, ShortDydxLongLighter, s, w) >= 0.0
  {
    var first, last := rows[s], rows[s + w - 1];
    var l0, d0, l1, d1 := Midpoint(first.lighter), Midpoint(first.dydx), Midpoint(last.lighter), Midpoint(last.dydx);
    BasisIsPremium(first, ShortLighterLongDydx);
    BasisIsPremium(last, ShortLighterLongDydx);
    BasisIsPremium(first, ShortDydxLongLighter);
    BasisIsPremium(last, ShortDydxLongLighter);
    hide FixedDirectionBasis, Premium, Midpoint, ValidBook;
    PremiumRises(l0, d0, l1, d1);
  }

  // ---------------------------------------------------------------- latency

  /** The sample between an observation and the next one, when they lie at most five seconds apart. */
  ghost predicate SampledAt(observations: seq<QuoteObservation>, k: nat, s: LatencySample) {
    && 0 < k < |observations|
    && var left, right := observations[k - 1], observations[k];
    && var elapsed, rise := right.at - left.at, right.cost - left.cost;
    && 0 < elapsed <= 5_000_000
    && s.durationMs * 1000.0 == elapsed as real
    && (if rise > 0.0 then s.adverse == rise else s.adverse == 0.0)
  }

  /** A dearer entry is an adverse move by as much, a cheaper one is none; and every close pair is sampled. */
  lemma {:induction false} SamplesMeaning(observations: seq<QuoteObservation>, n: nat)
    requires n <= |observations|
    ensures forall s :: s in SamplesBy(observations, n) <==> exists k: nat :: k < n && SampledAt(observations, k, s)
  {
    if n > 1 {
      SamplesMeaning(observations, n - 1);
      SampleIs(observations, n);
      var before, after := SamplesBy(observations, n - 1), SamplesBy(observations, n);
      hide SamplesBy, SampledAt;
      forall s ensures s in after <==> exists k: nat :: k < n && SampledAt(observations, k, s) {
        assert s in after <==> s in before || SampledAt(observations, n - 1, s);
      }
    } else {
      hide SamplesBy;
      NoSamples(observations, n);
    }
  }

  lemma NoSamples(observations: seq<QuoteObservation>, n: nat)
    requires n <= 1 && n <= |observations|
    ensures SamplesBy(observations, n) == []
    ensures forall k: nat, s :: k < n ==> !SampledAt(observations, k, s)
  {
  }

  lemma SampleIs(observations: seq<QuoteObservation>, n: nat)
    requires 1 < n <= |observations|
    ensures forall s :: s in SamplesBy(observations, n) <==>
      s in SamplesBy(observations, n - 1) || SampledAt(observations, n - 1, s)
  {
    var left, right := observations[n - 2], observations[n - 1];
    var elapsed := right.at - left.at;
    var own := if 0 < elapsed <= SAMPLE_LIMIT
      then [LatencySample(elapsed as real / 1000.0, Max(0.0, right.cost - left.cost))] else [];
    assert SamplesBy(observations, n) == SamplesBy(observations, n - 1) + own;
    hide SamplesBy;
    forall s ensures s in own <==> SampledAt(observations, n - 1, s) {
    }
  }

  /** Neither venue documents a longer latency. */
  predicate BothCovered(p: Policy, s: LatencySample) {
    s.durationMs >= p.lighterLatencyMs && s.durationMs >= p.dydxLatencyMs
  }

  /** The floor duration is the shortest sampled one that neither venue's documented latency exceeds. */
  lemma FloorCoversBothVenues(p: Policy, samples: seq<LatencySample>, d: real)
    ensures IsFloorDuration(samples, DocumentedLatency(p), d) <==>
      && d >= p.lighterLatencyMs && d >= p.dydxLatencyMs
      && (exists s :: s in samples && s.durationMs == d)
      && (forall s :: s in samples && BothCovered(p, s) ==> d <= s.durationMs)
  {
    assert forall i :: 0 <= i < |samples| ==> samples[i] in samples;
    if exists s :: s in samples && s.durationMs == d {
      var s :| s in samples && s.durationMs == d;
      var i :| 0 <= i < |samples| && samples[i] == s;
    }
  }

  // ---------------------------------------------------------------- quotes

  /** Row i's opening sides fill the quantity, at this cost: the long leg's payment less the short leg's proceeds. */
  ghost predicate QuotedAt(b: Bundle, direction: FundingDirection, q: real, i: nat, o: QuoteObservation)
    requires ValidBundle(b)
  {
    && i < |b.denseBooks| && o.at == b.denseBooks[i].at
    && var s := SetupFor(b, direction, b.denseBooks[i]);
    LegsValid(s);
    var l, d := Multiplier(s.lighterInstrument), Multiplier(s.dydxInstrument);
    && Trade(LighterSides(s).opening, q, l).Walked? && Trade(DydxSides(s).opening, q, d).Walked?
    && o.cost == match direction
       case ShortLighterLongDydx => Usd(DydxSides(s).opening, q, d) - Usd(LighterSides(s).opening, q, l)
       case ShortDydxLongLighter => Usd(LighterSides(s).opening, q, l) - Usd(DydxSides(s).opening, q, d)
  }

  lemma EntryQuoteIs(s: Setup, q: real)
    requires ValidSetup(s) && q > 0.0
    ensures Multiplier(s.lighterInstrument) > 0.0 && Multiplier(s.dydxInstrument) > 0.0
    ensures var l, d := Multiplier(s.lighterInstrument), Multiplier(s.dydxInstrument);
      var lighter, dydx := LighterSides(s).opening, DydxSides(s).opening;
      if Trade(lighter, q, l).Walked? && Trade(dydx, q, d).Walked? then
        EntryQuoteCost(s, q) == Price(if s.direction == ShortLighterLongDydx then Usd(dydx, q, d) - Usd(lighter, q, l)
                                      else Usd(lighter, q, l) - Usd(dydx, q, d))
      else EntryQuoteCost(s, q).NoDepth?
  {
    LegsValid(s);
    LegsAre(s);
    TradeIs(LighterSides(s).opening, q, Multiplier(s.lighterInstrument));
    TradeIs(DydxSides(s).opening, q, Multiplier(s.dydxInstrument));
    hide Trade, Usd, Fits, BaseNotional, BaseAverage, LighterSides, DydxSides, LighterLeg, DydxLeg, Top, Multiplier,
      ValidBook;
  }

  /** The quotes the latency reserve samples are those of every dense row that could fill the entry, and no others. */
  lemma {:induction false} QuotesMeaning(b: Bundle, direction: FundingDirection, q: real, n: nat)
    requires ValidBundle(b) && q > 0.0 && n <= |b.denseBooks|
    ensures forall o :: o in ExecutableQuotes(b, direction, q, n) <==>
      exists i: nat :: i < n && QuotedAt(b, direction, q, i, o)
  {
    if n > 0 {
      QuotesMeaning(b, direction, q, n - 1);
      QuoteIs(b, direction, q, n);
      hide *;
      var before, after := ExecutableQuotes(b, direction, q, n - 1), ExecutableQuotes(b, direction, q, n);
      forall o ensures o in after <==> exists i: nat :: i < n && QuotedAt(b, direction, q, i, o) {
        assert o in after <==> o in before || QuotedAt(b, direction, q, n - 1, o);
      }
    }
  }

  lemma QuoteIs(b: Bundle, direction: FundingDirection, q: real, n: nat)
    requires ValidBundle(b) && q > 0.0 && 0 < n <= |b.denseBooks|
    ensures forall o :: o in ExecutableQuotes(b, direction, q, n) <==>
      o in ExecutableQuotes(b, direction, q, n - 1) || QuotedAt(b, direction, q, n - 1, o)
  {
    var row := b.denseBooks[n - 1];
    var s := SetupFor(b, direction, row);
    EntryQuoteIs(s, q);
    var own := if EntryQuoteCost(s, q).Price? then [QuoteObservation(row.at, EntryQuoteCost(s, q).value)] else [];
    assert ExecutableQuotes(b, direction, q, n) == ExecutableQuotes(b, direction, q, n - 1) + own;
    hide ExecutableQuotes, EntryQuoteCost, Trade, Usd, LighterSides, DydxSides, Multiplier, ValidBook, ValidPolicy;
    forall o ensures o in own <==> QuotedAt(b, direction, q, n - 1, o) {
    }
  }
}
