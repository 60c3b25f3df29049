/** When a sized position can be evaluated, and which piece of evidence is missing when it cannot. */
module Readiness {
  import opened OrderStatistics
  import opened Sizing
  import opened HourlyWindows
  import opened FundingSeries
  import opened Cashflows
  import opened Reserves
  import opened EconomicsModel
  import opened Economics
  import opened Evaluator

  /** Inputs on which no calculator raises: data to evaluate, nonnegative fees, ordered dense books. */
  ghost predicate Orderly(b: Bundle) {
    && Pairs(b) != []
    && b.lighterTakerRate >= 0.0 && b.dydxTakerRate >= 0.0
    && StrictlyOrdered(PairTimes(b.denseBooks))
  }

  function EvaluationTimes(b: Bundle): seq<int> {
    TimesOf(Pairs(b), (pair: FundingPair) => pair.at)
  }

  /** The series is in order and holds an unbroken run of w hourly rows. */
  ghost predicate HasHourlyRun(times: seq<int>, w: nat) {
    StrictlyOrdered(times) && exists s: nat :: ValidWindow(times, w, s)
  }

  /** Funding and books both hold an unbroken run of 28 days. */
  ghost predicate HistoryCovered(b: Bundle) {
    HasHourlyRun(EvaluationTimes(b), 28 * 24) && HasHourlyRun(PairTimes(b.hourlyBooks), 28 * 24)
  }

  /** Everything the evaluation of a sized position needs, in the order it is looked for. */
  ghost predicate Evaluable(b: Bundle, direction: FundingDirection, p: ShadowPosition)
    requires ValidBundle(b)
  {
    && FundingReady(b, direction)
    && HistoryCovered(b)
    && QuotesInOrder(b, direction, p.baseQuantity) && LatencySampled(b, direction, p.baseQuantity)
    && b.lighterTakerRate >= 0.0 && b.dydxTakerRate >= 0.0
  }

  /** The first piece of evidence that is missing. */
  ghost predicate Lacks(b: Bundle, direction: FundingDirection, p: ShadowPosition, reason: Reason)
    requires ValidBundle(b)
  {
    match reason
    case FundingContiguousWindowInsufficient => 0 < |Pairs(b)| < 28 * 24
    case CurrentFundingWindowInsufficient =>
      |Pairs(b)| >= 28 * 24 && Stamps(CurrentRows(b, direction)) != CurrentStamps(b)
    case EvaluationWindowInsufficient => FundingReady(b, direction) && !HistoryCovered(b)
    case LatencyExecutableSampleInsufficient =>
      && FundingReady(b, direction) && HistoryCovered(b)
      && QuotesInOrder(b, direction, p.baseQuantity) && !LatencySampled(b, direction, p.baseQuantity)
    case _ => false
  }

  /**
   * Evidence that raises instead of being reported missing: no funding pair at all, fillable quotes out
   * of order, or, with everything else in place, a negative taker fee.
   */
  ghost predicate Raises(b: Bundle, direction: FundingDirection, p: ShadowPosition)
    requires ValidBundle(b)
  {
    || Pairs(b) == []
    || (&& FundingReady(b, direction) && HistoryCovered(b)
        && (|| !QuotesInOrder(b, direction, p.baseQuantity)
            || (LatencySampled(b, direction, p.baseQuantity) && (b.lighterTakerRate < 0.0 || b.dydxTakerRate < 0.0))))
  }

  /** A sized position is evaluable, lacks evidence, or raises, and only one of the three. */
  lemma RaisesIff(b: Bundle, direction: FundingDirection, p: ShadowPosition)
    requires ValidBundle(b)
    ensures Raises(b, direction, p) <==>
      !Evaluable(b, direction, p) && forall reason :: !Lacks(b, direction, p, reason)
  {
    hide ValidBundle, Pairs, CurrentRows, CurrentStamps, HistoryCovered, QuotesInOrder, LatencySampled;
    if forall reason :: !Lacks(b, direction, p, reason) {
      assert !Lacks(b, direction, p, FundingContiguousWindowInsufficient);
      assert !Lacks(b, direction, p, CurrentFundingWindowInsufficient);
      assert !Lacks(b, direction, p, EvaluationWindowInsufficient);
      assert !Lacks(b, direction, p, LatencyExecutableSampleInsufficient);
    }
  }

  /** At most one piece of evidence is the first one missing. */
  lemma LacksUnique(b: Bundle, direction: FundingDirection, p: ShadowPosition, r1: Reason, r2: Reason)
    requires ValidBundle(b) && Lacks(b, direction, p, r1) && Lacks(b, direction, p, r2)
    ensures r1 == r2
  {
    hide ValidBundle, Pairs, CurrentRows, CurrentStamps, HistoryCovered, QuotesInOrder, LatencySampled;
  }

  /** An orderly bundle is evaluable exactly when it lacks nothing. */
  lemma OrderlyClassified(b: Bundle, direction: FundingDirection, p: ShadowPosition)
    requires ValidBundle(b) && Orderly(b)
    ensures Evaluable(b, direction, p) <==> forall reason :: !Lacks(b, direction, p, reason)
  {
    DenseQuotesInOrder(b, direction, p.baseQuantity);
    hide ValidBundle, Pairs, CurrentRows, CurrentStamps, HistoryCovered, QuotesInOrder, LatencySampled, StrictlyOrdered;
    if forall reason :: !Lacks(b, direction, p, reason) {
      assert !Lacks(b, direction, p, FundingContiguousWindowInsufficient);
      assert !Lacks(b, direction, p, CurrentFundingWindowInsufficient);
      assert !Lacks(b, direction, p, EvaluationWindowInsufficient);
      assert !Lacks(b, direction, p, LatencyExecutableSampleInsufficient);
    }
  }

  /** Evidence that is missing is missing for one reason; an evaluable position lacks nothing. */
  lemma NothingLacks(b: Bundle, direction: FundingDirection, p: ShadowPosition)
    requires ValidBundle(b)
    requires Pairs(b) == [] || (FundingReady(b, direction) && HistoryCovered(b)
                                && (QuotesInOrder(b, direction, p.baseQuantity) ==>
                                     LatencySampled(b, direction, p.baseQuantity)))
    ensures forall reason :: !Lacks(b, direction, p, reason)
  {
    hide ValidBundle, Pairs, CurrentRows, CurrentStamps, HistoryCovered, QuotesInOrder, LatencySampled;
  }

  lemma StartsIffWindow(times: seq<int>, w: nat)
    requires w > 0
    ensures AllStarts(times, w) != [] <==> exists s: nat :: ValidWindow(times, w, s)
  {
    WindowStartsMeaning(times, w, |times|);
    var starts := AllStarts(times, w);
    hide WindowStarts, Increasing;
    if starts != [] {
      assert starts[0] in starts;
    }
    if exists s: nat :: ValidWindow(times, w, s) {
      var s: nat :| ValidWindow(times, w, s);
      assert s in starts;
    }
  }

  /** A run holds every shorter run. */
  lemma RunHoldsShorter(times: seq<int>, w: nat, v: nat)
    requires HasHourlyRun(times, w) && v <= w
    ensures HasHourlyRun(times, v)
  {
    hide StrictlyOrdered, OneHourAfter;
    var s: nat :| ValidWindow(times, w, s);
    assert ValidWindow(times, v, s);
  }

  lemma CashflowTimes(b: Bundle, direction: FundingDirection, p: ShadowPosition)
    ensures Times(FundingCashflows(Pairs(b), direction, p)) == EvaluationTimes(b)
  {
    hide Pairs;
  }

  lemma FundingRunIs(b: Bundle, direction: FundingDirection, p: ShadowPosition, days: nat)
    requires days > 0
    ensures var rows := FundingCashflows(Pairs(b), direction, p);
      ValidCashflows(rows) && AllWindows(rows, days * 24) != [] <==> HasHourlyRun(EvaluationTimes(b), days * 24)
  {
    CashflowTimes(b, direction, p);
    StartsIffWindow(EvaluationTimes(b), days * 24);
    hide FundingCashflows, Pairs, StrictlyOrdered, WindowStarts, ValidWindow, EvaluationTimes;
    hide AllStarts;
    WindowsCount(FundingCashflows(Pairs(b), direction, p), days * 24);
  }

  lemma WindowsCount(rows: seq<CashflowRow>, w: nat)
    requires w > 0
    ensures AllWindows(rows, w) != [] <==> AllStarts(Times(rows), w) != []
    ensures rows == [] ==> AllStarts(Times(rows), w) == []
  {
    StartsIffWindow(Times(rows), w);
    hide WindowAt;
  }

  lemma BasisRunIs(b: Bundle, direction: FundingDirection, days: nat)
    requires ValidPairs(b.hourlyBooks) && ValidHoldingDays(days)
    ensures BasisComputable(b.hourlyBooks, direction, days) <==> HasHourlyRun(PairTimes(b.hourlyBooks), days * 24)
  {
    var times := PairTimes(b.hourlyBooks);
    StartsIffWindow(times, days * 24);
    hide ValidPairs, AdverseChange, StrictlyOrdered, WindowStarts;
  }

  /** All three horizons can be measured exactly when 28 unbroken days of both series exist. */
  lemma MeasurableIffCovered(b: Bundle, direction: FundingDirection, p: ShadowPosition)
    requires ValidPairs(b.hourlyBooks)
    ensures (forall k :: 0 <= k < 3 ==> HorizonMeasurable(b, direction, FundingCashflows(Pairs(b), direction, p), k))
      <==> HistoryCovered(b)
  {
    var rows := FundingCashflows(Pairs(b), direction, p);
    var funding, books := EvaluationTimes(b), PairTimes(b.hourlyBooks);
    hide ValidPairs, BasisComputable, FundingCashflows, Pairs, ValidCashflows, AllWindows, HasHourlyRun,
      EvaluationTimes;
    forall k | 0 <= k < 3
      ensures HorizonMeasurable(b, direction, rows, k)
        <==> HasHourlyRun(funding, HorizonDays(k) * 24) && HasHourlyRun(books, HorizonDays(k) * 24)
    {
      FundingRunIs(b, direction, p, HorizonDays(k));
      BasisRunIs(b, direction, HorizonDays(k));
    }
    if HistoryCovered(b) {
      forall k | 0 <= k < 3 ensures HorizonMeasurable(b, direction, rows, k) {
        RunHoldsShorter(funding, 28 * 24, HorizonDays(k) * 24);
        RunHoldsShorter(books, 28 * 24, HorizonDays(k) * 24);
      }
    } else {
      assert HorizonDays(2) == 28;
      assert !HorizonMeasurable(b, direction, rows, 2);
    }
  }

  lemma EvaluableNeeds(b: Bundle, direction: FundingDirection, p: ShadowPosition)
    requires ValidBundle(b)
    ensures Evaluable(b, direction, p) <==>
      && FundingReady(b, direction) && HistoryCovered(b)
      && QuotesInOrder(b, direction, p.baseQuantity) && LatencySampled(b, direction, p.baseQuantity)
      && b.lighterTakerRate >= 0.0 && b.dydxTakerRate >= 0.0
  {
    hide ValidBundle, FundingReady, HistoryCovered, QuotesInOrder, LatencySampled;
  }

  lemma LacksExcludesEvaluable(b: Bundle, direction: FundingDirection, p: ShadowPosition, reason: Reason)
    requires ValidBundle(b) && Lacks(b, direction, p, reason)
    ensures !Evaluable(b, direction, p)
  {
    hide ValidBundle, Pairs, CurrentRows, CurrentStamps, HistoryCovered, QuotesInOrder, LatencySampled;
  }

  lemma ShortFunding(b: Bundle, direction: FundingDirection, p: ShadowPosition)
    requires ValidBundle(b) && 0 < |Pairs(b)| < 28 * 24
    ensures Lacks(b, direction, p, FundingContiguousWindowInsufficient)
  {
    hide ValidBundle, Pairs;
  }

  lemma StaleFunding(b: Bundle, direction: FundingDirection, p: ShadowPosition)
    requires ValidBundle(b) && |Pairs(b)| >= 28 * 24 && Stamps(CurrentRows(b, direction)) != CurrentStamps(b)
    ensures Lacks(b, direction, p, CurrentFundingWindowInsufficient)
  {
    hide ValidBundle, Pairs, CurrentRows, CurrentStamps;
  }

  lemma BrokenHistory(b: Bundle, direction: FundingDirection, p: ShadowPosition)
    requires ValidBundle(b) && FundingReady(b, direction) && !HistoryCovered(b)
    ensures Lacks(b, direction, p, EvaluationWindowInsufficient)
  {
    hide ValidBundle, FundingReady, HistoryCovered;
  }

  lemma NoLatencySample(b: Bundle, direction: FundingDirection, p: ShadowPosition)
    requires ValidBundle(b) && FundingReady(b, direction) && HistoryCovered(b)
    requires QuotesInOrder(b, direction, p.baseQuantity) && !LatencySampled(b, direction, p.baseQuantity)
    ensures Lacks(b, direction, p, LatencyExecutableSampleInsufficient)
  {
    hide ValidBundle, FundingReady, HistoryCovered, QuotesInOrder, LatencySampled;
  }

  lemma ReadyIs(b: Bundle, direction: FundingDirection)
    ensures FundingReady(b, direction) <==>
      |Pairs(b)| >= 28 * 24 && Stamps(CurrentRows(b, direction)) == CurrentStamps(b)
  {
  }

  lemma OrderlyParts(b: Bundle, direction: FundingDirection, p: ShadowPosition)
    requires ValidBundle(b)
    ensures Orderly(b) ==>
      b.lighterTakerRate >= 0.0 && b.dydxTakerRate >= 0.0 && QuotesInOrder(b, direction, p.baseQuantity)
  {
    hide ValidBundle, StrictlyOrdered, QuotesInOrder;
    if Orderly(b) {
      DenseQuotesInOrder(b, direction, p.baseQuantity);
    }
  }
}
