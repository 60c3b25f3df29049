/** The study's statistics, its gates and the report they decide. */
module StudyReport {
  import opened Numbers
  import opened OrderStatistics
  import opened FundingSeries
  import opened Settlements
  import opened StudyBlocks
  import opened StudyPairing
  import opened StudySeries
  import opened StudySummaries

  const MIN_PAIRED_COVERAGE := 0.99

  /** One day in microseconds. */
  const DAY := 86_400_000_000

  datatype HoldingWindow = HoldingWindow(holdingDays: int, blockCount: int, distribution: DistributionSummary)

  datatype Statistics = Statistics(
    blockDistribution: DistributionSummary,
    signPersistence: Option<real>,
    signReversals: int,
    longestAdverseRun: int,
    cumulative: real,
    maximumDrawdown: real,
    grossAnnualizedMean: real,
    monthly: seq<MonthlyContribution>,
    withoutBestMonth: real,
    holdingWindows: seq<HoldingWindow>)

  predicate ValidHoldingWindow(h: HoldingWindow, days: int) {
    h.holdingDays == days && h.blockCount == days * 3 && ValidDistribution(h.distribution)
  }

  /** The statistics record's own checks. */
  ghost predicate ValidStatistics(s: Statistics) {
    && ValidDistribution(s.blockDistribution)
    && (s.signPersistence.Some? ==> 0.0 <= s.signPersistence.value <= 1.0)
    && s.signReversals >= 0 && s.longestAdverseRun >= 0 && s.maximumDrawdown >= 0.0
    && s.monthly != [] && MonthsOrdered(s.monthly)
    && Sum(Contributions(s.monthly)) == s.cumulative
    && s.withoutBestMonth == s.cumulative - MaxOf(Contributions(s.monthly))
    && |s.holdingWindows| == 3
    && ValidHoldingWindow(s.holdingWindows[0], 7)
    && ValidHoldingWindow(s.holdingWindows[1], 14)
    && ValidHoldingWindow(s.holdingWindows[2], 28)
  }

  /** Each holding period is summarised over its gapless windows. */
  ghost predicate SummarisesHolding(h: HoldingWindow, blocks: seq<PairedBlock>, days: nat) {
    && HoldingSums(blocks, days) != []
    && h == HoldingWindow(days, days * 3, Distribution(HoldingSums(blocks, days)).value)
  }

  /** Every figure says what it is named for. */
  ghost predicate Measures(s: Statistics, blocks: seq<PairedBlock>, monthOf: int -> int) {
    var spreads := Spreads(blocks);
    && blocks != []
    && s.blockDistribution == Distribution(spreads).value
    && s.signReversals == CountReverses(spreads, |spreads|)
    && IsPersistence(spreads, s.signPersistence)
    && IsLongestAdverseBy(spreads, |spreads|, s.longestAdverseRun)
    && s.cumulative == Sum(spreads)
    && IsWorstFall(spreads, s.maximumDrawdown)
    && s.grossAnnualizedMean == Sum(spreads) / |spreads| as real * 1095.0
    && IsMonthly(s.monthly, blocks, monthOf)
    && s.monthly != [] && s.withoutBestMonth == s.cumulative - MaxOf(Contributions(s.monthly))
    && |s.holdingWindows| == 3
    && SummarisesHolding(s.holdingWindows[0], blocks, 7)
    && SummarisesHolding(s.holdingWindows[1], blocks, 14)
    && SummarisesHolding(s.holdingWindows[2], blocks, 28)
  }

  lemma SummarisedValid(h: HoldingWindow, blocks: seq<PairedBlock>, days: nat)
    requires SummarisesHolding(h, blocks, days)
    ensures ValidHoldingWindow(h, days)
  {
    hide HoldingSums, Distribution, ValidDistribution;
    DistributionValid(HoldingSums(blocks, days));
  }

  /** Measured statistics never violate their own record. */
  lemma MeasuredValid(s: Statistics, blocks: seq<PairedBlock>, monthOf: int -> int)
    requires Measures(s, blocks, monthOf)
    ensures ValidStatistics(s)
  {
    hide SummarisesHolding, ValidHoldingWindow, Distribution, ValidDistribution, IsWorstFall, IsLongestAdverseBy, Sum,
      IsPersistence, CountReverses, MaxOf, Contributions, IsMonthly, MonthsOrdered;
    SummarisedValid(s.holdingWindows[0], blocks, 7);
    SummarisedValid(s.holdingWindows[1], blocks, 14);
    SummarisedValid(s.holdingWindows[2], blocks, 28);
    DistributionValid(Spreads(blocks));
    PersistenceIsShare(Spreads(blocks), s.signPersistence);
    FallNonnegative(Spreads(blocks), s.maximumDrawdown);
    LongestNonnegative(Spreads(blocks), |blocks|, s.longestAdverseRun);
    MonthsConserve(s.monthly, blocks, monthOf);
    MonthlyOrdered(s.monthly, blocks, monthOf);
  }

  /** The annualised mean is the mean spread once for each eight-hour block of a 365-day year. */
  lemma AnnualisedIsAYearOfBlocks(s: Statistics, blocks: seq<PairedBlock>, monthOf: int -> int)
    requires Measures(s, blocks, monthOf)
    ensures s.grossAnnualizedMean == s.blockDistribution.mean * 1095.0
    ensures 1095 * BLOCK == 365 * 86_400_000_000
  {
    MeanOf(Spreads(blocks));
    hide Sum, Distribution, SummarisesHolding, IsMonthly, IsWorstFall, IsLongestAdverseBy, IsPersistence, CountReverses,
      Spreads, MaxOf, Contributions;
  }

  lemma MeanOf(values: seq<real>)
    requires values != []
    ensures Distribution(values).Ok? && Distribution(values).value.mean == Sum(values) / |values| as real
  {
    hide Sum, RankValue, MinOf, MaxOf, CountPositives, CountZeros, CountNegatives;
  }

  lemma FallNonnegative(values: seq<real>, d: real)
    requires IsWorstFall(values, d)
    ensures d >= 0.0
  {
  }

  lemma MonthlyOrdered(monthly: seq<MonthlyContribution>, blocks: seq<PairedBlock>, monthOf: int -> int)
    requires IsMonthly(monthly, blocks, monthOf)
    ensures MonthsOrdered(monthly)
  {
  }

  function HoldingWindowOf(values: seq<real>, days: int): HoldingWindow
    requires Distribution(values).Ok?
  {
    HoldingWindow(days, days * 3, Distribution(values).value)
  }

  function ContributionsOf(monthly: seq<MonthlyContribution>): (r: seq<real>)
    ensures r == Contributions(monthly)
  {
    seq(|monthly|, i requires 0 <= i < |monthly| => monthly[i].grossFunding)
  }

  method ComputeStatistics(blocks: seq<PairedBlock>, holding: seq<seq<real>>, monthOf: int -> int)
    returns (s: Statistics)
    requires blocks != [] && |holding| == 3
    requires holding[0] == HoldingSums(blocks, 7) && holding[1] == HoldingSums(blocks, 14)
    requires holding[2] == HoldingSums(blocks, 28)
    requires holding[0] != [] && holding[1] != [] && holding[2] != []
    ensures Measures(s, blocks, monthOf) && ValidStatistics(s)
  {
    hide SummarisesHolding, HoldingWindowOf, HoldingSums, Distribution, ValidStatistics, IsWorstFall,
      IsLongestAdverseBy, IsPersistence, CountReverses, Sum, IsMonthly, MaxOf, Contributions, ContributionsOf,
      Spreads, SpreadsOf;
    var spreads := SpreadsOf(blocks);
    var persistence, reversals := SignBehavior(spreads);
    var monthly := MonthlyTotals(blocks, monthOf);
    MonthsConserve(monthly, blocks, monthOf);
    var cumulative := Sum(spreads);
    var best := MaxOf(ContributionsOf(monthly));
    var longest := LongestAdverseRun(spreads);
    var drawdown := MaximumDrawdown(spreads);
    DistributionValid(spreads);
    DistributionValid(holding[0]);
    DistributionValid(holding[1]);
    DistributionValid(holding[2]);
    var windows := [HoldingWindowOf(holding[0], 7), HoldingWindowOf(holding[1], 14), HoldingWindowOf(holding[2], 28)];
    Summarises(blocks, 7);
    Summarises(blocks, 14);
    Summarises(blocks, 28);
    s := Statistics(Distribution(spreads).value, persistence, reversals, longest, cumulative, drawdown,
      cumulative / |spreads| as real * 1095.0, monthly, cumulative - best, windows);
    MeasuredValid(s, blocks, monthOf);
  }

  lemma Summarises(blocks: seq<PairedBlock>, days: nat)
    requires HoldingSums(blocks, days) != []
    ensures Distribution(HoldingSums(blocks, days)).Ok?
    ensures SummarisesHolding(HoldingWindowOf(HoldingSums(blocks, days), days), blocks, days)
  {
  }

  // ---------------------------------------------------------------- the gates

  datatype StudyDecision = InsufficientData | ReplicationFailed | ForwardTestRequired | NetForwardGateRequired

  datatype StudyReason =
    | NoPairedBlocks
    | PairedCoverageBelow99Percent
    | PointInTimeWindowBelow90Days
    | HistoricalWindowBelow365Days
    | HoldingWindowHasFewerThanTwoSamples(days: int)
    | BlockMedianNonPositive
    | HoldingWindowLowerTailNonPositive(days: int)
    | BestMonthConcentration

  datatype Report = Report(
    window: StudyWindow,
    availability: Availability,
    coverage: Coverage,
    statistics: Option<Statistics>,
    decision: StudyDecision,
    reasons: set<StudyReason>,
    hashes: set<string>)

  /** The report record's own checks. */
  ghost predicate ValidReport(r: Report) {
    && r.window.start < r.window.end <= r.window.knownAsOf
    && ValidCoverage(r.coverage)
    && (r.statistics.Some? ==> ValidStatistics(r.statistics.value))
    && (r.decision.InsufficientData? <==> r.statistics.None?)
    && (r.decision.InsufficientData? || r.decision.ReplicationFailed? <==> r.reasons != {})
  }

  function If(condition: bool, reason: StudyReason): set<StudyReason> {
    if condition then {reason} else {}
  }

  function InsufficiencyReasons(p: PreparedStudy, w: StudyWindow): set<StudyReason> {
    var duration := w.end - w.start;
    If(p.availability.NoData?, NoPairedBlocks)
    + If(p.coverage.ratio < MIN_PAIRED_COVERAGE, PairedCoverageBelow99Percent)
    + If(p.availability.PointInTime? && duration < 90 * DAY, PointInTimeWindowBelow90Days)
    + If(p.availability.HistoricalReconstruction? && duration < 365 * DAY, HistoricalWindowBelow365Days)
  }

  function SampleReasons(holding: seq<seq<real>>): set<StudyReason>
    requires |holding| == 3
  {
    If(|holding[0]| < 2, HoldingWindowHasFewerThanTwoSamples(7))
    + If(|holding[1]| < 2, HoldingWindowHasFewerThanTwoSamples(14))
    + If(|holding[2]| < 2, HoldingWindowHasFewerThanTwoSamples(28))
  }

  function FailureReasons(s: Statistics): set<StudyReason>
    requires |s.holdingWindows| == 3
  {
    If(s.blockDistribution.median <= 0.0, BlockMedianNonPositive)
    + If(s.holdingWindows[0].distribution.percentile05 <= 0.0,
      HoldingWindowLowerTailNonPositive(s.holdingWindows[0].holdingDays))
    + If(s.holdingWindows[1].distribution.percentile05 <= 0.0,
      HoldingWindowLowerTailNonPositive(s.holdingWindows[1].holdingDays))
    + If(s.holdingWindows[2].distribution.percentile05 <= 0.0,
      HoldingWindowLowerTailNonPositive(s.holdingWindows[2].holdingDays))
    + If(s.withoutBestMonth <= 0.0, BestMonthConcentration)
  }

  /** Enough paired, timely data over a long enough window, and two windows of every holding period. */
  ghost predicate Sufficient(p: PreparedStudy, w: StudyWindow) {
    && !p.availability.NoData?
    && p.coverage.ratio >= 0.99
    && w.end - w.start >= (if p.availability.PointInTime? then 90 else 365) * 86_400_000_000
    && |HoldingSums(p.paired, 7)| >= 2 && |HoldingSums(p.paired, 14)| >= 2 && |HoldingSums(p.paired, 28)| >= 2
  }

  /** The carry persisted: a positive median, positive lower tails, and no month carries the total. */
  ghost predicate Passes(s: Statistics) {
    && |s.holdingWindows| == 3
    && s.blockDistribution.median > 0.0
    && s.holdingWindows[0].distribution.percentile05 > 0.0
    && s.holdingWindows[1].distribution.percentile05 > 0.0
    && s.holdingWindows[2].distribution.percentile05 > 0.0
    && s.monthly != [] && s.cumulative > MaxOf(Contributions(s.monthly))
  }

  lemma SufficientIffNoReasons(p: PreparedStudy, w: StudyWindow, holding: seq<seq<real>>)
    requires |holding| == 3
    requires holding[0] == HoldingSums(p.paired, 7) && holding[1] == HoldingSums(p.paired, 14)
    requires holding[2] == HoldingSums(p.paired, 28)
    ensures InsufficiencyReasons(p, w) + SampleReasons(holding) == {} <==> Sufficient(p, w)
  {
    var reasons := InsufficiencyReasons(p, w) + SampleReasons(holding);
    hide HoldingSums;
    if reasons == {} {
      assert NoPairedBlocks !in reasons && PairedCoverageBelow99Percent !in reasons;
      assert PointInTimeWindowBelow90Days !in reasons && HistoricalWindowBelow365Days !in reasons;
      assert HoldingWindowHasFewerThanTwoSamples(7) !in reasons;
      assert HoldingWindowHasFewerThanTwoSamples(14) !in reasons;
      assert HoldingWindowHasFewerThanTwoSamples(28) !in reasons;
    }
  }

  lemma PassesIffNoReasons(s: Statistics, blocks: seq<PairedBlock>, monthOf: int -> int)
    requires Measures(s, blocks, monthOf)
    ensures FailureReasons(s) == {} <==> Passes(s)
  {
    var reasons := FailureReasons(s);
    assert s.monthly != [] && s.withoutBestMonth == s.cumulative - MaxOf(Contributions(s.monthly));
    hide Measures, MaxOf, Contributions;
    if reasons == {} {
      assert BlockMedianNonPositive !in reasons && BestMonthConcentration !in reasons;
      assert HoldingWindowLowerTailNonPositive(s.holdingWindows[0].holdingDays) !in reasons;
      assert HoldingWindowLowerTailNonPositive(s.holdingWindows[1].holdingDays) !in reasons;
      assert HoldingWindowLowerTailNonPositive(s.holdingWindows[2].holdingDays) !in reasons;
    }
  }

  /** The sums of each holding period's gapless windows. */
  ghost function AllHoldingSums(blocks: seq<PairedBlock>): (sums: seq<seq<real>>)
    ensures |sums| == 3
  {
    [HoldingSums(blocks, 7), HoldingSums(blocks, 14), HoldingSums(blocks, 28)]
  }

  /** The reasons are those of the gates that fail: for want of data, or of the measured statistics. */
  ghost predicate ReasonsGiven(r: Report, p: PreparedStudy, w: StudyWindow) {
    match r.statistics
    case None => r.reasons == InsufficiencyReasons(p, w) + SampleReasons(AllHoldingSums(p.paired))
    case Some(s) => |s.holdingWindows| == 3 && r.reasons == FailureReasons(s)
  }

  /** The report says of the prepared study what its gates say, no more and no less. */
  ghost predicate Decides(r: Report, p: PreparedStudy, w: StudyWindow, monthOf: int -> int) {
    && r.window == w && r.availability == p.availability && r.coverage == p.coverage && r.hashes == p.hashes
    && (r.statistics.Some? <==> Sufficient(p, w))
    && (r.statistics.Some? ==> Measures(r.statistics.value, p.paired, monthOf))
    && (r.decision.NetForwardGateRequired? <==>
          r.statistics.Some? && Passes(r.statistics.value) && p.availability.PointInTime?)
    && (r.decision.ForwardTestRequired? <==>
          r.statistics.Some? && Passes(r.statistics.value) && p.availability.HistoricalReconstruction?)
    && (r.decision.ReplicationFailed? <==> r.statistics.Some? && !Passes(r.statistics.value))
    && ReasonsGiven(r, p, w)
  }

  ghost predicate IsReportOn(r: Report, bybit: set<Row>, hyperliquid: set<Row>, w: StudyWindow, monthOf: int -> int) {
    exists p :: IsPreparedStudy(p, bybit, hyperliquid, w) && Decides(r, p, w, monthOf)
  }

  /** The holding periods the study measures. */
  predicate MeasuredPeriod(days: nat) {
    days == 7 || days == 14 || days == 28
  }

  /** Each insufficiency reason is given exactly when its own shortfall is the case. */
  lemma ShortfallsExplained(r: Report, p: PreparedStudy, w: StudyWindow, monthOf: int -> int)
    requires Decides(r, p, w, monthOf) && r.statistics.None?
    ensures NoPairedBlocks in r.reasons <==> p.availability.NoData?
    ensures PairedCoverageBelow99Percent in r.reasons <==> p.coverage.ratio < 0.99
    ensures PointInTimeWindowBelow90Days in r.reasons <==>
      p.availability.PointInTime? && w.end - w.start < 90 * 86_400_000_000
    ensures HistoricalWindowBelow365Days in r.reasons <==>
      p.availability.HistoricalReconstruction? && w.end - w.start < 365 * 86_400_000_000
    ensures forall days: nat :: HoldingWindowHasFewerThanTwoSamples(days) in r.reasons <==>
      MeasuredPeriod(days) && |HoldingSums(p.paired, days)| < 2
    ensures forall x :: x in r.reasons ==>
      !x.BlockMedianNonPositive? && !x.HoldingWindowLowerTailNonPositive? && !x.BestMonthConcentration?
  {
    hide HoldingSums, Measures, Sufficient, Passes;
  }

  /** Each failure reason is given exactly when its own figure is not positive. */
  lemma FailuresExplained(r: Report, p: PreparedStudy, w: StudyWindow, monthOf: int -> int)
    requires Decides(r, p, w, monthOf) && r.statistics.Some?
    ensures var s := r.statistics.value;
      && (BlockMedianNonPositive in r.reasons <==> s.blockDistribution.median <= 0.0)
      && (forall days: nat :: HoldingWindowLowerTailNonPositive(days) in r.reasons <==>
           MeasuredPeriod(days) && LowerTail(p.paired, days) <= 0.0)
      && (BestMonthConcentration in r.reasons <==> exists c :: c in s.monthly && s.cumulative <= c.grossFunding)
    ensures forall x :: x in r.reasons ==>
      x.BlockMedianNonPositive? || x.HoldingWindowLowerTailNonPositive? || x.BestMonthConcentration?
  {
    var s := r.statistics.value;
    hide Sufficient, Passes;
    MeasuredTails(s, p.paired, monthOf);
    BestMonth(s.monthly, s.cumulative);
    assert r.reasons == FailureReasons(s) && s.withoutBestMonth == s.cumulative - MaxOf(Contributions(s.monthly));
    hide Measures, MaxOf, Contributions, LowerTail, FailureReasons, Decides;
    FailureMembers(s);
  }

  lemma FailureMembers(s: Statistics)
    requires |s.holdingWindows| == 3
    requires s.holdingWindows[0].holdingDays == 7 && s.holdingWindows[1].holdingDays == 14
    requires s.holdingWindows[2].holdingDays == 28
    ensures BlockMedianNonPositive in FailureReasons(s) <==> s.blockDistribution.median <= 0.0
    ensures BestMonthConcentration in FailureReasons(s) <==> s.withoutBestMonth <= 0.0
    ensures forall days: nat :: HoldingWindowLowerTailNonPositive(days) in FailureReasons(s) <==>
      || (days == 7 && s.holdingWindows[0].distribution.percentile05 <= 0.0)
      || (days == 14 && s.holdingWindows[1].distribution.percentile05 <= 0.0)
      || (days == 28 && s.holdingWindows[2].distribution.percentile05 <= 0.0)
    ensures forall x :: x in FailureReasons(s) ==>
      x.BlockMedianNonPositive? || x.HoldingWindowLowerTailNonPositive? || x.BestMonthConcentration?
  {
  }

  /** The fifth percentile of a holding period's sums; zero when the period has no window. */
  ghost function LowerTail(blocks: seq<PairedBlock>, days: nat): real {
    if HoldingSums(blocks, days) == [] then 0.0 else RankValue(HoldingSums(blocks, days), 0.05)
  }

  lemma MeasuredTails(s: Statistics, blocks: seq<PairedBlock>, monthOf: int -> int)
    requires Measures(s, blocks, monthOf)
    ensures |s.holdingWindows| == 3 && s.monthly != []
    ensures s.holdingWindows[0].holdingDays == 7 && s.holdingWindows[1].holdingDays == 14
    ensures s.holdingWindows[2].holdingDays == 28
    ensures s.holdingWindows[0].distribution.percentile05 == LowerTail(blocks, 7)
    ensures s.holdingWindows[1].distribution.percentile05 == LowerTail(blocks, 14)
    ensures s.holdingWindows[2].distribution.percentile05 == LowerTail(blocks, 28)
  {
    hide HoldingSums, RankValue, MinOf, MaxOf, Sum, CountPositives, CountZeros, CountNegatives, IsMonthly, IsWorstFall,
      IsLongestAdverseBy, IsPersistence, CountReverses;
  }

  lemma BestMonth(monthly: seq<MonthlyContribution>, total: real)
    requires monthly != []
    ensures total - MaxOf(Contributions(monthly)) <= 0.0 <==> exists c :: c in monthly && total <= c.grossFunding
  {
    var contributions := Contributions(monthly);
    MaxOfMeaning(contributions);
    hide MaxOf;
    if total <= MaxOf(contributions) {
      var k :| 0 <= k < |contributions| && contributions[k] == MaxOf(contributions);
      assert monthly[k] in monthly;
    }
    if exists c :: c in monthly && total <= c.grossFunding {
      var c :| c in monthly && total <= c.grossFunding;
      var k :| 0 <= k < |monthly| && monthly[k] == c;
      assert contributions[k] == c.grossFunding;
    }
  }

  /** Gates a prepared study. */
  method DecideStudy(p: PreparedStudy, w: StudyWindow, monthOf: int -> int) returns (r: Report)
    requires ValidStudyWindow(w) && ValidCoverage(p.coverage)
    ensures ValidReport(r) && Decides(r, p, w, monthOf)
  {
    hide ValidCoverage, ValidStatistics, HoldingSums, Measures, Sufficient, Passes, InsufficiencyReasons,
      SampleReasons, FailureReasons, BlockAligned;
    var seven := HoldingWindowSums(p.paired, 7);
    var fourteen := HoldingWindowSums(p.paired, 14);
    var twentyEight := HoldingWindowSums(p.paired, 28);
    var holding := [seven, fourteen, twentyEight];
    var insufficient := InsufficiencyReasons(p, w) + SampleReasons(holding);
    SufficientIffNoReasons(p, w, holding);
    if insufficient != {} {
      return Report(w, p.availability, p.coverage, None, InsufficientData, insufficient, p.hashes);
    }
    SufficientSamples(p, w);
    var s := ComputeStatistics(p.paired, holding, monthOf);
    MeasuredShape(s, p.paired, monthOf);
    var failures := FailureReasons(s);
    PassesIffNoReasons(s, p.paired, monthOf);
    var decision :=
      if failures != {} then ReplicationFailed
      else if p.availability.PointInTime? then NetForwardGateRequired
      else ForwardTestRequired;
    r := Report(w, p.availability, p.coverage, Some(s), decision, failures, p.hashes);
  }

  lemma MeasuredShape(s: Statistics, blocks: seq<PairedBlock>, monthOf: int -> int)
    requires Measures(s, blocks, monthOf)
    ensures |s.holdingWindows| == 3
  {
  }

  lemma SufficientSamples(p: PreparedStudy, w: StudyWindow)
    requires Sufficient(p, w)
    ensures !p.availability.NoData?
    ensures HoldingSums(p.paired, 7) != [] && HoldingSums(p.paired, 14) != [] && HoldingSums(p.paired, 28) != []
  {
    hide HoldingSums;
  }

  /** The study answers every preparable input with a report its own record accepts, and nothing else. */
  method BuildReport(asset: Asset, w: StudyWindow, bybitRows: seq<Row>, hyperliquidRows: seq<Row>, monthOf: int -> int)
    returns (r: Outcome<Report>)
    ensures r.Ok? <==> ValidStudyWindow(w) && Preparable(RowSet(bybitRows), Bybit, asset, w)
                       && Preparable(RowSet(hyperliquidRows), Hyperliquid, asset, w)
    ensures r.Ok? ==> ValidReport(r.value)
    ensures r.Ok? ==> IsReportOn(r.value, RowSet(bybitRows), RowSet(hyperliquidRows), w, monthOf)
  {
    hide ValidStudyWindow, Preparable, RowSet, ValidReport, IsPreparedStudy, Decides;
    var prepared := PrepareBlocks(asset, w, bybitRows, hyperliquidRows);
    if prepared.ValueError? {
      return ValueError;
    }
    var report := DecideStudy(prepared.value, w, monthOf);
    r := Ok(report);
  }
}
