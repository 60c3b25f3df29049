# Carry economics, dashboard revisions and guarded runs: a verified model

This project models the exact-arithmetic core of a carry-trading research repository in Dafny and
proves what it promises. Three parts:

- **Carry calculators and decisions.** Order books are walked, the largest two-leg position is found
  by binary search, exits, slippage, margin and latency are priced, hourly funding series with gaps
  are windowed, and a gated report is built. The report records restate their identities as
  validators; here they are predicates, and the evaluator is proved never to build a report they
  reject. The eight-hour persistence study is modelled from raw funding revisions to its decision.
- **Dashboard revisions.** A fixed-capacity ring of numbered revisions, read by followers that resume
  from a Last-Event-ID cursor (section 9.2 of the WHATWG HTML standard). The ring is a class proved to
  refine an unbounded log; the publisher, snapshot readers, waiters and close form a transition system.
- **Guarded runs.** The paginating, de-duplicating market acquirer, the train/validation/test
  evaluator and the budgeted artifact importer, with claims about every run.

Prices, rates, quantities and money are `real`; quantity steps are exact decimals; timestamps are
integer microseconds. Loops of the source are loops here, objects with mutable fields are classes, and
expression code is functions. Each loop is proved against a specification, and the properties are
lemmas about that specification. What the specifications' own functions mean (which side is paid, which
move is adverse, which evidence is prompt) is stated again on the inputs' own numbers.

How the files build on each other:

- `Numbers`, `Ordering`, `StringOrder`, `OrderStatistics`: sums, ordered sequences, sorting, ranks.
- `OrderBook`, `QuantitySteps`, `EconomicsPolicy`, `Sizing`, `Tradability`, `ExecutionCosts`,
  `RoundTrips`: execution.
- `HourlyWindows`, `FundingSeries`, `Cashflows`, `Reserves`, `AdverseMoves`: gap-broken series.
- `EconomicsModel`, `Economics`, `FundingSides`, `QuoteCounts`, `Evaluator`, `Readiness`,
  `CandidateEvaluator`, `ReportMeaning`: the report.
- `Settlements`, `StudyBlocks`, `StudyPairing`, `StudySeries`, `StudySummaries`, `StudyReport`,
  `StudyEvidence`: the study.
- `EventIds`, `RevisionLog`, `RevisionBuffer`, `FollowerProtocol`: the dashboard.
- `Deduplication`, `Acquisition`, `EvaluatorHistory`, `ImporterHistory`: the guarded runs.

## What turned out otherwise

- Returned page cursors can repeat in a successful acquisition: the loop check guards only a cursor
  about to be followed, and a page that reaches the candidate limit is not followed. The exact
  condition is `Acquisition.CursorsRepeatOnlyAtLimit`, with a witness in `Acquisition.CursorCanRepeat`.
- Two conflicting copies of one market ID are noticed only when the earlier copy was the first market
  received with its content. A copy that repeats another market's content is forgotten
  (`Deduplication.AbsorbFailsIffConflict`, `Deduplication.DroppedCopyIsForgotten`).
- Re-importing an already recorded artifact is free within one session, but a fresh session checks the
  budget before it asks the registry, and refuses when the cost no longer fits
  (`ImporterHistory.RepeatAcceptedIffSeenOrAffordable`).
- The forced-exit rejection and the depth skip in the quote counts cannot happen
  (`ExecutionCosts.SizedNeverRunsOut`, `QuoteCounts.SizedExits`), and no slippage clamp ever binds on a
  position's own sizing books.
- For fully collateralised legs the liquidation gate depends on the policy's rates and the venues' fees
  alone, never on size, price or books (`Evaluator.LiquidationIsAboutRates`).
- A revision's fingerprints leave out its cutoff time while its revision ID does not, so a published
  revision may list no changed domain: exactly when no fingerprint changed since the previous
  publication (`RevisionLog.NoDomainListedIff`), as in the run of `RevisionLog.CutoffOnlyRevision`.

## Model

| member | source | states |
|---|---|---|
| OrderStatistics.SortedRank | src/polytrading/carry/economics_funding.py:108-115 | the value a sorted sample holds at index k is the one with at most k members below it and more than k members not above it, said without sorting |
| OrderStatistics.NearestRankMeaning | src/polytrading/carry/economics_funding.py:108-115 | the percentile is the least sample member that at least the fraction p of the sample does not exceed |
| OrderStatistics.NearestRankMonotone | src/polytrading/carry/economics_funding.py:108-115 | nearest-rank percentiles never fall as the probability rises |
| OrderStatistics.MedianNegated | src/polytrading/carry/economics_funding.py:81-87 | the exact median of the negated sample is the negated median |
| OrderStatistics.MedianMeaning | src/polytrading/carry/economics_funding.py:81-87 | the median lies midway between the two middle ranks of the sample, which coincide for an odd size |
| OrderStatistics.OrientedBySelf | src/polytrading/carry/economics_funding.py:90-105 | orienting a sample by its own selected direction leaves a strictly positive median equal to the absolute median; no direction exactly at median zero |
| OrderStatistics.NegationFlipsDirection | src/polytrading/carry/economics_funding.py:90-96 | negating the sample flips the selected direction, and none stays none |
| OrderBook.WalkBook | src/polytrading/carry/economics_execution.py:113-129 | the loop prices exactly the front of the book, and succeeds if and only if 0 < q <= total depth |
| OrderBook.CostStrictlyIncreasing | src/polytrading/carry/economics_execution.py:113-129 | the notional of a walk strictly increases with its quantity |
| OrderBook.WalkIsCheapest | src/polytrading/carry/economics_execution.py:113-129 | no other split of a quantity over rising levels costs less than the walk |
| OrderBook.WalkIsAttained | src/polytrading/carry/economics_execution.py:113-129 | the walk is itself such a split: it fills the quantity exactly and costs what is reported |
| OrderBook.AverageMonotone | src/polytrading/carry/economics_execution.py:113-129 | the average price never falls on asks and never rises on bids as the quantity grows |
| OrderBook.AverageBetween | src/polytrading/carry/economics_execution.py:113-129 | the average lies between the best price and the worst price the walk touches, on either side |
| OrderBook.MidpointCentred | src/polytrading/carry/economics_execution.py:396-397 | the midpoint is as far above the best bid as below the best ask |
| QuantitySteps.GcdCombination | src/polytrading/carry/economics_execution.py:136-148 | the Euclidean divisor divides both numbers and is a whole combination of them |
| QuantitySteps.LeastCommonMultipleMeaning | src/polytrading/carry/economics_execution.py:136-148 | product over divisor is a positive common multiple that divides every common multiple |
| QuantitySteps.CommonStepMeaning | src/polytrading/carry/economics_execution.py:136-148 | a common step exists if and only if both venues publish positive steps, and then it is a positive whole multiple of both, and every common multiple is a whole multiple of it |
| QuantitySteps.CommonStepLeast | src/polytrading/carry/economics_execution.py:136-148 | it is the least positive common multiple |
| QuantitySteps.VenueStepIsProduct | src/polytrading/carry/economics_execution.py:139-142 | a venue accepts multiples of its quantity step times its contract multiplier, as exact decimals |
| QuantitySteps.AcceptedIffWholeSteps | src/polytrading/carry/economics_execution.py:151-164 | both venues accept a quantity if and only if it is a whole number of common steps |
| QuantitySteps.CompatibleIsGreatest | src/polytrading/carry/economics_execution.py:151-164 | the compatible quantity is the greatest accepted quantity in (0, maximum]; none is returned exactly when there is none |
| Sizing.BaseWalk | src/polytrading/carry/economics_execution.py:167-176 | walking in contracts and rescaling gives the quote in base units, with the same failure cases |
| Sizing.FeasibleBelow | src/polytrading/carry/economics_execution.py:255-291 | fewer steps of a feasible position are feasible, and more steps never lose a minimum notional: what the binary search relies on |
| Sizing.MaximumUnits | src/polytrading/carry/economics_execution.py:236-250 | no feasible number of steps lies above the search range |
| Sizing.QuoteForUnits | src/polytrading/carry/economics_execution.py:255-291 | a unit count is quoted if and only if its entry walks, its multiplied exit walks and both caps allow it, and the quotes are the position's own |
| Sizing.SizeShadowPosition | src/polytrading/carry/economics_execution.py:229-313 | the search returns the position of the largest feasible number of steps meeting both minimum notionals, and None if and only if no feasible count meets them |
| Sizing.BestPositionUnique | src/polytrading/carry/economics_execution.py:229-313 | that position is unique |
| Tradability.FeasibleIsTradable | src/polytrading/carry/economics_execution.py:252-274 | a number of steps is feasible if and only if that quantity is accepted by both venues, filled by twenty levels on opening and by its policy multiple on closing, with both notionals together within either capital limit and the shock on each leg alone within the loss limit |
| Tradability.LargestTradable | src/polytrading/carry/economics_execution.py:229-313 | the sized position trades the largest quantity that is tradable in that sense, real number for real number, at the price of walking each side, above both minimum notionals; its incomplete-leg loss is the shock on one leg and no less than on the other |
| Tradability.SizedIffTradable | src/polytrading/carry/economics_execution.py:229-313 | a position is sized if and only if some tradable quantity reaches both minimum notionals |
| ExecutionCosts.EntryClampNeverBinds | src/polytrading/carry/economics_execution.py:316-331 | a position sized from one uncrossed book pair has strictly positive entry adversity on both legs, so the clamps at zero change nothing |
| ExecutionCosts.ExitClampNeverBinds | src/polytrading/carry/economics_execution.py:365-387 | the same for forced exits, at every depth the books can fill |
| ExecutionCosts.ForcedExitMonotone | src/polytrading/carry/economics_execution.py:347-387 | for any position and books, a deeper forced exit is priced only if the shallower one is, and never costs less |
| ExecutionCosts.SizedNeverRunsOut | src/polytrading/carry/economics.py:427-438 | on its sizing books a position's forced exit and, for a multiplier of at least one, its exit notionals always find depth |
| ExecutionCosts.FullyCollateralisedLiquidation | src/polytrading/carry/economics_execution.py:475-526 | with the entry notional as collateral, liquidation depends only on fee, penalty, maintenance and shock, by an exact threshold for longs and shorts |
| RoundTrips.ReserveCoversUnwind | src/polytrading/carry/economics.py:227-248 | unwinding a just-sized position on its own books loses money, by exactly the forced-exit cost at depth one, and the policy's forced-exit cost covers it |
| RoundTrips.EntryQuoteMatchesPosition | src/polytrading/carry/economics.py:263-278 | on the sizing books the entry quote cost is the long leg's notional less the short leg's |
| RoundTrips.SlippageIsShortfall | src/polytrading/carry/economics_execution.py:316-331 | entry slippage is the cash both legs fall short of trading at the midpoints of the sizing books |
| RoundTrips.ForcedExitIsDeepUnwind | src/polytrading/carry/economics_execution.py:347-387 | a forced exit at depth m is priced if and only if both closing sides fill m times the position, and m times its cost is what unwinding m such positions in one walk loses |
| HourlyWindows.WindowStartsMeaning | src/polytrading/carry/economics_funding.py:147-161 | the windows counted are exactly the index windows of the right length whose adjacent rows are one hour apart, in order |
| HourlyWindows.BoundariesSplit | src/polytrading/carry/economics_funding.py:207-214 | the boundary indices cut the series into maximal hourly chunks covering it in order |
| HourlyWindows.ChunkStarts | src/polytrading/carry/economics_funding.py:147-161 | the windows starting inside a chunk are those that end inside it: chunk-then-slide finds what filter-then-sum finds |
| HourlyWindows.OrderedMeaning | src/polytrading/carry/economics_funding.py:124-132 | comparing adjacent timestamps orders the whole series strictly |
| HourlyWindows.HourlyIsProgression | src/polytrading/carry/economics_funding.py:135-144 | a stretch without a gap holds one row for every hour: its k-th row lies k hours after its first |
| FundingSeries.RollingSumsCover | src/polytrading/carry/economics_funding.py:147-161 | every rolling sum is over an unbroken stretch of exactly the holding period |
| FundingSeries.ContiguousChunks | src/polytrading/carry/economics_funding.py:135-144 | the chunks are the slices between those boundaries |
| FundingSeries.RollingFundingSums | src/polytrading/carry/economics_funding.py:147-161 | the running totals equal, in order, the direct sum of every hourly window; the routine succeeds exactly on ordered rows and a known horizon |
| FundingSeries.MaximumFundingDrawdown | src/polytrading/carry/economics_funding.py:164-178 | the prefix-and-peak scan returns the largest of 0 and every negated sum over 1 to 24*days consecutive hourly rows |
| FundingSeries.WorstDropMonotone | src/polytrading/carry/economics_funding.py:164-178 | the drawdown never falls from a shorter horizon to a longer one |
| FundingSeries.WorstDropUnique | src/polytrading/carry/economics_funding.py:164-178 | that largest value is unique |
| FundingSeries.FundingHorizonStatistics | src/polytrading/carry/economics_funding.py:181-193 | count, fifth percentile and drawdown of the rolling windows; fails exactly without a complete window |
| Cashflows.CollectWindows | src/polytrading/carry/economics_funding.py:204-231 | walking from boundary to boundary visits exactly the hourly windows, in order, summed column by column |
| Cashflows.SortingKeepsGross | src/polytrading/carry/economics_funding.py:235-243 | sorting windows by their key sorts their gross values |
| Cashflows.SelectedGross | src/polytrading/carry/economics_funding.py:235-256 | the selected window's gross is the nearest-rank fifth percentile of the gross values |
| Cashflows.SelectedRank | src/polytrading/carry/economics_funding.py:235-256 | the selected window is the one at the fifth-percentile rank, counted on the unsorted windows, ties in gross going to the window that ends first |
| Cashflows.CashflowHorizonStatistics | src/polytrading/carry/economics_funding.py:196-256 | the reported sums all come from that window; fails exactly on bad rows, an unknown horizon or no window |
| Cashflows.CashflowAgreesWithScalar | src/polytrading/carry/economics_funding.py:181-256 | window count, fifth percentile and drawdown agree with the scalar routine on the gross rows |
| Cashflows.CashflowSucceedsWithScalar | src/polytrading/carry/economics_funding.py:181-256 | and the two routines succeed on exactly the same rows and horizons |
| Cashflows.CashflowStatisticsUnique | src/polytrading/carry/economics_funding.py:196-256 | the rows determine the statistics |
| Cashflows.ComponentsScale | src/polytrading/carry/economics.py:189-209 | each venue's cash component is its entry notional times its oriented rate sum |
| Economics.CashflowsScale | src/polytrading/carry/economics.py:189-209 | every row's cash is the leg's notional times the rate the row carries |
| FundingSides.ShortIsPaidLongPays | src/polytrading/carry/economics.py:189-209 | the short leg is paid its venue's rate on its notional and the long leg pays its own, in either direction |
| FundingSides.ReportedVenuesArePaid | src/polytrading/carry/economics.py:183-186 | the venue reported short is the one the position is paid by, and the venue reported long the one it pays |
| FundingSides.EqualLegsEarnTheDifferential | src/polytrading/carry/economics.py:373-404 | with equal leg notionals the cashflow statistics are that notional times the scalar statistics of the oriented differentials: same windows, fifth percentile and drawdown |
| FundingSides.TrainingReads | src/polytrading/carry/economics.py:103-107 | training reads Lighter's rate less dYdX's of exactly the pairs up to and including its end, in their order |
| FundingSides.EvaluationReads | src/polytrading/carry/economics.py:373-377 | the evaluation reads exactly the pairs after the training end and up to its own end, in their order |
| FundingSides.CurrentRegime | src/polytrading/carry/economics.py:390-398 | funding is ready only with 168 current rows, one for each of the last 168 hours, each oriented from a pair of its hour |
| Reserves.BasisReserve | src/polytrading/carry/economics_execution.py:410-439 | the 99th percentile of the adverse basis change over every hourly window; exactly when it fails |
| AdverseMoves.ChangeIsAdverse | src/polytrading/carry/economics_execution.py:400-407 | a window's change is positive exactly when the midpoints moved against the position, and in the two directions it differs by the move of Lighter's relative premium |
| Reserves.LatencyReserve | src/polytrading/carry/economics_execution.py:442-472 | the larger of the worst move at the floor duration and the 99th percentile; None exactly when every sample is shorter than the documented latency |
| Reserves.LatencyReserveCovers | src/polytrading/carry/economics_execution.py:442-472 | the reserve covers every sampled move at the floor duration and at least 99 percent of all sampled moves |
| Reserves.LatencyReserveUnique | src/polytrading/carry/economics_execution.py:442-472 | samples and documented latency determine the reserve |
| AdverseMoves.SamplesMeaning | src/polytrading/carry/economics_execution.py:453-463 | every pair of neighbouring observations at most five seconds apart is a sample, adverse by the rise of the entry cost and by nothing when it falls |
| AdverseMoves.FloorCoversBothVenues | src/polytrading/carry/economics.py:301-301 | the floor duration is the shortest sampled one that neither venue's documented latency exceeds |
| AdverseMoves.QuotesMeaning | src/polytrading/carry/economics.py:286-300 | the quotes sampled are those of exactly the dense rows that can fill the entry, at the long leg's payment less the short leg's proceeds |
| Economics.QuotesOrdered | src/polytrading/carry/economics.py:281-305 | dropping unfillable quotes keeps the observations strictly ordered |
| Economics.LatencyCost | src/polytrading/carry/economics.py:281-305 | the reserve taken over the executable quotes; refused exactly when they are out of order, and missing exactly when no sample reaches the documented latency |
| Economics.MeasureHorizons | src/polytrading/carry/economics.py:399-413 | statistics and basis rates of the 7, 14 and 28 day horizons; fails exactly when one of the six has nothing to measure |
| QuoteCounts.SizedExits | src/polytrading/carry/economics.py:331-341 | an hour that can be sized can be priced: the depth skip is unreachable |
| QuoteCounts.QuoteRow | src/polytrading/carry/economics.py:308-364 | one hour is skipped exactly when nothing can be sized from it, and otherwise quotes both nets; no cost is refused |
| QuoteCounts.CountQuotes | src/polytrading/carry/economics.py:308-364 | the counts are the positive entries among the quoted nets, without and with the latency reserve |
| QuoteCounts.StressNeverExceedsNormal | src/polytrading/carry/economics.py:308-364 | the latency reserve can only lose positive hours |
| QuoteCounts.CountIsAboveZero | src/polytrading/carry/economics_execution.py:529-544 | a count is of the values strictly above zero |
| ReportMeaning.ReplayQuotesTheHorizon | src/polytrading/carry/economics.py:308-364 | replaying the books the position was sized on, at the seven-day terms, quotes the seven-day conservative net itself under the latency reserve, and that net plus the reserve without it |
| Evaluator.CostsOfValid | src/polytrading/carry/economics_models.py:292-316 | the cost breakdown satisfies its record's identities if and only if every part is nonnegative |
| Evaluator.HorizonOfValid | src/polytrading/carry/economics_models.py:319-350 | a horizon built from consistent statistics satisfies its own identities and those tying it to the record |
| Evaluator.StressOfValid | src/polytrading/carry/economics_models.py:353-510 | the stressed totals and their pass flags satisfy the record's identities |
| Evaluator.EconomicsOfValid | src/polytrading/carry/economics_models.py:353-510 | everything built from consistent inputs satisfies every identity of the complete record |
| Evaluator.NoReasonsIffGatesPass | src/polytrading/carry/economics.py:415-570 | no rejection reason is collected if and only if all numeric gates pass, the regime still pays and the dossier is clean |
| Evaluator.PriceCosts | src/polytrading/carry/economics.py:427-451 | costs are produced exactly when the quotes are in order, a sample reaches the documented latency and fees are not negative; every part is the calculator's figure, depth never runs out, and the only evidence that can be missing is the latency sample |
| Evaluator.BuildHorizons | src/polytrading/carry/economics.py:461-496 | the three horizons in order and the reasons they give |
| Evaluator.LiquidationIsAboutRates | src/polytrading/carry/economics.py:516-542 | the liquidation gate depends on fees and margin rates, never on size or price |
| CandidateEvaluator.CompleteEconomicsFor | src/polytrading/carry/economics.py:367-604 | completes exactly when the position is evaluable; then the record is valid, traced to the bundle figure by figure, and carries exactly the reasons its gates give; otherwise it is incomplete exactly for the first piece of evidence that is missing |
| CandidateEvaluator.SoundDecides | src/polytrading/carry/economics_models.py:498-510 | for a completed evaluation: no reasons if and only if the position qualifies, which implies all numeric gates pass |
| CandidateEvaluator.EvaluateBundle | src/polytrading/carry/economics.py:61-170 | every answer passes the report record's own coherence check: median zero, no size, the missing evidence, or the evaluated position; no answer exactly on an unanswerable bundle |
| CandidateEvaluator.Evaluate | src/polytrading/carry/economics.py:61-170 | the evaluator never builds a report its own model rejects, gives the one answer each bundle calls for, and fails exactly on unanswerable bundles, which have an empty training window or are disorderly |
| CandidateEvaluator.ShadowCandidateIff | src/polytrading/carry/economics.py:61-170 | the answer to a bundle is a shadow candidate if and only if a direction is selected, a position is sized, its evidence is complete and its economics qualify |
| CandidateEvaluator.AnswersUnique | src/polytrading/carry/economics.py:61-170 | a bundle has at most one answer |
| CandidateEvaluator.SoundUnique | src/polytrading/carry/economics.py:367-604 | the economics and reasons of an evaluated position are fixed by the bundle |
| CandidateEvaluator.UnanswerableCases | src/polytrading/carry/economics.py:61-170 | a bundle has no answer exactly with an empty training window, or with a sized position whose evidence raises |
| ReportMeaning.HorizonMeaning | src/polytrading/carry/economics.py:461-490 | a reported horizon's gross is the least that five percent of its hourly windows do not exceed, its reversal reserve the worst run of hours, its basis rate the least that 99 percent of the changes do not exceed |
| ReportMeaning.FeesByVenue | src/polytrading/carry/economics.py:251-260 | the reported fee is each venue's own reported rate on what the position trades there on the latest books, opening and closing |
| ReportMeaning.RecordCopies | src/polytrading/carry/economics.py:570-604 | the record is of the largest tradable quantity on the latest books, the policy's account, cash rate and operational cost, and the dearer leg's shock |
| ReportMeaning.ReasonsExplained | src/polytrading/carry/economics.py:415-570 | a completed evaluation gives exactly the reasons that apply, each for its own figure and frozen limit |
| Readiness.MeasurableIffCovered | src/polytrading/carry/economics.py:399-413 | all three horizons can be measured if and only if funding and books each hold an unbroken run of 28 days in an ordered series |
| Readiness.OrderlyClassified | src/polytrading/carry/economics.py:388-448 | an orderly bundle's sized position is evaluable if and only if it lacks no evidence |
| Readiness.RaisesIff | src/polytrading/carry/economics.py:373-451 | a sized position raises, rather than being evaluated or reported as lacking, exactly with no funding pairs, with fillable quotes out of order, or with a negative taker fee after everything else is in place |
| Readiness.LacksUnique | src/polytrading/carry/economics.py:388-448 | at most one piece of evidence is the first missing |
| Readiness.NothingLacks | src/polytrading/carry/economics.py:388-448 | with funding, history and latency samples in place, or no pairs at all, no evidence is reported missing |
| Settlements.PrepareSettlements | src/polytrading/carry/study.py:465-507 | succeeds if and only if every row is admissible and revisions agree, and then gives one settlement per effective time, in order, with the agreed terms and the earliest observation |
| Settlements.SettlementsUnique | src/polytrading/carry/study.py:465-507 | the set of rows determines the settlements: input order and repeated rows do not matter |
| Settlements.LaterRevisionIgnored | src/polytrading/carry/study.py:465-507 | a revision repeating the terms and seen no earlier changes nothing |
| Settlements.SettlementsInWindow | src/polytrading/carry/study.py:465-507 | settlements lie in the half-open-left window and were observed between settlement and cutoff |
| Settlements.RefusedIffUnusable | src/polytrading/carry/study.py:476-489 | a row is refused if and only if it is another stream's, under another symbol, outside the window, seen too late or seen before it took effect |
| Settlements.SymbolNamesStream | src/polytrading/carry/study.py:33-36 | a symbol names one asset at one venue |
| StudyBlocks.WholeBlocks | src/polytrading/carry/study.py:444-462 | a valid window is a whole number of eight-hour blocks, at least one |
| StudyBlocks.WindowMeaning | src/polytrading/carry/study.py:444-462 | a window is valid if and only if it runs from one eight-hour mark to a later one, not beyond what is known |
| StudyBlocks.BlockEndMeaning | src/polytrading/carry/study.py:510-522 | the ceiling division gives the one grid block whose half-open-left span holds the time |
| StudyBlocks.BlockRequested | src/polytrading/carry/study.py:510-522 | every in-window time has its block among the requested ones |
| StudyBlocks.GroupByBlock | src/polytrading/carry/study.py:510-522 | each block holds exactly its settlements, in their order |
| StudyBlocks.BlocksPartition | src/polytrading/carry/study.py:510-522 | the requested blocks, in order, hold every settlement exactly once |
| StudyBlocks.MembersMeaning | src/polytrading/carry/study.py:510-522 | a settlement belongs to a block if and only if its time lies in it |
| StudyPairing.ScanBlocks | src/polytrading/carry/study.py:377-441 | raises if and only if a requested block is overfilled; otherwise every requested block is listed once, as paired or as incomplete, with counts and included settlements accounted for |
| StudyPairing.ScanDetermined | src/polytrading/carry/study.py:377-441 | that accounting fixes every figure of the scan |
| StudyPairing.CoverageOfValid | src/polytrading/carry/study_models.py:94-124 | the coverage summary passes its record's checks |
| StudyPairing.CompleteConservation | src/polytrading/carry/study.py:377-441 | when every block is paired, the spreads total Hyperliquid minus Bybit over all settlements, each included once |
| StudyPairing.PrepareBlocks | src/polytrading/carry/study.py:349-441 | succeeds exactly on a valid window with admissible, consistent rows that overfill no block, and prepares what the two sets of rows determine |
| StudyPairing.PreparedStudyUnique | src/polytrading/carry/study.py:349-441 | blocks, coverage, availability and hashes do not depend on row order or on repeated rows |
| StudyEvidence.AvailabilityMeaning | src/polytrading/carry/study.py:533-538 | no data means no paired block; point-in-time means every settlement in a paired block was observed, in some revision, within five minutes of taking effect; and otherwise the study is a historical reconstruction |
| StudyEvidence.PassingDecision | src/polytrading/carry/study.py:103-144 | a study that passes asks for the net forward gate if and only if all its paired evidence was prompt, and for a forward test otherwise |
| StudyEvidence.CoverageMeaning | src/polytrading/carry/study.py:420-441 | the coverage counts the paired blocks and eight-hour marks, and names the earliest and latest paired block |
| StudySeries.HoldingWindowSums | src/polytrading/carry/study.py:324-335 | the filtered direct sums are those of exactly the gapless windows, in order |
| StudySeries.HoldingStartsMeaning | src/polytrading/carry/study.py:324-335 | a start is counted if and only if its window is gapless |
| StudySeries.GaplessIsProgression | src/polytrading/carry/study.py:324-335 | a gapless stretch holds one block for every eight hours |
| StudySeries.HoldingSumsSpan | src/polytrading/carry/study.py:324-335 | every holding sum is the spread earned over an unbroken stretch of exactly the holding period |
| StudySeries.MaximumDrawdown | src/polytrading/carry/study.py:283-291 | one pass finds the largest of 0 and every negated run sum |
| StudySeries.DrawdownsAgree | src/polytrading/carry/study.py:283-291 | on one gap-free chunk no longer than the horizon it equals the bounded-horizon drawdown |
| StudySeries.LongestAdverseRun | src/polytrading/carry/study.py:294-300 | the maximum length of an all-negative run |
| StudySeries.NoAdverseRunIff | src/polytrading/carry/study.py:294-300 | there is no adverse run if and only if no spread is below zero |
| StudySeries.SignBehavior | src/polytrading/carry/study.py:303-321 | persistence is the share of adjacent nonzero pairs that keep their sign, and reversals count the others; a zero breaks the chain |
| StudySeries.TransitionsPartition | src/polytrading/carry/study.py:303-321 | persistent plus reversed transitions are exactly the adjacent nonzero pairs |
| StudySummaries.DistributionValid | src/polytrading/carry/study_models.py:143-162 | a distribution exists for every nonempty sample and passes its record's checks, order statistics included |
| StudySummaries.DistributionMeaning | src/polytrading/carry/study.py:245-280 | every figure of a distribution, said of the unsorted sample: percentiles by coverage, extremes by membership, signs by order counts |
| StudySummaries.MonthlyTotals | src/polytrading/carry/study.py:212-220 | one entry per month with a block, in month order, holding that month's spreads |
| StudySummaries.MonthsConserve | src/polytrading/carry/study_models.py:216-224 | regrouping by month conserves the cumulative sum |
| StudyReport.ComputeStatistics | src/polytrading/carry/study.py:205-242 | every figure is what it is named for, and the record accepts them |
| StudyReport.MeasuredValid | src/polytrading/carry/study_models.py:184-224 | measured statistics never violate their own record |
| StudyReport.SufficientIffNoReasons | src/polytrading/carry/study.py:176-190 | no insufficiency reason if and only if coverage, availability, duration and samples suffice |
| StudyReport.PassesIffNoReasons | src/polytrading/carry/study.py:193-202 | no failure reason if and only if median, lower tails and the total without the best month are positive |
| StudyReport.ShortfallsExplained | src/polytrading/carry/study.py:176-190 | each insufficiency reason is given if and only if its own shortfall is the case |
| StudyReport.FailuresExplained | src/polytrading/carry/study.py:193-202 | each failure reason is given if and only if its own figure is not positive, the month one when some month earned the whole total |
| StudyReport.AnnualisedIsAYearOfBlocks | src/polytrading/carry/study.py:205-242 | the annualised mean is the mean spread once for each eight-hour block of a year of 365 days |
| StudyReport.DecideStudy | src/polytrading/carry/study.py:103-144 | decision and reasons follow from the gates, both ways: exactly the insufficiency and sample reasons, or exactly the failure reasons of the measured statistics; the report record accepts it |
| StudyReport.BuildReport | src/polytrading/carry/study.py:84-144 | a report is built exactly for preparable inputs, says what its gates say, reasons included, and passes its record's checks |
| EventIds.RenderValid | src/polytrading/predictions/dashboard_live.py:279-292 | an issued ID is an acceptable cursor if and only if it has at most twenty digits |
| EventIds.RenderInjective | src/polytrading/predictions/dashboard_live.py:247-252 | comparing IDs as strings compares them as numbers |
| EventIds.ValueRenders | src/polytrading/predictions/dashboard_live.py:279-292 | every acceptable cursor is the rendering of one number |
| RevisionLog.DifferingMeaning | src/polytrading/predictions/dashboard_live.py:126-136 | the listed domains are exactly those whose fingerprints differ, in order and without repeats |
| RevisionLog.PublishKeepsLog | src/polytrading/predictions/dashboard_live.py:198-234 | publishing keeps: IDs 1..n, each revision its own content's, neighbours different, changed domains exactly those changed since the previous publication |
| RevisionLog.EveryRunValid | src/polytrading/predictions/dashboard_live.py:198-277 | the same after every run of publishes and closes |
| RevisionLog.NoDomainListedIff | src/polytrading/predictions/dashboard_live.py:211-219 | a published revision after the first lists no domain if and only if every domain has the fingerprint of the previous publication |
| RevisionLog.CutoffOnlyRevision | src/polytrading/predictions/dashboard_live.py:139-165 | two snapshots of one content whose cutoffs give different digests are both published, and the second lists no domain |
| RevisionLog.CutoffOnlyRunExists | src/polytrading/predictions/dashboard_live.py:139-165 | with a digest that tells cutoffs apart such a run exists for every capacity |
| RevisionLog.StepExtends | src/polytrading/predictions/dashboard_live.py:198-277 | publications are only ever added, one at a time, and a closed buffer issues none |
| RevisionLog.RetainedConsecutive | src/polytrading/predictions/dashboard_live.py:198-234 | retained IDs are consecutive, end at the last issued, and number min(capacity, publications) |
| RevisionLog.IssuedCursorResets | src/polytrading/predictions/dashboard_live.py:240-259 | an issued cursor is reset if and only if at least capacity revisions followed it, reads nothing if and only if it is newest, and the newest revision otherwise |
| RevisionLog.ForeignCursorResets | src/polytrading/predictions/dashboard_live.py:240-259 | a cursor the buffer never issued is refused, unavailable or reset, never accepted |
| RevisionLog.NewReaderGetsNewest | src/polytrading/predictions/dashboard_live.py:247-248 | with something published, a reader without a cursor is handed the newest revision, never a reset |
| RevisionLog.ResetNamesNewest | src/polytrading/predictions/dashboard_live.py:253-259 | a reset answers a cursor, and carries the newest ID, the digest of the newest content and the time of asking |
| RevisionLog.PublishOutcomes | src/polytrading/predictions/dashboard_live.py:198-234 | publishing fails if and only if the digest is wrong, the buffer is closed or a new revision finds the IDs used up, and is unchanged if and only if the newest publication has this revision; what it issues carries its arguments |
| RevisionLog.RepublishingIsUnchanged | src/polytrading/predictions/dashboard_live.py:209-210 | publishing one snapshot twice publishes it once |
| RevisionBuffer.Buffer.Publish | src/polytrading/predictions/dashboard_live.py:198-234 | the ring, counter and caches refine one step of the published log, with every failure case |
| RevisionBuffer.Buffer.EventAfter | src/polytrading/predictions/dashboard_live.py:236-259 | scanning the ring by string gives the answer defined on the log by number |
| RevisionBuffer.Buffer.BeginWait | src/polytrading/predictions/dashboard_live.py:261-271 | a wait blocks if and only if there is nothing to read, the buffer is open and there is time left |
| RevisionBuffer.Buffer.Close | src/polytrading/predictions/dashboard_live.py:273-276 | closing changes nothing but the closed flag |
| RevisionBuffer.MakeBuffer | src/polytrading/predictions/dashboard_live.py:171-186 | a capacity below one is refused; a new buffer is empty |
| RevisionBuffer.CursorScan | src/polytrading/predictions/dashboard_live.py:249-252 | the ring holds an ID if and only if its number is among the last capacity issued |
| FollowerProtocol.EveryRunSafe | src/polytrading/predictions/dashboard_live.py:240-350 | over every interleaving of publication steps, reads, waits, connects and close: deliveries to a follower strictly rise, starting above the issued ID it resumed from; the newest ID it holds is its cursor; waiters had nothing left to read; and outside a publication the stored snapshot is the newest revision's |
| FollowerProtocol.AnswerCarriesNewest | src/polytrading/predictions/dashboard_live.py:240-259 | every event handed out carries the newest ID at that moment |
| FollowerProtocol.EveryRunTold | src/polytrading/predictions/dashboard_live.py:240-276 | in every run, every event handed out is the revision of the ID it carries, or a reset naming that revision |
| FollowerProtocol.JoiningStartsWithRevision | src/polytrading/predictions/dashboard_live.py:240-259 | a client that joins without a cursor is, in every later run, handed a revision first, never a reset |
| FollowerProtocol.JoiningReadsNewest | src/polytrading/predictions/dashboard_live.py:247-248 | and if it reads at once, with something published, it is the newest one |
| FollowerProtocol.ReadByHolder | src/polytrading/predictions/dashboard_live.py:240-259 | a follower holding an issued ID, delivered or resumed from, reads nothing, the newest revision or a reset, by how many revisions followed |
| FollowerProtocol.ResumedDeliveriesRise | src/polytrading/predictions/dashboard_live.py:236-259 | a client that comes back with an issued ID is, in every later state of every run, only handed higher IDs, in increasing order |
| FollowerProtocol.NothingIffUpToDate | src/polytrading/predictions/dashboard_live.py:240-259 | reading nothing is the same as holding the newest ID, or none while nothing is published |
| FollowerProtocol.WaitFindsEverything | src/polytrading/predictions/dashboard_live.py:261-271 | a waiter that returns, for whatever reason, finds an event if and only if one was published since it began |
| FollowerProtocol.NoLostWakeUp | src/polytrading/predictions/dashboard_live.py:230-276 | after every run a waiter has been notified if and only if there is something for it to read or the buffer is closed |
| FollowerProtocol.NotifiedWaiterReturns | src/polytrading/predictions/dashboard_live.py:261-271 | a waiter with something to read returns without its timeout and is delivered the newest ID |
| FollowerProtocol.QuietUntilNextPublication | src/polytrading/predictions/dashboard_live.py:240-276 | a follower whose cursor is the newest ID, however it came by it, is delivered nothing until the next publication, whatever else happens |
| FollowerProtocol.SnapshotMatchesBuffer | src/polytrading/predictions/dashboard_live.py:335-350 | whenever the publication lock is free, the latest snapshot is the buffer's latest revision |
| Deduplication.AbsorbAllConserves | src/polytrading/corpus_intake/polymarket.py:381-396 | received markets are kept, exact or canonical duplicates; kept ones differ in ID and content; every received content is kept |
| Deduplication.NextConflicts | src/polytrading/corpus_intake/polymarket.py:383-389 | the next market is refused if and only if it differs from one of its ID that was the first received with its content |
| Deduplication.KeptIsFirst | src/polytrading/corpus_intake/polymarket.py:381-396 | the kept markets are exactly the first received with their content, each under its ID |
| Deduplication.KeptCount | src/polytrading/corpus_intake/polymarket.py:381-396 | a successful intake keeps one market for each content received |
| Deduplication.DuplicatesCounted | src/polytrading/corpus_intake/polymarket.py:381-396 | exact duplicates are the received markets that repeat, page apart, one that was first with its content; every other market not kept is a canonical duplicate |
| Deduplication.IdentityIsSameMarket | src/polytrading/corpus_intake/polymarket.py:436-462 | two copies have one identity if and only if they are equal but for the page they came on |
| Deduplication.DroppedCopyIsForgotten | src/polytrading/corpus_intake/polymarket.py:383-396 | differing copies of one ID are both accepted when the first repeated another market's content |
| Acquisition.PagesPaged | src/polytrading/corpus_intake/polymarket.py:338-413 | what every turn of the page loop keeps: page and cursor bounds, distinct followed cursors, and why it stopped |
| Acquisition.ReadPages | src/polytrading/corpus_intake/polymarket.py:338-413 | the page loop refines its step function |
| Deduplication.AbsorbFailsIffConflict | src/polytrading/corpus_intake/polymarket.py:381-396 | absorbing markets fails if and only if two of one ID differ and the earlier was the first received with its content |
| Deduplication.AbsorbPage | src/polytrading/corpus_intake/polymarket.py:381-396 | the loop over a page refines the step on one market |
| Acquisition.PagesFailIff | src/polytrading/corpus_intake/polymarket.py:338-413 | the page loop fails if and only if it asks for a broken page, one that brings a conflict, or one that repeats an earlier cursor while fewer contents than the limit have come; a condition on the answers alone |
| Acquisition.GoingIffAsked | src/polytrading/corpus_intake/polymarket.py:338-413 | the loop is still going at a page exactly when every earlier page had a cursor and left fewer contents than the limit |
| Acquisition.PagesReadAreAskedFor | src/polytrading/corpus_intake/polymarket.py:338-413 | a successful run reads exactly those pages |
| Acquisition.Acquire | src/polytrading/corpus_intake/polymarket.py:320-433 | fails exactly on a page asked for that is broken, conflicts or would be followed by a cursor already returned; otherwise the output is the first candidates in order, with diagnostics that describe the run |
| Acquisition.AcquisitionConserves | src/polytrading/corpus_intake/polymarket.py:320-433 | received equals kept plus both kinds of duplicate; output IDs and contents are distinct; pages stay within the limit |
| Acquisition.UntruncatedIsComplete | src/polytrading/corpus_intake/polymarket.py:398-433 | with neither truncation flag the last page had no cursor and every received content is in the output |
| Acquisition.TruncationMeaning | src/polytrading/corpus_intake/polymarket.py:398-433 | the candidate flag is set if and only if more contents came than the limit, or as many with a further cursor; the page flag if and only if the last allowed page had a further cursor and left room |
| Acquisition.OutputGrouped | src/polytrading/corpus_intake/polymarket.py:415-420 | in the output families never fall, members of one family stand together, and IDs rise within it |
| StringOrder.LessMeaning | src/polytrading/corpus_intake/polymarket.py:415-420 | one string comes before another if and only if it is a proper prefix or smaller at the first difference |
| Acquisition.CursorsRepeatOnlyAtLimit | src/polytrading/corpus_intake/polymarket.py:398-413 | in a successful run returned cursors repeat if and only if the page that brings the received contents to the limit returns a cursor an earlier page returned |
| Acquisition.FollowedCursorsDistinct | src/polytrading/corpus_intake/polymarket.py:404-413 | followed cursors never repeat |
| Acquisition.CursorCanRepeat | src/polytrading/corpus_intake/polymarket.py:398-413 | such a run exists |
| EvaluatorHistory.Evaluator.Run | src/polytrading/ai/evaluate.py:177-206 | a run appends exactly one attempt, accepted if and only if the request is admissible against the attempts before it |
| EvaluatorHistory.Evaluator.ValidateRequest | src/polytrading/ai/evaluate.py:208-253 | the first failing check decides |
| EvaluatorHistory.AttemptsNumbered | src/polytrading/ai/evaluate.py:189-206 | in every run attempts are numbered 1..n, one for each request |
| EvaluatorHistory.AcceptedInOrder | src/polytrading/ai/evaluate.py:232-238 | an accepted validation has an accepted train before it, an accepted test an accepted validation and no earlier accepted test |
| EvaluatorHistory.TestFollowsValidationFollowsTrain | src/polytrading/ai/evaluate.py:232-238 | an accepted test follows an accepted validation that follows an accepted train of its experiment |
| EvaluatorHistory.TestTouchedOnce | src/polytrading/ai/evaluate.py:232-238 | no experiment has two accepted tests |
| EvaluatorHistory.AcceptedTestIsUntouched | src/polytrading/ai/evaluate.py:219-253 | an accepted test shares no family with training and uses no card validated on its dataset |
| EvaluatorHistory.AttemptsExplained | src/polytrading/ai/evaluate.py:208-253 | in every history an attempt is accepted if and only if nothing is violated: registration, code revision, frozen manifest, cutoffs, families, counts, split order, model cards, metrics; and a refusal names something that is |
| ImporterHistory.MonthlyBudget | src/polytrading/ai/artifact_import.py:94-99 | the budget is the smaller of twenty-five dollars and the equity share |
| ImporterHistory.Importer.ImportJson | src/polytrading/ai/artifact_import.py:116-189 | one import refines the step on the books, error cases included |
| ImporterHistory.ImportAll | src/polytrading/ai/cli.py:331-347 | the command's loop threads the cumulative cost until the first refusal |
| ImporterHistory.SessionWithinBudget | src/polytrading/ai/artifact_import.py:116-189 | a session that starts within budget stays within it, and final minus initial spend is what it charged |
| ImporterHistory.SessionAccounted | src/polytrading/ai/artifact_import.py:116-189 | from any starting spend, a session never passes the larger of it and the budget, and charges only artifacts new to the registry, once |
| ImporterHistory.ArtifactsChargedOnce | src/polytrading/ai/cli.py:331-347 | however many sessions share a registry, no artifact ID is charged twice |
| ImporterHistory.RepeatAcceptedIffSeenOrAffordable | src/polytrading/ai/artifact_import.py:153-180 | an exact repeat of a recorded artifact is accepted if and only if this importer saw it or its cost would still fit |
| ImporterHistory.SpentOutRepeatRefused | src/polytrading/ai/artifact_import.py:165-180 | a fresh session at a spent-out budget refuses an artifact that was already charged |
| ImporterHistory.ImportedIff | src/polytrading/ai/artifact_import.py:116-189 | an import succeeds if and only if cost, spend, artifact and account are in order, no book contradicts it, and it was seen or still fits; a first import is charged, a repeat is free, and a refusal names what is amiss |
| ImporterHistory.RemainingBudgetRunsDown | src/polytrading/ai/artifact_import.py:262-279 | along a session the reported budget runs down by exactly what is charged: spend plus remainder is always the budget |
| ImporterHistory.RemainderNeverNegative | src/polytrading/ai/artifact_import.py:262-279 | a session that starts within budget never reports a negative remainder |

## Left out

- Rounding: the source computes with 28-digit decimals; here arithmetic is exact, so statements about
  identities hold up to that rounding.
- Type and finiteness checks on decimals, time zones, naive timestamps and the records' string patterns.
- Identity checks between books, instruments and policy before sizing (venue, asset, symbol): the model
  receives matching records.
- Source lineage, URLs, hashes of policies and reports, the report's timestamp-window checks and the
  evidence assembler; a bundle is a parameter with its records valid.
- The complete record's checks that assumptions and fee schedules come in canonical venue order and that
  each fee tier matches its execution assumption: the model keeps one rate per venue and no tier names.
- Legacy report summaries, dossier and discovery ranking, the audit status and the trial, proof and
  shadow modules.
- The study store query and report rendering; `monthOf` stands for the calendar month of a block end,
  ordered as the rendered months are.
- SHA-256 and canonical JSON: revision digests and domain fingerprints are arbitrary functions of the
  content; market, family and artifact hashes are the fields they cover, as if injective.
- Removing cutoff fields from nested documents before fingerprinting is inside the fingerprint function.
- Emission timestamps, clocks and their failures; thread start, join and shutdown timeouts; the
  publisher's failure codes. Only the lock-protected steps are modelled.
- RevisionBuffer.Buffer.BeginWait: models the first half of a wait; the second half, which may follow a
  wake-up, a timeout or nothing, is an action of the follower protocol, because one method cannot show
  what other threads do in between.
- HTTP requests, body limits, content types, page parsing and market normalisation: a page is a sequence
  of candidates and a cursor, or a failure; delays between pages are not modelled.
- Acquisition.Acquire: takes one prepared answer for every page the limit allows, in place of a client.
- The semantic metrics, span checks and gate-status table of the evaluator: whether the metrics can be
  computed is a parameter of the request, and the status, which no later run reads, is not modelled.
- The checks on an imported artifact itself (prohibited keys, versions, expiry, cutoffs, model card,
  contracts, spans) are one parameter, and the registry is its append contract.
- Delays, files, databases, command-line parsing and printing.
