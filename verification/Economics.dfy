/** The candidate evaluator: from an assembled evidence bundle to a gated report. */
module Economics {
  import opened Numbers
  import opened OrderBook
  import opened OrderStatistics
  import opened QuantitySteps
  import opened EconomicsPolicy
  import opened Sizing
  import opened ExecutionCosts
  import opened HourlyWindows
  import opened FundingSeries
  import opened Cashflows
  import opened Reserves

  datatype DossierStatus = Ineligible | EvidenceIncomplete | ModelRequired | Compatible

  datatype FundingPair = FundingPair(at: int, lighterRate: real, dydxRate: real)

  datatype Bundle = Bundle(
    policy: Policy,
    trainingEnd: int,
    evaluationEnd: int,
    dossierStatus: DossierStatus,
    dossierBlocking: nat,
    dossierMissingEvidence: nat,
    lighterInstrument: Instrument,
    dydxInstrument: Instrument,
    lighterTakerRate: real,
    dydxTakerRate: real,
    fundingPairs: seq<FundingPair>,
    hourlyBooks: seq<PairedBooks>,
    denseBooks: seq<PairedBooks>,
    latestBooks: PairedBooks)

  /** Every record in the bundle passed its own validation. */
  ghost predicate ValidBundle(b: Bundle) {
    && ValidPolicy(b.policy)
    && ValidInstrument(b.lighterInstrument) && ValidInstrument(b.dydxInstrument)
    && ValidPairs(b.hourlyBooks) && ValidPairs(b.denseBooks)
    && ValidBook(b.latestBooks.lighter) && ValidBook(b.latestBooks.dydx)
  }

  function SetupFor(b: Bundle, direction: FundingDirection, books: PairedBooks): (s: Setup)
    ensures ValidBundle(b) && ValidBook(books.lighter) && ValidBook(books.dydx) ==> ValidSetup(s)
  {
    Setup(b.policy, direction, books.lighter, books.dydx, b.lighterInstrument, b.dydxInstrument)
  }

  // ---------------------------------------------------------------- funding rows

  function TrainingDifferentials(pairs: seq<FundingPair>, end: int): seq<real> {
    if pairs == [] then []
    else (if pairs[0].at <= end then [pairs[0].lighterRate - pairs[0].dydxRate] else [])
         + TrainingDifferentials(pairs[1..], end)
  }

  function EvaluationPairs(pairs: seq<FundingPair>, start: int, end: int): seq<FundingPair> {
    if pairs == [] then []
    else (if start < pairs[0].at <= end then [pairs[0]] else []) + EvaluationPairs(pairs[1..], start, end)
  }

  function Differentials(pairs: seq<FundingPair>): seq<real> {
    seq(|pairs|, i requires 0 <= i < |pairs| => pairs[i].lighterRate - pairs[i].dydxRate)
  }

  function RowsBetween(rows: seq<FundingRow>, start: int, end: int): seq<FundingRow> {
    if rows == [] then []
    else (if start <= rows[0].at <= end then [rows[0]] else []) + RowsBetween(rows[1..], start, end)
  }

  function ZipRows(pairs: seq<FundingPair>, values: seq<real>): seq<FundingRow>
    requires |pairs| == |values|
  {
    seq(|pairs|, i requires 0 <= i < |pairs| => FundingRow(pairs[i].at, values[i]))
  }

  /** The last 168 hours ending at the evaluation end, one timestamp per hour. */
  function CurrentStamps(b: Bundle): seq<int> {
    seq(168, i => b.evaluationEnd - 167 * HOUR + i * HOUR)
  }

  function Sign(direction: FundingDirection): real {
    if direction.ShortLighterLongDydx? then 1.0 else -1.0
  }

  function FundingCashflows(pairs: seq<FundingPair>, direction: FundingDirection,
                            p: ShadowPosition): (rows: seq<CashflowRow>)
    ensures |rows| == |pairs|
  {
    var lighterSign := Sign(direction);
    var dydxSign := -lighterSign;
    seq(|pairs|, i requires 0 <= i < |pairs| => CashflowRow(
      pairs[i].at,
      pairs[i].lighterRate * lighterSign,
      pairs[i].dydxRate * dydxSign,
      p.lighterEntry.notional * pairs[i].lighterRate * lighterSign,
      p.dydxEntry.notional * pairs[i].dydxRate * dydxSign))
  }

  /** Each cashflow is the leg's entry notional times its oriented rate. */
  lemma CashflowsScale(pairs: seq<FundingPair>, direction: FundingDirection, p: ShadowPosition)
    ensures forall r :: r in FundingCashflows(pairs, direction, p) ==>
      && r.lighterUsd == Cash(p.lighterEntry.notional, r.lighterRate)
      && r.dydxUsd == Cash(p.dydxEntry.notional, r.dydxRate)
  {
    var rows := FundingCashflows(pairs, direction, p);
    hide FundingCashflows, Cash;
    forall r | r in rows
      ensures r.lighterUsd == Cash(p.lighterEntry.notional, r.lighterRate)
      ensures r.dydxUsd == Cash(p.dydxEntry.notional, r.dydxRate)
    {
      var i :| 0 <= i < |rows| && rows[i] == r;
      CashflowScales(pairs, direction, p, i);
    }
  }

  lemma CashflowScales(pairs: seq<FundingPair>, direction: FundingDirection, p: ShadowPosition, i: nat)
    requires i < |pairs|
    ensures var r := FundingCashflows(pairs, direction, p)[i];
      && r.lighterUsd == Cash(p.lighterEntry.notional, r.lighterRate)
      && r.dydxUsd == Cash(p.dydxEntry.notional, r.dydxRate)
  {
    Reassociate(p.lighterEntry.notional, pairs[i].lighterRate, Sign(direction));
    Reassociate(p.dydxEntry.notional, pairs[i].dydxRate, -Sign(direction));
  }

  lemma Reassociate(n: real, rate: real, sign: real)
    ensures n * rate * sign == Cash(n, rate * sign)
  {
  }

  // ---------------------------------------------------------------- the three horizons

  function HorizonDays(k: int): int {
    if k == 0 then 7 else if k == 1 then 14 else 28
  }

  /** The measured inputs of horizon k. */
  ghost predicate HorizonMeasured(b: Bundle, direction: FundingDirection, rows: seq<CashflowRow>, k: int,
                                  stats: CashflowStatistics, basisRate: real)
    requires ValidPairs(b.hourlyBooks)
  {
    && IsCashflowStatistics(rows, HorizonDays(k), stats)
    && BasisComputable(b.hourlyBooks, direction, HorizonDays(k))
    && basisRate == RankValue(AllChanges(b.hourlyBooks, direction, HorizonDays(k) * 24), 0.99)
  }

  /** Horizon k has a complete funding window and a basis change to measure. */
  ghost predicate HorizonMeasurable(b: Bundle, direction: FundingDirection, rows: seq<CashflowRow>, k: int)
    requires ValidPairs(b.hourlyBooks)
  {
    && ValidCashflows(rows) && AllWindows(rows, HorizonDays(k) * 24) != []
    && BasisComputable(b.hourlyBooks, direction, HorizonDays(k))
  }

  /** Statistics and basis rates of all three horizons; ValueError exactly when one of them cannot be measured. */
  method MeasureHorizons(b: Bundle, direction: FundingDirection, rows: seq<CashflowRow>)
    returns (r: Outcome<(seq<CashflowStatistics>, seq<real>)>)
    requires ValidPairs(b.hourlyBooks)
    ensures r.Ok? <==> forall k :: 0 <= k < 3 ==> HorizonMeasurable(b, direction, rows, k)
    ensures r.Ok? ==> |r.value.0| == |r.value.1| == 3
    ensures r.Ok? ==> forall k :: 0 <= k < 3 ==> HorizonMeasured(b, direction, rows, k, r.value.0[k], r.value.1[k])
  {
    var statistics: seq<CashflowStatistics>, basisRates: seq<real> := [], [];
    hide IsCashflowStatistics, BasisComputable, RankValue, AllChanges, ValidPairs, ValidCashflows, AllWindows;
    for k := 0 to 3
      invariant |statistics| == |basisRates| == k
      invariant forall j :: 0 <= j < k ==> HorizonMeasurable(b, direction, rows, j)
      invariant forall j :: 0 <= j < k ==> HorizonMeasured(b, direction, rows, j, statistics[j], basisRates[j])
    {
      var stats := CashflowHorizonStatistics(rows, HorizonDays(k));
      var basis := BasisReserve(b.hourlyBooks, direction, HorizonDays(k));
      if stats.ValueError? || basis.ValueError? {
        assert !HorizonMeasurable(b, direction, rows, k);
        return ValueError;
      }
      statistics, basisRates := statistics + [stats.value], basisRates + [basis.value];
    }
    return Ok((statistics, basisRates));
  }

  // ---------------------------------------------------------------- fees and latency

  function TakerFeeCost(b: Bundle, p: ShadowPosition, lighterExit: real, dydxExit: real): real {
    (p.lighterEntry.notional + lighterExit) * b.lighterTakerRate
    + (p.dydxEntry.notional + dydxExit) * b.dydxTakerRate
  }

  /** What opening the position would cost on one book pair: long payment less short proceeds. */
  function EntryQuoteCost(s: Setup, base: real): Priced<real>
    requires ValidSetup(s)
  {
    LegsValid(s);
    var l := BaseQuote(LighterLeg(s).entry, base, LighterLeg(s).multiplier);
    var d := BaseQuote(DydxLeg(s).entry, base, DydxLeg(s).multiplier);
    if l.InvalidQuantity? || d.InvalidQuantity? then BadInput
    else if l.InsufficientDepth? || d.InsufficientDepth? then NoDepth
    else if s.direction.ShortLighterLongDydx? then Price(d.quote.notional - l.quote.notional)
    else Price(l.quote.notional - d.quote.notional)
  }

  /** The dense book pairs below n that could fill the entry, as quote observations. */
  function ExecutableQuotes(b: Bundle, direction: FundingDirection, base: real, n: nat): seq<QuoteObservation>
    requires ValidBundle(b) && n <= |b.denseBooks|
  {
    if n == 0 then []
    else
      var row := b.denseBooks[n - 1];
      var cost := EntryQuoteCost(SetupFor(b, direction, row), base);
      ExecutableQuotes(b, direction, base, n - 1)
      + (if cost.Price? then [QuoteObservation(row.at, cost.value)] else [])
  }

  function DocumentedLatency(p: Policy): real {
    Max(p.dydxLatencyMs, p.lighterLatencyMs)
  }

  ghost function AllSamples(b: Bundle, direction: FundingDirection, base: real): seq<LatencySample>
    requires ValidBundle(b)
  {
    var quotes := ExecutableQuotes(b, direction, base, |b.denseBooks|);
    SamplesBy(quotes, |quotes|)
  }

  method CollectQuotes(b: Bundle, direction: FundingDirection, base: real) returns (quotes: seq<QuoteObservation>)
    requires ValidBundle(b)
    ensures quotes == ExecutableQuotes(b, direction, base, |b.denseBooks|)
  {
    hide EntryQuoteCost, ValidPolicy, ValidInstrument, ValidBook, ValidSetup;
    quotes := [];
    for n := 0 to |b.denseBooks|
      invariant quotes == ExecutableQuotes(b, direction, base, n)
    {
      var row := b.denseBooks[n];
      var cost := EntryQuoteCost(SetupFor(b, direction, row), base);
      if cost.Price? {
        quotes := quotes + [QuoteObservation(row.at, cost.value)];
      } else {
        assert quotes + [] == quotes;
      }
    }
  }

  /** Skipping rows of a strictly ordered series leaves it strictly ordered. */
  lemma {:induction false} QuotesOrdered(b: Bundle, direction: FundingDirection, base: real, n: nat)
    requires ValidBundle(b) && n <= |b.denseBooks| && StrictlyOrdered(PairTimes(b.denseBooks))
    ensures var quotes := ExecutableQuotes(b, direction, base, n);
      && StrictlyOrdered(ObservationTimes(quotes))
      && (quotes != [] ==> 0 < n && quotes[|quotes| - 1].at <= b.denseBooks[n - 1].at)
  {
    hide EntryQuoteCost, ValidPolicy, ValidInstrument, ValidBook;
    if n > 0 {
      QuotesOrdered(b, direction, base, n - 1);
      var before, after := ExecutableQuotes(b, direction, base, n - 1), ExecutableQuotes(b, direction, base, n);
      if n > 1 {
        assert After(PairTimes(b.denseBooks), n - 1);
      }
      if |after| == |before| {
        assert after == before;
      } else {
        assert after == before + [after[|before|]];
        hide ExecutableQuotes;
        forall k | 0 < k < |after| ensures After(ObservationTimes(after), k) {
          if k < |before| {
            assert After(ObservationTimes(before), k);
          }
        }
      }
    }
  }

  datatype LatencyResult = Reserve(usd: real) | NoSample | Unordered

  /** The executable quotes are in time order, as the reserve demands. */
  predicate QuotesInOrder(b: Bundle, direction: FundingDirection, base: real)
    requires ValidBundle(b)
  {
    StrictlyOrdered(ObservationTimes(ExecutableQuotes(b, direction, base, |b.denseBooks|)))
  }

  /** Two fillable quotes within five seconds lie at least the documented latency apart. */
  ghost predicate LatencySampled(b: Bundle, direction: FundingDirection, base: real)
    requires ValidBundle(b)
  {
    exists s :: s in AllSamples(b, direction, base) && s.durationMs >= DocumentedLatency(b.policy)
  }

  /** Dense books in order give quotes in order. */
  lemma DenseQuotesInOrder(b: Bundle, direction: FundingDirection, base: real)
    requires ValidBundle(b) && StrictlyOrdered(PairTimes(b.denseBooks))
    ensures QuotesInOrder(b, direction, base)
  {
    hide ValidBundle, ExecutableQuotes, StrictlyOrdered;
    QuotesOrdered(b, direction, base, |b.denseBooks|);
  }

  method LatencyCost(b: Bundle, direction: FundingDirection, base: real) returns (r: LatencyResult)
    requires ValidBundle(b)
    ensures r.Unordered? <==> !QuotesInOrder(b, direction, base)
    ensures r.NoSample? <==> QuotesInOrder(b, direction, base) && !LatencySampled(b, direction, base)
    ensures r.Reserve? ==> r.usd >= 0.0
    ensures r.Reserve? ==> IsLatencyReserve(AllSamples(b, direction, base), DocumentedLatency(b.policy), r.usd)
  {
    var quotes := CollectQuotes(b, direction, base);
    assert DocumentedLatency(b.policy) >= 0.0;
    hide ExecutableQuotes, SamplesBy, IsLatencyReserve, StrictlyOrdered, ValidBundle, DocumentedLatency;
    var reserve := LatencyReserve(quotes, DocumentedLatency(b.policy));
    if reserve.ValueError? {
      return Unordered;
    }
    if reserve.value.None? {
      return NoSample;
    }
    SampleReached(SamplesBy(quotes, |quotes|), DocumentedLatency(b.policy), reserve.value.value);
    LatencyReserveNonnegative(quotes, DocumentedLatency(b.policy), reserve.value.value);
    return Reserve(reserve.value.value);
  }

  /** A reserve rests on some sample at least the documented latency long. */
  lemma SampleReached(samples: seq<LatencySample>, documented: real, reserve: real)
    requires IsLatencyReserve(samples, documented, reserve)
    ensures exists s :: s in samples && s.durationMs >= documented
  {
    var d, a :| IsFloorDuration(samples, documented, d) && IsWorstAt(samples, d, a);
    var i :| 0 <= i < |samples| && samples[i].durationMs == d;
    assert samples[i] in samples;
  }
}
