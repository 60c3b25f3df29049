/** Basis-divergence and latency reserves taken from paired book observations. */
module Reserves {
  import opened Numbers
  import opened OrderBook
  import opened OrderStatistics
  import opened HourlyWindows

  datatype PairedBooks = PairedBooks(at: int, lighter: Book, dydx: Book)

  ghost predicate ValidPairs(rows: seq<PairedBooks>) {
    forall i :: 0 <= i < |rows| ==> ValidBook(rows[i].lighter) && ValidBook(rows[i].dydx)
  }

  function PairTimes(rows: seq<PairedBooks>): (times: seq<int>)
    ensures |times| == |rows|
  {
    TimesOf(rows, (r: PairedBooks) => r.at)
  }

  // ---------------------------------------------------------------- basis

  /** The relative Lighter premium, signed so that a rise hurts the position. */
  function FixedDirectionBasis(row: PairedBooks, direction: FundingDirection): real
    requires ValidBook(row.lighter) && ValidBook(row.dydx)
  {
    var lighter, dydx := Midpoint(row.lighter), Midpoint(row.dydx);
    var differential := lighter - dydx;
    (if direction.ShortDydxLongLighter? then -differential else differential) / ((lighter + dydx) / 2.0)
  }

  /** How much the basis moved against the position over the window starting at s. */
  function AdverseChange(rows: seq<PairedBooks>, direction: FundingDirection, s: nat, w: nat): real
    requires ValidPairs(rows) && w > 0 && s + w <= |rows|
  {
    Max(0.0, FixedDirectionBasis(rows[s + w - 1], direction) - FixedDirectionBasis(rows[s], direction))
  }

  ghost function ChangesAt(rows: seq<PairedBooks>, direction: FundingDirection, starts: seq<nat>, w: nat): seq<real>
    requires ValidPairs(rows) && w > 0 && FitWithin(starts, w, |rows|)
  {
    seq(|starts|, i requires 0 <= i < |starts| => AdverseChange(rows, direction, starts[i], w))
  }

  /** The adverse changes over every hourly window, in order. */
  ghost function AllChanges(rows: seq<PairedBooks>, direction: FundingDirection, w: nat): seq<real>
    requires ValidPairs(rows) && w > 0
  {
    ChangesAt(rows, direction, AllStarts(PairTimes(rows), w), w)
  }

  ghost predicate ChangesWithin(rows: seq<PairedBooks>, direction: FundingDirection, lo: nat, hi: nat, w: nat,
                                count: nat, changes: seq<real>)
    requires ValidPairs(rows)
  {
    && w > 0 && lo <= hi <= |rows| && |changes| == count <= LastStart(lo, hi, w) - lo
    && forall i :: 0 <= i < count ==> lo + i + w <= |rows| && changes[i] == AdverseChange(rows, direction, lo + i, w)
  }

  method ChunkChanges(rows: seq<PairedBooks>, direction: FundingDirection, lo: nat, hi: nat, w: nat)
    returns (changes: seq<real>)
    requires ValidPairs(rows) && w > 0 && lo <= hi <= |rows|
    ensures ChangesWithin(rows, direction, lo, hi, w, LastStart(lo, hi, w) - lo, changes)
  {
    hide FixedDirectionBasis, ValidBook, Max;
    changes := [];
    var chunk := rows[lo..hi];
    var count := if |chunk| < w then 0 else |chunk| - w + 1;
    for start := 0 to count
      invariant ChangesWithin(rows, direction, lo, hi, w, start, changes)
    {
      assert chunk[start] == rows[lo + start] && chunk[start + w - 1] == rows[lo + start + w - 1];
      var first := FixedDirectionBasis(chunk[start], direction);
      var last := FixedDirectionBasis(chunk[start + w - 1], direction);
      changes := changes + [Max(0.0, last - first)];
    }
  }

  ghost predicate ChangesBy(rows: seq<PairedBooks>, direction: FundingDirection, w: nat, k: nat, changes: seq<real>)
    requires ValidPairs(rows)
  {
    && w > 0 && k <= |Boundaries(PairTimes(rows))|
    && Before(Boundaries(PairTimes(rows)), k) <= |rows|
    && var end := Before(Boundaries(PairTimes(rows)), k);
    && changes == ChangesAt(rows, direction, WindowStarts(PairTimes(rows), w, end), w)
  }

  lemma ChangesStart(rows: seq<PairedBooks>, direction: FundingDirection, w: nat)
    requires ValidPairs(rows) && w > 0
    ensures ChangesBy(rows, direction, w, 0, [])
  {
  }

  lemma ChangesNext(rows: seq<PairedBooks>, direction: FundingDirection, w: nat, k: nat, lo: nat, hi: nat,
                    changes: seq<real>, more: seq<real>)
    requires ValidPairs(rows) && ChangesBy(rows, direction, w, k, changes) && k < |Boundaries(PairTimes(rows))|
    requires lo == Before(Boundaries(PairTimes(rows)), k) <= hi == Boundaries(PairTimes(rows))[k]
    requires ChangesWithin(rows, direction, lo, hi, w, LastStart(lo, hi, w) - lo, more)
    ensures ChangesBy(rows, direction, w, k + 1, changes + more)
  {
    var times := PairTimes(rows);
    NthBoundary(times, k);
    hide Boundaries, Before, PairTimes, ValidPairs;
    ChunkStarts(times, w, lo, hi);
    hide IsChunk, WindowStarts, AdverseChange, ChangesAt, ChangesWithin, LastStart, Range;
    OwnChanges(rows, direction, WindowStarts(times, w, lo), lo, hi, w, more);
  }

  /** A chunk's own windows contribute the changes found inside it. */
  lemma OwnChanges(rows: seq<PairedBooks>, direction: FundingDirection, starts: seq<nat>, lo: nat, hi: nat, w: nat,
                   more: seq<real>)
    requires ValidPairs(rows) && w > 0 && FitWithin(starts, w, |rows|) && lo <= hi
    requires ChangesWithin(rows, direction, lo, hi, w, LastStart(lo, hi, w) - lo, more)
    ensures FitWithin(starts + Range(lo, LastStart(lo, hi, w)), w, |rows|)
    ensures ChangesAt(rows, direction, starts + Range(lo, LastStart(lo, hi, w)), w)
      == ChangesAt(rows, direction, starts, w) + more
  {
    hide ValidPairs, AdverseChange;
  }

  lemma ChangesEnd(rows: seq<PairedBooks>, direction: FundingDirection, w: nat, changes: seq<real>)
    requires ValidPairs(rows) && w > 0 && ChangesBy(rows, direction, w, |Boundaries(PairTimes(rows))|, changes)
    ensures changes == AllChanges(rows, direction, w)
  {
    BoundariesSplit(PairTimes(rows));
    BeforeLast(Boundaries(PairTimes(rows)));
    hide Boundaries, WindowStarts, ChangesAt, ValidPairs;
  }

  method CollectChanges(rows: seq<PairedBooks>, direction: FundingDirection, w: nat) returns (changes: seq<real>)
    requires ValidPairs(rows) && w > 0
    ensures changes == AllChanges(rows, direction, w)
  {
    hide *;
    changes := [];
    var boundaries := Boundaries(PairTimes(rows));
    var chunkStart := 0;
    ChangesStart(rows, direction, w);
    BeforeFirst(boundaries);
    for k := 0 to |boundaries|
      invariant chunkStart == Before(boundaries, k)
      invariant ChangesBy(rows, direction, w, k, changes)
    {
      NthBoundary(PairTimes(rows), k);
      var more := ChunkChanges(rows, direction, chunkStart, boundaries[k], w);
      ChangesNext(rows, direction, w, k, chunkStart, boundaries[k], changes, more);
      changes := changes + more;
      chunkStart := boundaries[k];
    }
    ChangesEnd(rows, direction, w, changes);
  }

  ghost predicate BasisComputable(rows: seq<PairedBooks>, direction: FundingDirection, days: int)
    requires ValidPairs(rows)
  {
    && rows != [] && StrictlyOrdered(PairTimes(rows)) && ValidHoldingDays(days)
    && AllChanges(rows, direction, days * 24) != []
  }

  /** The 99th percentile of the adverse basis change over every hourly window. */
  method BasisReserve(rows: seq<PairedBooks>, direction: FundingDirection, days: int) returns (r: Outcome<real>)
    requires ValidPairs(rows)
    ensures r.Ok? <==> BasisComputable(rows, direction, days)
    ensures r.Ok? ==> r.value == RankValue(AllChanges(rows, direction, days * 24), 0.99)
  {
    if rows == [] || !StrictlyOrdered(PairTimes(rows)) || !ValidHoldingDays(days) {
      return ValueError;
    }
    var changes := CollectChanges(rows, direction, days * 24);
    if changes == [] {
      return ValueError;
    }
    return NearestRank(changes, 0.99);
  }

  lemma {:induction false} PercentileNonnegative(values: seq<real>, p: real)
    requires values != [] && 0.0 < p <= 1.0 && forall i :: 0 <= i < |values| ==> values[i] >= 0.0
    ensures RankValue(values, p) >= 0.0
  {
    NearestRankMeaning(values, p);
  }

  lemma BasisReserveNonnegative(rows: seq<PairedBooks>, direction: FundingDirection, days: int)
    requires ValidPairs(rows) && BasisComputable(rows, direction, days)
    ensures RankValue(AllChanges(rows, direction, days * 24), 0.99) >= 0.0
  {
    hide RankValue, FixedDirectionBasis;
    PercentileNonnegative(AllChanges(rows, direction, days * 24), 0.99);
  }

  // ---------------------------------------------------------------- latency

  datatype QuoteObservation = QuoteObservation(at: int, cost: real)

  datatype LatencySample = LatencySample(durationMs: real, adverse: real)

  /** Five seconds in microseconds. */
  const SAMPLE_LIMIT := 5_000_000

  function ObservationTimes(observations: seq<QuoteObservation>): (times: seq<int>)
    ensures |times| == |observations|
  {
    TimesOf(observations, (o: QuoteObservation) => o.at)
  }

  /** The samples between adjacent observations at most five seconds apart, below index n. */
  function SamplesBy(observations: seq<QuoteObservation>, n: nat): seq<LatencySample>
    requires n <= |observations|
  {
    if n <= 1 then []
    else
      var left, right := observations[n - 2], observations[n - 1];
      var elapsed := right.at - left.at;
      SamplesBy(observations, n - 1)
      + (if 0 < elapsed <= SAMPLE_LIMIT
         then [LatencySample(elapsed as real / 1000.0, Max(0.0, right.cost - left.cost))] else [])
  }

  function AdversesOf(samples: seq<LatencySample>): (values: seq<real>)
    ensures |values| == |samples|
  {
    seq(|samples|, i requires 0 <= i < |samples| => samples[i].adverse)
  }

  /** d is the shortest sampled duration not below the documented latency. */
  ghost predicate IsFloorDuration(samples: seq<LatencySample>, documented: real, d: real) {
    && d >= documented
    && (exists i :: 0 <= i < |samples| && samples[i].durationMs == d)
    && forall i :: 0 <= i < |samples| && samples[i].durationMs >= documented ==> d <= samples[i].durationMs
  }

  /** a is the worst adverse move among the samples of duration d. */
  ghost predicate IsWorstAt(samples: seq<LatencySample>, d: real, a: real) {
    && (exists i :: 0 <= i < |samples| && samples[i] == LatencySample(d, a))
    && forall i :: 0 <= i < |samples| && samples[i].durationMs == d ==> samples[i].adverse <= a
  }

  /** The reserve: the larger of the floor-duration worst case and the 99th percentile. */
  ghost predicate IsLatencyReserve(samples: seq<LatencySample>, documented: real, reserve: real) {
    && samples != []
    && exists d, a :: IsFloorDuration(samples, documented, d) && IsWorstAt(samples, d, a)
         && reserve == Max(a, RankValue(AdversesOf(samples), 0.99))
  }

  method FloorDuration(samples: seq<LatencySample>, documented: real) returns (r: Option<real>)
    ensures r.Some? ==> IsFloorDuration(samples, documented, r.value)
    ensures r.None? ==> forall i :: 0 <= i < |samples| ==> samples[i].durationMs < documented
  {
    r := None;
    for k := 0 to |samples|
      invariant r.Some? ==> IsFloorDuration(samples[..k], documented, r.value)
      invariant r.None? ==> forall i :: 0 <= i < k ==> samples[i].durationMs < documented
    {
      assert samples[..k + 1] == samples[..k] + [samples[k]];
      if samples[k].durationMs >= documented && (r.None? || samples[k].durationMs < r.value) {
        assert samples[..k + 1][k].durationMs == samples[k].durationMs;
        r := Some(samples[k].durationMs);
      } else if r.Some? {
        var j :| 0 <= j < k && samples[j].durationMs == r.value;
        assert samples[..k + 1][j].durationMs == r.value;
      }
    }
    assert samples[..|samples|] == samples;
  }

  method WorstAt(samples: seq<LatencySample>, d: real) returns (a: real)
    requires exists i :: 0 <= i < |samples| && samples[i].durationMs == d
    ensures IsWorstAt(samples, d, a)
  {
    var best: Option<real> := None;
    for k := 0 to |samples|
      invariant best.Some? ==> exists i :: 0 <= i < k && samples[i] == LatencySample(d, best.value)
      invariant forall i :: 0 <= i < k && samples[i].durationMs == d ==> best.Some? && samples[i].adverse <= best.value
    {
      if samples[k].durationMs == d && (best.None? || samples[k].adverse > best.value) {
        assert samples[k] == LatencySample(d, samples[k].adverse);
        best := Some(samples[k].adverse);
      }
    }
    a := best.value;
  }

  method CollectSamples(observations: seq<QuoteObservation>) returns (samples: seq<LatencySample>)
    ensures samples == SamplesBy(observations, |observations|)
  {
    samples := [];
    var n := 1;
    while n < |observations|
      invariant n == 1 || n <= |observations|
      invariant samples == SamplesBy(observations, if n <= |observations| then n else 0)
    {
      var left, right := observations[n - 1], observations[n];
      var elapsed := right.at - left.at;
      if 0 < elapsed <= SAMPLE_LIMIT {
        samples := samples + [LatencySample(elapsed as real / 1000.0, Max(0.0, right.cost - left.cost))];
      } else {
        assert samples + [] == samples;
      }
      n := n + 1;
    }
  }

  /** None when no adjacent pair within five seconds is at least the documented latency apart. */
  method LatencyReserve(observations: seq<QuoteObservation>, documentedMs: real) returns (r: Outcome<Option<real>>)
    ensures r.Ok? <==> documentedMs >= 0.0 && StrictlyOrdered(ObservationTimes(observations))
    ensures r.Ok? && r.value.None? <==>
      && documentedMs >= 0.0 && StrictlyOrdered(ObservationTimes(observations))
      && forall s :: s in SamplesBy(observations, |observations|) ==> s.durationMs < documentedMs
    ensures r.Ok? && r.value.Some? ==>
      IsLatencyReserve(SamplesBy(observations, |observations|), documentedMs, r.value.value)
  {
    if documentedMs < 0.0 || !StrictlyOrdered(ObservationTimes(observations)) {
      return ValueError;
    }
    var samples := CollectSamples(observations);
    if samples == [] {
      return Ok(None);
    }
    hide SamplesBy, StrictlyOrdered, RankValue;
    var floorDuration := FloorDuration(samples, documentedMs);
    if floorDuration.None? {
      return Ok(None);
    }
    var floorObservation := WorstAt(samples, floorDuration.value);
    var empirical := NearestRank(AdversesOf(samples), 0.99);
    return Ok(Some(Max(floorObservation, empirical.value)));
  }

  /** The reserve is determined by the samples and the documented latency. */
  lemma LatencyReserveUnique(samples: seq<LatencySample>, documented: real, r: real, r': real)
    requires IsLatencyReserve(samples, documented, r) && IsLatencyReserve(samples, documented, r')
    ensures r == r'
  {
    hide RankValue;
    var d, a :| IsFloorDuration(samples, documented, d) && IsWorstAt(samples, d, a)
      && r == Max(a, RankValue(AdversesOf(samples), 0.99));
    var d', a' :| IsFloorDuration(samples, documented, d') && IsWorstAt(samples, d', a')
      && r' == Max(a', RankValue(AdversesOf(samples), 0.99));
    assert d == d';
    assert a == a';
  }

  ghost predicate CoversDuration(samples: seq<LatencySample>, d: real, reserve: real) {
    forall i :: 0 <= i < |samples| && samples[i].durationMs == d ==> samples[i].adverse <= reserve
  }

  /**
   * The reserve covers every sampled move at the floor duration and, by count, at least 99
   * percent of all sampled moves.
   */
  lemma LatencyReserveCovers(samples: seq<LatencySample>, documented: real, reserve: real)
    requires IsLatencyReserve(samples, documented, reserve)
    ensures exists d :: IsFloorDuration(samples, documented, d) && CoversDuration(samples, d, reserve)
    ensures CountAtMost(AdversesOf(samples), reserve) as real >= 0.99 * |samples| as real
  {
    var values := AdversesOf(samples);
    NearestRankMeaning(values, 0.99);
    var x := RankValue(values, 0.99);
    hide RankValue;
    CountGrows(values, x, reserve);
  }

  lemma {:induction false} CountGrows(s: seq<real>, x: real, y: real)
    requires x <= y
    ensures CountAtMost(s, x) <= CountAtMost(s, y)
  {
    if s != [] {
      CountGrows(s[1..], x, y);
    }
  }

  lemma {:induction false} SamplesNonnegative(observations: seq<QuoteObservation>, n: nat)
    requires n <= |observations|
    ensures forall i :: 0 <= i < |SamplesBy(observations, n)| ==> SamplesBy(observations, n)[i].adverse >= 0.0
  {
    if n > 1 {
      SamplesNonnegative(observations, n - 1);
    }
  }

  lemma LatencyReserveNonnegative(observations: seq<QuoteObservation>, documented: real, reserve: real)
    requires IsLatencyReserve(SamplesBy(observations, |observations|), documented, reserve)
    ensures reserve >= 0.0
  {
    SamplesNonnegative(observations, |observations|);
    hide SamplesBy, RankValue;
    PercentileNonnegative(AdversesOf(SamplesBy(observations, |observations|)), 0.99);
  }
}
