/** Rolling funding sums, bounded-horizon drawdown and horizon statistics over hourly rows. */
module FundingSeries {
  import opened Numbers
  import opened OrderStatistics
  import opened HourlyWindows

  datatype FundingRow = FundingRow(at: int, value: real)

  function Stamps(rows: seq<FundingRow>): (times: seq<int>)
    ensures |times| == |rows|
  {
    TimesOf(rows, (r: FundingRow) => r.at)
  }

  function Amounts(rows: seq<FundingRow>): (values: seq<real>)
    ensures |values| == |rows|
  {
    seq(|rows|, i requires 0 <= i < |rows| => rows[i].value)
  }

  predicate ValidRows(rows: seq<FundingRow>) {
    rows != [] && StrictlyOrdered(Stamps(rows))
  }

  // ---------------------------------------------------------------- chunks

  ghost predicate IsSlice(rows: seq<FundingRow>, lo: nat, hi: nat, chunk: seq<FundingRow>) {
    lo <= hi <= |rows| && chunk == rows[lo..hi]
  }

  /** The chunks are the slices of rows between consecutive cuts. */
  ghost predicate SlicedAt(rows: seq<FundingRow>, cuts: seq<nat>, chunks: seq<seq<FundingRow>>) {
    && |chunks| == |cuts|
    && forall k :: 0 <= k < |cuts| ==> IsSlice(rows, Before(cuts, k), cuts[k], chunks[k])
  }

  /** The chunks of the first n rows, the last of them still open. */
  ghost predicate ChunksOf(rows: seq<FundingRow>, n: nat, chunks: seq<seq<FundingRow>>) {
    && 0 < n <= |rows|
    && SlicedAt(rows, Jumps(Stamps(rows), n) + [n], chunks)
    && Before(Jumps(Stamps(rows), n), |Jumps(Stamps(rows), n)|) < n
  }

  /** Where the open chunk of the first n rows starts. */
  ghost function OpenFrom(rows: seq<FundingRow>, n: nat): nat
    requires n <= |rows|
  {
    Before(Jumps(Stamps(rows), n), |Jumps(Stamps(rows), n)|)
  }

  lemma OpenSlice(rows: seq<FundingRow>, n: nat, chunks: seq<seq<FundingRow>>)
    requires ChunksOf(rows, n, chunks)
    ensures chunks != [] && |chunks| == |Jumps(Stamps(rows), n)| + 1
    ensures OpenFrom(rows, n) < n && IsSlice(rows, OpenFrom(rows, n), n, chunks[|chunks| - 1])
  {
    var jumps := Jumps(Stamps(rows), n);
    var cuts := jumps + [n];
    hide IsSlice, Jumps;
    assert IsSlice(rows, Before(cuts, |jumps|), cuts[|jumps|], chunks[|jumps|]);
    assert Before(cuts, |jumps|) == Before(jumps, |jumps|);
  }

  lemma LastOfSlice(rows: seq<FundingRow>, lo: nat, n: nat, chunk: seq<FundingRow>)
    requires lo < n && IsSlice(rows, lo, n, chunk)
    ensures chunk != [] && chunk[|chunk| - 1] == rows[n - 1]
    ensures n < |rows| ==> IsSlice(rows, lo, n + 1, chunk + [rows[n]])
  {
  }

  lemma SlicedExtend(rows: seq<FundingRow>, cuts: seq<nat>, chunks: seq<seq<FundingRow>>, n: nat,
                     chunk: seq<FundingRow>)
    requires SlicedAt(rows, cuts, chunks) && IsSlice(rows, Before(cuts, |cuts|), n, chunk)
    ensures SlicedAt(rows, cuts + [n], chunks + [chunk])
  {
    hide IsSlice;
    var cuts', chunks' := cuts + [n], chunks + [chunk];
    forall k | 0 <= k < |cuts'| ensures IsSlice(rows, Before(cuts', k), cuts'[k], chunks'[k]) {
      assert Before(cuts', k) == Before(cuts, k);
      if k < |cuts| {
        assert IsSlice(rows, Before(cuts, k), cuts[k], chunks[k]);
      }
    }
  }

  lemma SlicedPrefix(rows: seq<FundingRow>, cuts: seq<nat>, n: nat, chunks: seq<seq<FundingRow>>)
    requires SlicedAt(rows, cuts + [n], chunks)
    ensures |chunks| == |cuts| + 1 && SlicedAt(rows, cuts, chunks[..|cuts|])
  {
    hide IsSlice;
    forall k | 0 <= k < |cuts| ensures IsSlice(rows, Before(cuts, k), cuts[k], chunks[..|cuts|][k]) {
      assert IsSlice(rows, Before(cuts + [n], k), (cuts + [n])[k], chunks[k]);
      assert Before(cuts + [n], k) == Before(cuts, k);
    }
  }

  lemma ChunkOpens(rows: seq<FundingRow>, n: nat, chunks: seq<seq<FundingRow>>)
    requires ChunksOf(rows, n, chunks) && n < |rows| && !OneHourAfter(Stamps(rows), n)
    ensures ChunksOf(rows, n + 1, chunks + [[rows[n]]])
  {
    var cuts := Jumps(Stamps(rows), n) + [n];
    JumpsStep(Stamps(rows), n);
    BeforeLast(cuts);
    SliceOfOne(rows, n);
    hide Jumps, SlicedAt, OneHourAfter, Before, Stamps, IsSlice;
    SlicedExtend(rows, cuts, chunks, n + 1, [rows[n]]);
  }

  lemma SliceOfOne(rows: seq<FundingRow>, n: nat)
    requires n < |rows|
    ensures IsSlice(rows, n, n + 1, [rows[n]])
  {
  }

  lemma ChunkGrows(rows: seq<FundingRow>, n: nat, chunks: seq<seq<FundingRow>>)
    requires ChunksOf(rows, n, chunks) && n < |rows| && OneHourAfter(Stamps(rows), n)
    ensures chunks != []
    ensures ChunksOf(rows, n + 1, chunks[|chunks| - 1 := chunks[|chunks| - 1] + [rows[n]]])
  {
    var jumps := Jumps(Stamps(rows), n);
    JumpsStep(Stamps(rows), n);
    OpenSlice(rows, n, chunks);
    hide Jumps, SlicedAt, IsSlice, OneHourAfter;
    var grown := chunks[|chunks| - 1] + [rows[n]];
    LastOfSlice(rows, OpenFrom(rows, n), n, chunks[|chunks| - 1]);
    SlicedPrefix(rows, jumps, n, chunks);
    SlicedExtend(rows, jumps, chunks[..|jumps|], n + 1, grown);
    assert chunks[|chunks| - 1 := grown] == chunks[..|jumps|] + [grown];
  }

  /** Opening a chunk at every jump yields the slices between the boundaries. */
  method ContiguousChunks(rows: seq<FundingRow>) returns (chunks: seq<seq<FundingRow>>)
    requires rows != []
    ensures SlicedAt(rows, Boundaries(Stamps(rows)), chunks)
  {
    hide *;
    chunks := [[rows[0]]];
    ChunksStart(rows);
    for n := 1 to |rows|
      invariant ChunksOf(rows, n, chunks)
    {
      LastRow(rows, n, chunks);
      var last := chunks[|chunks| - 1];
      if rows[n].at - last[|last| - 1].at != HOUR {
        ChunkOpens(rows, n, chunks);
        chunks := chunks + [[rows[n]]];
      } else {
        ChunkGrows(rows, n, chunks);
        chunks := chunks[|chunks| - 1 := last + [rows[n]]];
      }
    }
    ChunksEnd(rows, chunks);
  }

  lemma ChunksStart(rows: seq<FundingRow>)
    requires rows != []
    ensures ChunksOf(rows, 1, [[rows[0]]])
  {
    assert IsSlice(rows, 0, 1, [rows[0]]);
  }

  lemma LastRow(rows: seq<FundingRow>, n: nat, chunks: seq<seq<FundingRow>>)
    requires ChunksOf(rows, n, chunks)
    ensures chunks != [] && chunks[|chunks| - 1] != [] && n <= |rows|
    ensures chunks[|chunks| - 1][|chunks[|chunks| - 1]| - 1] == rows[n - 1]
    ensures n < |rows| ==>
      (OneHourAfter(Stamps(rows), n) <==> rows[n].at - rows[n - 1].at == HOUR)
  {
    OpenSlice(rows, n, chunks);
    LastOfSlice(rows, OpenFrom(rows, n), n, chunks[|chunks| - 1]);
    hide IsSlice, ChunksOf, OpenFrom;
  }

  lemma ChunksEnd(rows: seq<FundingRow>, chunks: seq<seq<FundingRow>>)
    requires rows != [] && ChunksOf(rows, |rows|, chunks)
    ensures SlicedAt(rows, Boundaries(Stamps(rows)), chunks)
  {
    hide SlicedAt, Jumps;
  }

  /** Where the k-th chunk starts. */
  ghost function ChunkStart(rows: seq<FundingRow>, k: nat): nat
    requires k <= |Boundaries(Stamps(rows))|
  {
    Before(Boundaries(Stamps(rows)), k)
  }

  lemma NthChunk(rows: seq<FundingRow>, chunks: seq<seq<FundingRow>>, k: nat) returns (lo: nat, hi: nat)
    requires SlicedAt(rows, Boundaries(Stamps(rows)), chunks) && k < |chunks|
    ensures |chunks| == |Boundaries(Stamps(rows))|
    ensures lo == ChunkStart(rows, k) && hi == ChunkStart(rows, k + 1) == lo + |chunks[k]|
    ensures hi <= |rows| && IsChunk(Stamps(rows), lo, hi) && IsSlice(rows, lo, hi, chunks[k])
  {
    BoundariesSplit(Stamps(rows));
    var cuts := Boundaries(Stamps(rows));
    lo, hi := Before(cuts, k), cuts[k];
    assert IsChunk(Stamps(rows), lo, hi) && IsSlice(rows, lo, hi, chunks[k]);
  }

  // ---------------------------------------------------------------- rolling sums

  /** The direct sums of the windows of w rows starting at each of `starts`. */
  ghost function WindowSums(values: seq<real>, starts: seq<nat>, w: nat): seq<real>
    requires FitWithin(starts, w, |values|)
  {
    seq(|starts|, i requires 0 <= i < |starts| => SumRange(values, starts[i], starts[i] + w))
  }

  /** Every hourly window of the horizon, summed directly, in order. */
  ghost function RollingSums(rows: seq<FundingRow>, days: int): seq<real>
    requires ValidHoldingDays(days)
  {
    WindowSums(Amounts(rows), AllStarts(Stamps(rows), days * 24), days * 24)
  }

  /** Rows s..e are hourly, and together cover this many days. */
  ghost predicate CoversDays(times: seq<int>, s: nat, e: nat, days: int) {
    s < e <= |times| && Hourly(times, s, e) && times[e - 1] - (times[s] - 3_600_000_000) == days * 86_400_000_000
  }

  /** Every rolling sum is of an unbroken stretch of exactly the holding period. */
  lemma RollingSumsCover(rows: seq<FundingRow>, days: int, i: nat) returns (s: nat, e: nat)
    requires ValidHoldingDays(days) && i < |RollingSums(rows, days)|
    ensures CoversDays(Stamps(rows), s, e, days)
    ensures RollingSums(rows, days)[i] == SumRange(Amounts(rows), s, e)
  {
    var times := Stamps(rows);
    var starts := AllStarts(times, days * 24);
    WindowStartsMeaning(times, days * 24, |times|);
    hide WindowStarts, SumRange, Amounts, Stamps;
    s, e := starts[i], starts[i] + days * 24;
    assert s in starts;
    HourlyIsProgression(times, s, e);
  }

  lemma WindowSumsConcat(values: seq<real>, a: seq<nat>, b: seq<nat>, w: nat)
    requires FitWithin(a, w, |values|) && FitWithin(b, w, |values|)
    ensures WindowSums(values, a + b, w) == WindowSums(values, a, w) + WindowSums(values, b, w)
  {
  }

  /** The windows of one chunk are those that stay inside it. */
  ghost predicate SumsWithin(values: seq<real>, lo: nat, hi: nat, w: nat, sums: seq<real>) {
    && lo <= hi <= |values|
    && |sums| == LastStart(lo, hi, w) - lo
    && forall i :: 0 <= i < |sums| ==> lo + i + w <= |values| && sums[i] == SumRange(values, lo + i, lo + i + w)
  }

  /** Dropping the first term of a window and appending the next slides its sum by one. */
  lemma SumSlides(values: seq<real>, i: nat, w: nat)
    requires i + w < |values| && w > 0
    ensures SumRange(values, i + 1, i + 1 + w) == SumRange(values, i, i + w) + (values[i + w] - values[i])
  {
    SumSplit(values, i, i + 1, i + w + 1);
  }

  /** One chunk's windows, by a running total. */
  method ChunkSums(rows: seq<FundingRow>, chunk: seq<FundingRow>, ghost lo: nat, w: nat) returns (sums: seq<real>)
    requires w > 0 && IsSlice(rows, lo, lo + |chunk|, chunk)
    ensures SumsWithin(Amounts(rows), lo, lo + |chunk|, w, sums)
  {
    ghost var values := Amounts(rows);
    hide SumRange;
    sums := [];
    if |chunk| < w {
      return;
    }
    var running := Sum(Amounts(chunk[..w]));
    SumAgree(Amounts(chunk[..w]), 0, values, lo, w);
    sums := [running];
    for index := w to |chunk|
      invariant |sums| == index - w + 1
      invariant running == SumRange(values, lo + (index - w), lo + (index - w) + w)
      invariant forall i :: 0 <= i < |sums| ==> sums[i] == SumRange(values, lo + i, lo + i + w)
    {
      assert chunk[index] == rows[lo + index] && chunk[index - w] == rows[lo + index - w];
      SumSlides(values, lo + (index - w), w);
      running := running + (chunk[index].value - chunk[index - w].value);
      sums := sums + [running];
    }
  }

  /** A chunk's own windows complete the enumeration up to its end. */
  lemma WindowsComplete(times: seq<int>, values: seq<real>, lo: nat, hi: nat, w: nat, sums: seq<real>)
    requires w > 0 && |times| == |values| && IsChunk(times, lo, hi) && SumsWithin(values, lo, hi, w, sums)
    ensures WindowSums(values, WindowStarts(times, w, hi), w)
         == WindowSums(values, WindowStarts(times, w, lo), w) + sums
  {
    ChunkStarts(times, w, lo, hi);
    var own := Range(lo, LastStart(lo, hi, w));
    assert WindowSums(values, own, w) == sums;
    hide WindowStarts, IsChunk, WindowSums, SumsWithin;
    WindowSumsConcat(values, WindowStarts(times, w, lo), own, w);
  }

  /** Chunk-then-slide: exactly the direct sums of all hourly windows, in order. */
  method RollingFundingSums(rows: seq<FundingRow>, days: int) returns (r: Outcome<seq<real>>)
    ensures r.Ok? <==> ValidRows(rows) && ValidHoldingDays(days)
    ensures r.Ok? ==> r.value == RollingSums(rows, days)
  {
    if !ValidRows(rows) || !ValidHoldingDays(days) {
      return ValueError;
    }
    var chunks := ContiguousChunks(rows);
    var results := SumsOver(rows, chunks, days * 24);
    SumsEnd(rows, chunks, days, results);
    return Ok(results);
  }

  method SumsOver(rows: seq<FundingRow>, chunks: seq<seq<FundingRow>>, w: nat) returns (results: seq<real>)
    requires w > 0 && SlicedAt(rows, Boundaries(Stamps(rows)), chunks)
    ensures SumsBy(rows, w, |chunks|, results)
  {
    hide *;
    results := [];
    SumsStart(rows, w);
    for k := 0 to |chunks|
      invariant SumsBy(rows, w, k, results)
    {
      ghost var lo, hi := NthChunk(rows, chunks, k);
      var sums := ChunkSums(rows, chunks[k], lo, w);
      SumsAdvance(rows, chunks, w, k, lo, results, sums);
      results := results + sums;
    }
  }

  lemma SumsStart(rows: seq<FundingRow>, w: nat)
    ensures SumsBy(rows, w, 0, [])
  {
  }

  lemma SumsEnd(rows: seq<FundingRow>, chunks: seq<seq<FundingRow>>, days: int, results: seq<real>)
    requires ValidHoldingDays(days) && SlicedAt(rows, Boundaries(Stamps(rows)), chunks)
    requires SumsBy(rows, days * 24, |chunks|, results)
    ensures results == RollingSums(rows, days)
  {
    ChunksCover(rows, chunks);
    hide Boundaries, WindowStarts, SlicedAt, WindowSums;
  }

  /** The sums collected once the first k chunks are done. */
  ghost predicate SumsBy(rows: seq<FundingRow>, w: nat, k: nat, results: seq<real>) {
    && k <= |Boundaries(Stamps(rows))|
    && results == WindowSums(Amounts(rows), WindowStarts(Stamps(rows), w, ChunkStart(rows, k)), w)
  }

  lemma SumsAdvance(rows: seq<FundingRow>, chunks: seq<seq<FundingRow>>, w: nat, k: nat, lo: nat,
                    results: seq<real>, sums: seq<real>)
    requires w > 0 && SlicedAt(rows, Boundaries(Stamps(rows)), chunks) && k < |chunks| && SumsBy(rows, w, k, results)
    requires lo == ChunkStart(rows, k) && SumsWithin(Amounts(rows), lo, lo + |chunks[k]|, w, sums)
    ensures SumsBy(rows, w, k + 1, results + sums)
  {
    var lo', hi := NthChunk(rows, chunks, k);
    hide SlicedAt, IsChunk, IsSlice, WindowStarts, Boundaries, SumsWithin;
    WindowsComplete(Stamps(rows), Amounts(rows), lo, hi, w, sums);
  }

  lemma ChunksCover(rows: seq<FundingRow>, chunks: seq<seq<FundingRow>>)
    requires SlicedAt(rows, Boundaries(Stamps(rows)), chunks)
    ensures |chunks| == |Boundaries(Stamps(rows))|
    ensures ChunkStart(rows, |chunks|) == |rows|
  {
    BoundariesSplit(Stamps(rows));
    BeforeLast(Boundaries(Stamps(rows)));
  }

  // ---------------------------------------------------------------- bounded-horizon drawdown

  /** A run of 1 to `hours` consecutive hourly rows i..j. */
  ghost predicate HourlyRun(times: seq<int>, hours: nat, i: nat, j: nat) {
    i < j <= |times| && j - i <= hours && Hourly(times, i, j)
  }

  /** d is the largest of 0 and every negated sum over an hourly run ending by row n. */
  ghost predicate IsWorstDropBy(times: seq<int>, values: seq<real>, hours: nat, n: nat, d: real)
    requires |times| == |values|
  {
    && d >= 0.0
    && (forall i: nat, j: nat :: j <= n && HourlyRun(times, hours, i, j) ==> -SumRange(values, i, j) <= d)
    && (d == 0.0 || exists i: nat, j: nat :: j <= n && HourlyRun(times, hours, i, j) && d == -SumRange(values, i, j))
  }

  ghost predicate IsWorstDrop(rows: seq<FundingRow>, hours: nat, d: real) {
    IsWorstDropBy(Stamps(rows), Amounts(rows), hours, |rows|, d)
  }

  function MaxOf(s: seq<real>): real
    requires s != []
  {
    if |s| == 1 then s[0] else Max(MaxOf(s[..|s| - 1]), s[|s| - 1])
  }

  lemma {:induction false} MaxOfMeaning(s: seq<real>)
    requires s != []
    ensures MaxOf(s) in s
    ensures forall k :: 0 <= k < |s| ==> s[k] <= MaxOf(s)
  {
    if |s| > 1 {
      MaxOfMeaning(s[..|s| - 1]);
      assert forall x :: x in s[..|s| - 1] ==> x in s;
      assert forall k :: 0 <= k < |s| - 1 ==> s[k] == s[..|s| - 1][k];
    }
  }

  lemma RunStartsAfter(times: seq<int>, hours: nat, i: nat, j: nat, lo: nat)
    requires HourlyRun(times, hours, i, j) && lo < j && (lo > 0 ==> !OneHourAfter(times, lo))
    ensures lo <= i
  {
  }

  /** Adding row `end` of a chunk starting at lo: only the runs that end there are new. */
  lemma DropExtends(times: seq<int>, values: seq<real>, hours: nat, lo: nat, end: nat,
                    prefix: seq<real>, earliest: nat, d: real, d': real)
    requires |times| == |values| && lo < end <= |times| && hours > 0
    requires Hourly(times, lo, end) && (lo > 0 ==> !OneHourAfter(times, lo))
    requires |prefix| > end - lo && PrefixSums(values, lo, prefix)
    requires earliest == (if end - lo <= hours then 0 else end - lo - hours)
    requires IsWorstDropBy(times, values, hours, end - 1, d)
    requires d' == Max(d, MaxOf(prefix[earliest..end - lo]) - prefix[end - lo])
    ensures IsWorstDropBy(times, values, hours, end, d')
  {
    var peaks := prefix[earliest..end - lo];
    MaxOfMeaning(peaks);
    forall i: nat, j: nat | j <= end && HourlyRun(times, hours, i, j)
      ensures -SumRange(values, i, j) <= d'
    {
      if j == end {
        RunStartsAfter(times, hours, i, end, lo);
        SumSplit(values, lo, i, end);
        assert peaks[i - lo - earliest] == prefix[i - lo];
      }
    }
    if d' == d {
      if d != 0.0 {
        var i: nat, j: nat :| j <= end - 1 && HourlyRun(times, hours, i, j) && d == -SumRange(values, i, j);
      }
    } else {
      var i := PeakRun(times, values, hours, lo, end, prefix, earliest);
      assert d' == -SumRange(values, i, end);
    }
  }

  /** The highest recent prefix marks a run ending at `end`. */
  lemma PeakRun(times: seq<int>, values: seq<real>, hours: nat, lo: nat, end: nat, prefix: seq<real>, earliest: nat)
    returns (i: nat)
    requires |times| == |values| && lo < end <= |times| && hours > 0 && Hourly(times, lo, end)
    requires |prefix| > end - lo && PrefixSums(values, lo, prefix)
    requires earliest == (if end - lo <= hours then 0 else end - lo - hours)
    ensures HourlyRun(times, hours, i, end)
    ensures MaxOf(prefix[earliest..end - lo]) - prefix[end - lo] == -SumRange(values, i, end)
  {
    var peaks := prefix[earliest..end - lo];
    MaxOfMeaning(peaks);
    var m :| 0 <= m < |peaks| && peaks[m] == MaxOf(peaks);
    i := lo + earliest + m;
    assert prefix[earliest + m] == peaks[m];
    hide MaxOf;
    SumSplit(values, lo, i, end);
  }

  /** The prefix sums of a chunk starting at lo. */
  ghost predicate PrefixSums(values: seq<real>, lo: nat, prefix: seq<real>) {
    && prefix != [] && lo + |prefix| - 1 <= |values|
    && forall k :: 0 <= k < |prefix| ==> prefix[k] == SumRange(values, lo, lo + k)
  }

  method ChunkDrawdown(rows: seq<FundingRow>, chunk: seq<FundingRow>, ghost lo: nat, hours: nat, start: real)
    returns (maximum: real)
    requires hours > 0 && IsSlice(rows, lo, lo + |chunk|, chunk) && lo + |chunk| <= |rows|
    requires IsChunk(Stamps(rows), lo, lo + |chunk|)
    requires IsWorstDropBy(Stamps(rows), Amounts(rows), hours, lo, start)
    ensures IsWorstDropBy(Stamps(rows), Amounts(rows), hours, lo + |chunk|, maximum)
  {
    hide *;
    maximum := start;
    var prefix := PrefixOf(rows, chunk, lo);
    for end := 1 to |prefix|
      invariant IsWorstDropBy(Stamps(rows), Amounts(rows), hours, lo + end - 1, maximum)
    {
      var earliest := if end - hours > 0 then end - hours else 0;
      var peak := MaxOf(prefix[earliest..end]);
      PeakStep(rows, lo, |chunk|, hours, prefix, end, earliest, maximum);
      maximum := Max(maximum, peak - prefix[end]);
    }
  }

  lemma PeakStep(rows: seq<FundingRow>, lo: nat, size: nat, hours: nat, prefix: seq<real>, end: nat, earliest: nat,
                 d: real)
    requires hours > 0 && lo + size <= |rows| && IsChunk(Stamps(rows), lo, lo + size)
    requires |prefix| == size + 1 && PrefixSums(Amounts(rows), lo, prefix) && 0 < end <= size
    requires earliest == if end - hours > 0 then end - hours else 0
    requires IsWorstDropBy(Stamps(rows), Amounts(rows), hours, lo + end - 1, d)
    ensures IsWorstDropBy(Stamps(rows), Amounts(rows), hours, lo + end,
      Max(d, MaxOf(prefix[earliest..end]) - prefix[end]))
  {
    hide IsWorstDropBy, MaxOf, Max, Stamps, Amounts, PrefixSums, OneHourAfter;
    DropExtends(Stamps(rows), Amounts(rows), hours, lo, lo + end, prefix, earliest, d,
                Max(d, MaxOf(prefix[earliest..end]) - prefix[end]));
  }

  /** Accumulates the prefix sums of a chunk. */
  method PrefixOf(rows: seq<FundingRow>, chunk: seq<FundingRow>, ghost lo: nat) returns (prefix: seq<real>)
    requires IsSlice(rows, lo, lo + |chunk|, chunk)
    ensures |prefix| == |chunk| + 1 && PrefixSums(Amounts(rows), lo, prefix)
  {
    prefix := [0.0];
    for k := 0 to |chunk|
      invariant |prefix| == k + 1 && PrefixSums(Amounts(rows), lo, prefix)
    {
      assert Amounts(rows)[lo + k] == chunk[k].value;
      prefix := prefix + [prefix[|prefix| - 1] + chunk[k].value];
    }
  }

  /** The prefix-and-peak scan finds the worst hourly run of the horizon. */
  method MaximumFundingDrawdown(rows: seq<FundingRow>, days: int) returns (r: Outcome<real>)
    ensures r.Ok? <==> ValidRows(rows) && ValidHoldingDays(days)
    ensures r.Ok? ==> IsWorstDrop(rows, days * 24, r.value)
  {
    if !ValidRows(rows) || !ValidHoldingDays(days) {
      return ValueError;
    }
    var chunks := ContiguousChunks(rows);
    var maximum := DrawdownOver(rows, chunks, days * 24);
    DropEnd(rows, chunks, days * 24, maximum);
    return Ok(maximum);
  }

  method DrawdownOver(rows: seq<FundingRow>, chunks: seq<seq<FundingRow>>, hours: nat) returns (maximum: real)
    requires hours > 0 && SlicedAt(rows, Boundaries(Stamps(rows)), chunks)
    ensures DropBy(rows, hours, |chunks|, maximum)
  {
    hide *;
    maximum := 0.0;
    DropStart(rows, hours);
    for k := 0 to |chunks|
      invariant DropBy(rows, hours, k, maximum)
    {
      ghost var lo, hi := NthChunk(rows, chunks, k);
      DropHere(rows, hours, k, maximum);
      maximum := ChunkDrawdown(rows, chunks[k], lo, hours, maximum);
      DropNext(rows, hours, k, maximum);
    }
  }

  /** The worst drop once the first k chunks are done. */
  ghost predicate DropBy(rows: seq<FundingRow>, hours: nat, k: nat, d: real) {
    && k <= |Boundaries(Stamps(rows))|
    && IsWorstDropBy(Stamps(rows), Amounts(rows), hours, ChunkStart(rows, k), d)
  }

  lemma DropStart(rows: seq<FundingRow>, hours: nat)
    ensures DropBy(rows, hours, 0, 0.0)
  {
  }

  lemma DropHere(rows: seq<FundingRow>, hours: nat, k: nat, d: real)
    requires DropBy(rows, hours, k, d)
    ensures k <= |Boundaries(Stamps(rows))|
    ensures IsWorstDropBy(Stamps(rows), Amounts(rows), hours, ChunkStart(rows, k), d)
  {
    hide IsWorstDropBy;
  }

  lemma DropNext(rows: seq<FundingRow>, hours: nat, k: nat, d: real)
    requires k < |Boundaries(Stamps(rows))|
    requires IsWorstDropBy(Stamps(rows), Amounts(rows), hours, ChunkStart(rows, k + 1), d)
    ensures DropBy(rows, hours, k + 1, d)
  {
    hide IsWorstDropBy;
  }

  lemma DropEnd(rows: seq<FundingRow>, chunks: seq<seq<FundingRow>>, hours: nat, d: real)
    requires SlicedAt(rows, Boundaries(Stamps(rows)), chunks) && DropBy(rows, hours, |chunks|, d)
    ensures IsWorstDrop(rows, hours, d)
  {
    ChunksCover(rows, chunks);
    hide IsWorstDropBy, Boundaries, SlicedAt;
  }

  lemma WorstDropUnique(rows: seq<FundingRow>, hours: nat, d: real, d': real)
    requires IsWorstDrop(rows, hours, d) && IsWorstDrop(rows, hours, d')
    ensures d == d'
  {
    WorstDropMonotone(rows, hours, d, hours, d');
    WorstDropMonotone(rows, hours, d', hours, d);
  }

  /** A longer horizon never has a smaller drawdown. */
  lemma WorstDropMonotone(rows: seq<FundingRow>, hours: nat, d: real, hours': nat, d': real)
    requires hours <= hours' && IsWorstDrop(rows, hours, d) && IsWorstDrop(rows, hours', d')
    ensures d <= d'
  {
    var times, values := Stamps(rows), Amounts(rows);
    if d != 0.0 {
      var i: nat, j: nat :| j <= |rows| && HourlyRun(times, hours, i, j) && d == -SumRange(values, i, j);
      assert HourlyRun(times, hours', i, j);
    }
  }

  // ---------------------------------------------------------------- horizon statistics

  datatype HorizonStatistics = HorizonStatistics(
    holdingDays: int,
    completeWindowCount: nat,
    percentile05Sum: real,
    maximumDrawdown: real)

  ghost predicate IsHorizonStatistics(rows: seq<FundingRow>, days: int, s: HorizonStatistics) {
    && ValidHoldingDays(days)
    && var sums := RollingSums(rows, days);
    && sums != []
    && s.holdingDays == days
    && s.completeWindowCount == |sums|
    && s.percentile05Sum == RankValue(sums, 0.05)
    && IsWorstDrop(rows, days * 24, s.maximumDrawdown)
  }

  method FundingHorizonStatistics(rows: seq<FundingRow>, days: int) returns (r: Outcome<HorizonStatistics>)
    ensures r.Ok? <==> ValidRows(rows) && ValidHoldingDays(days) && RollingSums(rows, days) != []
    ensures r.Ok? ==> IsHorizonStatistics(rows, days, r.value)
  {
    var sums := RollingFundingSums(rows, days);
    if sums.ValueError? || sums.value == [] {
      return ValueError;
    }
    var drawdown := MaximumFundingDrawdown(rows, days);
    hide RollingSums, RankValue, IsWorstDrop, ValidRows;
    var percentile := NearestRank(sums.value, 0.05);
    return Ok(HorizonStatistics(days, |sums.value|, percentile.value, drawdown.value));
  }
}
