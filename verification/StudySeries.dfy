/** Sequence statistics of the paired spreads: holding windows, drawdown, adverse runs and signs. */
module StudySeries {
  import opened Numbers
  import opened HourlyWindows
  import opened FundingSeries
  import opened StudyBlocks
  import opened StudyPairing

  // ---------------------------------------------------------------- holding windows

  predicate FollowsDirectly(blocks: seq<PairedBlock>, k: nat)
    requires 0 < k < |blocks|
  {
    blocks[k].blockEnd - blocks[k - 1].blockEnd == BLOCK
  }

  /** Blocks i..j follow each other without a gap. */
  ghost predicate Gapless(blocks: seq<PairedBlock>, i: nat, j: nat) {
    i <= j <= |blocks| && forall k :: i < k < j ==> FollowsDirectly(blocks, k)
  }

  /** A gapless stretch holds one block for every eight hours: its k-th ends exactly k blocks after its first. */
  lemma {:induction false} GaplessIsProgression(blocks: seq<PairedBlock>, i: nat, j: nat)
    requires i <= j <= |blocks|
    ensures Gapless(blocks, i, j) <==>
      forall k :: i <= k < j ==> blocks[k].blockEnd == blocks[i].blockEnd + (k - i) * 28_800_000_000
    decreases j
  {
    if i + 1 < j {
      GaplessIsProgression(blocks, i, j - 1);
      var n := j - 1;
      assert FollowsDirectly(blocks, n) <==> blocks[n].blockEnd - blocks[n - 1].blockEnd == BLOCK;
    }
  }

  /** In order, the starts below n of gapless windows of w blocks. */
  ghost function HoldingStarts(blocks: seq<PairedBlock>, w: nat, n: nat): (starts: seq<nat>)
    ensures FitWithin(starts, w, |blocks|)
  {
    if n == 0 then []
    else HoldingStarts(blocks, w, n - 1) + (if Gapless(blocks, n - 1, n - 1 + w) then [n - 1] else [])
  }

  /** The direct sums of every gapless window of the holding period, in order. */
  ghost function HoldingSums(blocks: seq<PairedBlock>, days: nat): seq<real> {
    WindowSums(Spreads(blocks), HoldingStarts(blocks, days * 3, |blocks|), days * 3)
  }

  lemma NoLateStarts(blocks: seq<PairedBlock>, w: nat, n: nat)
    requires n <= |blocks| && w > 0 && (n + w > |blocks|)
    ensures HoldingStarts(blocks, w, |blocks|) == HoldingStarts(blocks, w, n)
    decreases |blocks| - n
  {
    if n < |blocks| {
      NoLateStarts(blocks, w, n + 1);
    }
  }

  lemma HoldingStep(blocks: seq<PairedBlock>, w: nat, n: nat, values: seq<real>)
    requires n + w <= |blocks| && values == WindowSums(Spreads(blocks), HoldingStarts(blocks, w, n), w)
    ensures WindowSums(Spreads(blocks), HoldingStarts(blocks, w, n + 1), w)
         == if Gapless(blocks, n, n + w) then values + [SumRange(Spreads(blocks), n, n + w)] else values
  {
    hide Gapless, SumRange, Spreads;
  }

  /** The window's own test: adjacent ends inside the slice are one block apart. */
  predicate Contiguous(window: seq<PairedBlock>) {
    forall k :: 0 < k < |window| ==> FollowsDirectly(window, k)
  }

  lemma SliceWindow(blocks: seq<PairedBlock>, n: nat, w: nat)
    requires n + w <= |blocks|
    ensures Contiguous(blocks[n..n + w]) <==> Gapless(blocks, n, n + w)
    ensures Sum(SpreadsOf(blocks[n..n + w])) == SumRange(Spreads(blocks), n, n + w)
  {
    var window := blocks[n..n + w];
    if Contiguous(window) {
      forall k | n < k < n + w ensures FollowsDirectly(blocks, k) {
        assert FollowsDirectly(window, k - n);
      }
    }
    if Gapless(blocks, n, n + w) {
      forall k | 0 < k < w ensures FollowsDirectly(window, k) {
        assert FollowsDirectly(blocks, n + k);
      }
    }
    assert SpreadsOf(window)[0..0 + w] == Spreads(blocks)[n..n + w];
    SumAgree(SpreadsOf(window), 0, Spreads(blocks), n, w);
  }

  function SpreadsOf(blocks: seq<PairedBlock>): (r: seq<real>)
    ensures r == Spreads(blocks)
  {
    seq(|blocks|, i requires 0 <= i < |blocks| => blocks[i].spread)
  }

  /** Slides over every start, keeping the sums of the windows without a gap. */
  method HoldingWindowSums(blocks: seq<PairedBlock>, days: nat) returns (values: seq<real>)
    requires days > 0
    ensures values == HoldingSums(blocks, days)
    ensures values != [] ==> blocks != []
  {
    hide Gapless, Contiguous, SumRange, Sum, WindowSums, Spreads, SpreadsOf;
    var w := days * 3;
    values := [];
    NoWindows(blocks, w);
    var n := 0;
    while n + w <= |blocks|
      invariant n <= |blocks|
      invariant values == WindowSums(Spreads(blocks), HoldingStarts(blocks, w, n), w)
      invariant blocks == [] ==> values == []
    {
      var window := blocks[n..n + w];
      SliceWindow(blocks, n, w);
      HoldingStep(blocks, w, n, values);
      if Contiguous(window) {
        values := values + [Sum(SpreadsOf(window))];
      }
      n := n + 1;
    }
    NoLateStarts(blocks, w, n);
  }

  lemma NoWindows(blocks: seq<PairedBlock>, w: nat)
    ensures WindowSums(Spreads(blocks), HoldingStarts(blocks, w, 0), w) == []
  {
  }

  /** A window counts exactly when its blocks are gapless. */
  lemma {:induction false} HoldingStartsMeaning(blocks: seq<PairedBlock>, w: nat, n: nat)
    ensures forall s: nat :: s in HoldingStarts(blocks, w, n) <==> s < n && Gapless(blocks, s, s + w)
    ensures Increasing(HoldingStarts(blocks, w, n))
  {
    if n > 0 {
      HoldingStartsMeaning(blocks, w, n - 1);
      hide Gapless, Increasing;
      var starts := HoldingStarts(blocks, w, n - 1);
      assert forall i :: 0 <= i < |starts| ==> starts[i] in starts;
      IncreasingAppend(starts, n - 1);
    }
  }

  /** Blocks s..e follow each other without a gap, and together last this many days. */
  ghost predicate SpansDays(blocks: seq<PairedBlock>, s: nat, e: nat, days: nat) {
    s < e && Gapless(blocks, s, e)
      && blocks[e - 1].blockEnd - (blocks[s].blockEnd - 28_800_000_000) == days * 86_400_000_000
  }

  /** Every holding sum is the spread earned over an unbroken stretch of exactly the holding period. */
  lemma HoldingSumsSpan(blocks: seq<PairedBlock>, days: nat, i: nat) returns (s: nat, e: nat)
    requires days > 0 && i < |HoldingSums(blocks, days)|
    ensures SpansDays(blocks, s, e, days)
    ensures HoldingSums(blocks, days)[i] == SumRange(Spreads(blocks), s, e)
  {
    var starts := HoldingStarts(blocks, days * 3, |blocks|);
    HoldingStartsMeaning(blocks, days * 3, |blocks|);
    hide HoldingStarts, SumRange, Spreads;
    s, e := starts[i], starts[i] + days * 3;
    assert s in starts;
    GaplessIsProgression(blocks, s, e);
  }

  // ---------------------------------------------------------------- drawdown

  /** d is the largest of 0 and every negated run sum among the first n values. */
  ghost predicate IsWorstFallBy(values: seq<real>, n: nat, d: real) {
    && n <= |values|
    && d >= 0.0
    && (forall i: nat, j: nat :: i < j <= n ==> -SumRange(values, i, j) <= d)
    && (d == 0.0 || exists i: nat, j: nat :: i < j <= n && d == -SumRange(values, i, j))
  }

  ghost predicate IsWorstFall(values: seq<real>, d: real) {
    IsWorstFallBy(values, |values|, d)
  }

  /** peak is the highest of the first n + 1 running totals. */
  ghost predicate IsPeak(values: seq<real>, n: nat, peak: real) {
    && n <= |values|
    && (forall i: nat :: i <= n ==> SumRange(values, 0, i) <= peak)
    && (exists i: nat :: i <= n && peak == SumRange(values, 0, i))
  }

  lemma PeakNext(values: seq<real>, n: nat, peak: real)
    requires n < |values| && IsPeak(values, n, peak)
    ensures IsPeak(values, n + 1, Max(peak, SumRange(values, 0, n + 1)))
  {
    hide SumRange;
    var i: nat :| i <= n && peak == SumRange(values, 0, i);
  }

  lemma FallNext(values: seq<real>, n: nat, peak: real, d: real)
    requires n < |values| && IsPeak(values, n + 1, peak) && IsWorstFallBy(values, n, d)
    ensures IsWorstFallBy(values, n + 1, Max(d, peak - SumRange(values, 0, n + 1)))
  {
    var total := SumRange(values, 0, n + 1);
    var d' := Max(d, peak - total);
    forall i: nat, j: nat | i < j <= n + 1 ensures -SumRange(values, i, j) <= d' {
      if j == n + 1 {
        SumSplit(values, 0, i, j);
        assert SumRange(values, 0, i) <= peak;
      }
    }
    if d' != d {
      var i: nat :| i <= n + 1 && peak == SumRange(values, 0, i);
      SumSplit(values, 0, i, n + 1);
      assert i < n + 1;
      assert d' == -SumRange(values, i, n + 1);
    } else if d != 0.0 {
      var i: nat, j: nat :| i < j <= n && d == -SumRange(values, i, j);
    }
  }

  /** One pass with a running total and its peak finds the deepest fall of any run. */
  method MaximumDrawdown(values: seq<real>) returns (maximum: real)
    ensures IsWorstFall(values, maximum)
  {
    var cumulative, peak := 0.0, 0.0;
    maximum := 0.0;
    FallStart(values);
    hide IsPeak, IsWorstFallBy, SumRange;
    for n := 0 to |values|
      invariant cumulative == SumRange(values, 0, n)
      invariant IsPeak(values, n, peak) && IsWorstFallBy(values, n, maximum)
    {
      TotalNext(values, n);
      cumulative := cumulative + values[n];
      PeakNext(values, n, peak);
      peak := Max(peak, cumulative);
      FallNext(values, n, peak, maximum);
      maximum := Max(maximum, peak - cumulative);
    }
  }

  lemma FallStart(values: seq<real>)
    ensures SumRange(values, 0, 0) == 0.0 && IsPeak(values, 0, 0.0) && IsWorstFallBy(values, 0, 0.0)
  {
  }

  lemma TotalNext(values: seq<real>, n: nat)
    requires n < |values|
    ensures SumRange(values, 0, n + 1) == SumRange(values, 0, n) + values[n]
  {
  }

  /** On one gap-free chunk no longer than the horizon, the bounded-horizon drawdown is the one-pass drawdown. */
  lemma DrawdownsAgree(rows: seq<FundingRow>, hours: nat, d: real, e: real)
    requires Hourly(Stamps(rows), 0, |rows|) && |rows| <= hours
    requires IsWorstDrop(rows, hours, d) && IsWorstFall(Amounts(rows), e)
    ensures d == e
  {
    hide SumRange, Amounts;
    var times, values := Stamps(rows), Amounts(rows);
    forall i: nat, j: nat | i < j <= |rows| ensures HourlyRun(times, hours, i, j) {
      assert Hourly(times, i, j);
    }
  }

  // ---------------------------------------------------------------- adverse runs

  /** Values i..j are all negative. */
  ghost predicate Adverse(values: seq<real>, i: nat, j: nat) {
    i <= j <= |values| && forall k :: i <= k < j ==> values[k] < 0.0
  }

  /** m is the length of the longest all-negative run among the first n values. */
  ghost predicate IsLongestAdverseBy(values: seq<real>, n: nat, m: int) {
    && (forall i: nat, j: nat :: j <= n && Adverse(values, i, j) ==> j - i <= m)
    && (exists i: nat, j: nat :: j <= n && Adverse(values, i, j) && j - i == m)
  }

  /** The run ending at n has this length and cannot start earlier. */
  ghost predicate IsCurrentAdverse(values: seq<real>, n: nat, current: nat) {
    && current <= n <= |values|
    && Adverse(values, n - current, n)
    && (current < n ==> values[n - current - 1] >= 0.0)
  }

  lemma AdverseNext(values: seq<real>, n: nat, current: nat)
    requires n < |values| && IsCurrentAdverse(values, n, current)
    ensures IsCurrentAdverse(values, n + 1, if values[n] < 0.0 then current + 1 else 0)
  {
  }

  lemma LongestNext(values: seq<real>, n: nat, longest: int, current: nat)
    requires n < |values| && IsLongestAdverseBy(values, n, longest) && IsCurrentAdverse(values, n + 1, current)
    ensures IsLongestAdverseBy(values, n + 1, if longest < current then current else longest)
  {
    var longest' := if longest < current then current else longest;
    assert current < n + 1 ==> values[n - current] >= 0.0;
    forall i: nat, j: nat | j <= n + 1 && Adverse(values, i, j) ensures j - i <= longest' {
    }
    if longest' == longest {
      var i: nat, j: nat :| j <= n && Adverse(values, i, j) && j - i == longest;
      assert j <= n + 1;
    } else {
      assert Adverse(values, n + 1 - current, n + 1);
    }
  }

  method LongestAdverseRun(values: seq<real>) returns (longest: int)
    ensures IsLongestAdverseBy(values, |values|, longest)
  {
    longest := 0;
    var current: nat := 0;
    AdverseStart(values);
    hide IsLongestAdverseBy, IsCurrentAdverse;
    for n := 0 to |values|
      invariant IsLongestAdverseBy(values, n, longest) && IsCurrentAdverse(values, n, current)
    {
      AdverseNext(values, n, current);
      current := if values[n] < 0.0 then current + 1 else 0;
      LongestNext(values, n, longest, current);
      longest := if longest < current then current else longest;
    }
  }

  lemma AdverseStart(values: seq<real>)
    ensures IsLongestAdverseBy(values, 0, 0) && IsCurrentAdverse(values, 0, 0)
  {
    assert Adverse(values, 0, 0);
  }

  /** A spread of zero is not adverse: there is no adverse run exactly when no spread is below zero. */
  lemma NoAdverseRunIff(values: seq<real>, m: int)
    requires IsLongestAdverseBy(values, |values|, m)
    ensures m == 0 <==> forall k :: 0 <= k < |values| ==> values[k] >= 0.0
  {
    if k: nat :| k < |values| && values[k] < 0.0 {
      assert Adverse(values, k, k + 1);
    }
    if m > 0 {
      var i: nat, j: nat :| j <= |values| && Adverse(values, i, j) && j - i == m;
      assert values[i] < 0.0;
    } else {
      assert Adverse(values, 0, 0);
    }
  }

  lemma LongestNonnegative(values: seq<real>, n: nat, m: int)
    requires IsLongestAdverseBy(values, n, m)
    ensures m >= 0
  {
  }

  // ---------------------------------------------------------------- sign behaviour

  /** Adjacent values k - 1 and k of the same strict sign. */
  predicate Persists(values: seq<real>, k: nat)
    requires 0 < k < |values|
  {
    (values[k - 1] > 0.0 && values[k] > 0.0) || (values[k - 1] < 0.0 && values[k] < 0.0)
  }

  predicate Reverses(values: seq<real>, k: nat)
    requires 0 < k < |values|
  {
    (values[k - 1] > 0.0 && values[k] < 0.0) || (values[k - 1] < 0.0 && values[k] > 0.0)
  }

  predicate BothNonzero(values: seq<real>, k: nat)
    requires 0 < k < |values|
  {
    values[k - 1] != 0.0 && values[k] != 0.0
  }

  ghost function CountPersists(values: seq<real>, n: nat): nat
    requires n <= |values|
  {
    if n <= 1 then 0 else CountPersists(values, n - 1) + (if Persists(values, n - 1) then 1 else 0)
  }

  ghost function CountReverses(values: seq<real>, n: nat): nat
    requires n <= |values|
  {
    if n <= 1 then 0 else CountReverses(values, n - 1) + (if Reverses(values, n - 1) then 1 else 0)
  }

  ghost function CountNonzeroPairs(values: seq<real>, n: nat): nat
    requires n <= |values|
  {
    if n <= 1 then 0 else CountNonzeroPairs(values, n - 1) + (if BothNonzero(values, n - 1) then 1 else 0)
  }

  /** Every adjacent nonzero pair either persists or reverses, and nothing else does. */
  lemma {:induction false} TransitionsPartition(values: seq<real>, n: nat)
    requires n <= |values|
    ensures CountPersists(values, n) + CountReverses(values, n) == CountNonzeroPairs(values, n)
  {
    if n > 1 {
      TransitionsPartition(values, n - 1);
    }
  }

  /** The sign of the value before n, forgotten after a zero. */
  ghost predicate IsPreviousSign(values: seq<real>, n: nat, previous: Option<int>) {
    && n <= |values|
    && if n == 0 || values[n - 1] == 0.0 then previous == None
       else previous == Some(if values[n - 1] > 0.0 then 1 else -1)
  }

  /** The share of adjacent nonzero pairs that keep their sign, when there are any. */
  ghost predicate IsPersistence(values: seq<real>, persistence: Option<real>) {
    var pairs := CountNonzeroPairs(values, |values|);
    if pairs == 0 then persistence == None
    else persistence == Some(CountPersists(values, |values|) as real / pairs as real)
  }

  lemma PersistenceIsShare(values: seq<real>, persistence: Option<real>)
    requires IsPersistence(values, persistence)
    ensures persistence.Some? ==> 0.0 <= persistence.value <= 1.0
  {
    TransitionsPartition(values, |values|);
    hide CountPersists, CountNonzeroPairs;
    if persistence.Some? {
      ShareInUnit(CountPersists(values, |values|), CountNonzeroPairs(values, |values|));
    }
  }

  /** Persistence is the share of nonzero transitions that keep the sign; reversals are counted. */
  method SignBehavior(values: seq<real>) returns (persistence: Option<real>, reversals: nat)
    ensures reversals == CountReverses(values, |values|)
    ensures IsPersistence(values, persistence)
  {
    var previous: Option<int> := None;
    var transitions, persistent := 0, 0;
    reversals := 0;
    for n := 0 to |values|
      invariant IsPreviousSign(values, n, previous)
      invariant persistent == CountPersists(values, n) && reversals == CountReverses(values, n)
      invariant transitions == CountNonzeroPairs(values, n)
    {
      if values[n] == 0.0 {
        previous := None;
      } else {
        var sign := if values[n] > 0.0 then 1 else -1;
        if previous.Some? {
          transitions := transitions + 1;
          if sign == previous.value {
            persistent := persistent + 1;
          } else {
            reversals := reversals + 1;
          }
        }
        previous := Some(sign);
      }
    }
    if transitions > 0 {
      persistence := Some(persistent as real / transitions as real);
    } else {
      persistence := None;
    }
  }
}
