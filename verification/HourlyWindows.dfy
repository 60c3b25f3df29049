/** Gap-broken hourly series: which index windows are contiguous, and how chunking finds them. */
module HourlyWindows {

  /** One hour in microseconds. */
  const HOUR := 3_600_000_000

  /** The timestamps of a series of records. */
  function TimesOf<T>(rows: seq<T>, at: T -> int): (times: seq<int>)
    ensures |times| == |rows|
    ensures forall i :: 0 <= i < |rows| ==> times[i] == at(rows[i])
  {
    seq(|rows|, i requires 0 <= i < |rows| => at(rows[i]))
  }

  predicate After(times: seq<int>, k: nat)
    requires 0 < k < |times|
  {
    times[k - 1] < times[k]
  }

  /** Adjacent timestamps increase, as the routines check pair by pair. */
  predicate StrictlyOrdered(times: seq<int>) {
    forall k :: 0 < k < |times| ==> After(times, k)
  }

  predicate OneHourAfter(times: seq<int>, k: nat)
    requires 0 < k < |times|
  {
    times[k] - times[k - 1] == HOUR
  }

  /** Adjacent rows of times[i..j] are exactly one hour apart. */
  ghost predicate Hourly(times: seq<int>, i: nat, j: nat)
    requires i <= j <= |times|
  {
    forall k :: i < k < j ==> OneHourAfter(times, k)
  }

  /** Every earlier timestamp is smaller, not only the adjacent one. */
  lemma {:induction false} OrderedThroughout(times: seq<int>, i: nat, j: nat)
    requires StrictlyOrdered(times) && i < j < |times|
    ensures times[i] < times[j]
    decreases j
  {
    assert After(times, j);
    if i < j - 1 {
      OrderedThroughout(times, i, j - 1);
    }
  }

  lemma OrderedMeaning(times: seq<int>)
    ensures StrictlyOrdered(times) <==> forall i, j :: 0 <= i < j < |times| ==> times[i] < times[j]
  {
    if StrictlyOrdered(times) {
      forall i, j | 0 <= i < j < |times| ensures times[i] < times[j] {
        OrderedThroughout(times, i, j);
      }
    }
  }

  /** An hourly stretch is an arithmetic progression: its k-th row lies exactly k hours after its first. */
  lemma {:induction false} HourlyIsProgression(times: seq<int>, i: nat, j: nat)
    requires i <= j <= |times|
    ensures Hourly(times, i, j) <==> forall k :: i <= k < j ==> times[k] == times[i] + (k - i) * 3_600_000_000
    decreases j
  {
    if i + 1 < j {
      HourlyIsProgression(times, i, j - 1);
      var n := j - 1;
      assert times[n] - times[n - 1] == HOUR <==> OneHourAfter(times, n);
    }
  }

  predicate ValidHoldingDays(days: int) {
    days == 7 || days == 14 || days == 28
  }

  ghost predicate ValidWindow(times: seq<int>, w: nat, s: nat) {
    s + w <= |times| && Hourly(times, s, s + w)
  }

  /** In order, the starts below n of windows of w rows that are hourly throughout. */
  ghost function WindowStarts(times: seq<int>, w: nat, n: nat): (starts: seq<nat>)
    ensures forall i :: 0 <= i < |starts| ==> starts[i] + w <= |times|
  {
    if n == 0 then []
    else WindowStarts(times, w, n - 1)
         + (if ValidWindow(times, w, n - 1) then [n - 1] else [])
  }

  ghost function AllStarts(times: seq<int>, w: nat): (starts: seq<nat>)
    ensures forall i :: 0 <= i < |starts| ==> starts[i] + w <= |times|
  {
    WindowStarts(times, w, |times|)
  }

  ghost predicate Increasing(s: seq<nat>) {
    forall i, j :: 0 <= i < j < |s| ==> s[i] < s[j]
  }

  lemma IncreasingAppend(s: seq<nat>, x: nat)
    requires Increasing(s) && forall i :: 0 <= i < |s| ==> s[i] < x
    ensures Increasing(s + [x])
  {
  }

  /** `starts` lists exactly the valid windows starting below n, each once, in increasing order. */
  ghost predicate Enumerates(times: seq<int>, w: nat, n: nat, starts: seq<nat>) {
    && Increasing(starts)
    && forall s: nat :: s in starts <==> s < n && ValidWindow(times, w, s)
  }

  lemma EnumeratesNext(times: seq<int>, w: nat, n: nat, starts: seq<nat>)
    requires Enumerates(times, w, n, starts)
    ensures Enumerates(times, w, n + 1, if ValidWindow(times, w, n) then starts + [n] else starts)
  {
    hide ValidWindow;
    if ValidWindow(times, w, n) {
      assert forall i :: 0 <= i < |starts| ==> starts[i] in starts;
      IncreasingAppend(starts, n);
      assert forall s: nat :: s in starts + [n] <==> s in starts || s == n;
    }
  }

  lemma {:induction false} WindowStartsMeaning(times: seq<int>, w: nat, n: nat)
    ensures Enumerates(times, w, n, WindowStarts(times, w, n))
  {
    if n > 0 {
      WindowStartsMeaning(times, w, n - 1);
      EnumeratesNext(times, w, n - 1, WindowStarts(times, w, n - 1));
      assert WindowStarts(times, w, n - 1) + [] == WindowStarts(times, w, n - 1);
    }
    hide ValidWindow;
  }

  // ---------------------------------------------------------------- chunk boundaries

  /** The indices below n at which the series jumps. */
  function Jumps(times: seq<int>, n: nat): seq<nat>
    requires n <= |times|
  {
    if n <= 1 then []
    else Jumps(times, n - 1) + (if OneHourAfter(times, n - 1) then [] else [n - 1])
  }

  /** Where each chunk ends: at every jump, and at the end. */
  function Boundaries(times: seq<int>): seq<nat> {
    Jumps(times, |times|) + [|times|]
  }

  lemma JumpsStep(times: seq<int>, n: nat)
    requires 0 < n < |times|
    ensures Jumps(times, n + 1) == if OneHourAfter(times, n) then Jumps(times, n) else Jumps(times, n) + [n]
  {
    assert Jumps(times, n) + [] == Jumps(times, n);
  }

  function Before(cuts: seq<nat>, k: nat): nat
    requires k <= |cuts|
  {
    if k == 0 then 0 else cuts[k - 1]
  }

  /** times[lo..hi] is hourly and cannot be extended at either end. */
  ghost predicate IsChunk(times: seq<int>, lo: nat, hi: nat) {
    && lo <= hi <= |times|
    && (lo < hi || times == [])
    && Hourly(times, lo, hi)
    && (0 < lo < |times| ==> !OneHourAfter(times, lo))
    && (0 < hi < |times| ==> !OneHourAfter(times, hi))
  }

  ghost predicate CutsChunks(times: seq<int>, cuts: seq<nat>) {
    forall k :: 0 <= k < |cuts| ==> IsChunk(times, Before(cuts, k), cuts[k])
  }

  lemma AppendCut(times: seq<int>, cuts: seq<nat>, n: nat)
    requires CutsChunks(times, cuts) && IsChunk(times, Before(cuts, |cuts|), n)
    ensures CutsChunks(times, cuts + [n])
  {
    hide IsChunk;
    var longer := cuts + [n];
    forall k | 0 <= k < |longer| ensures IsChunk(times, Before(longer, k), longer[k]) {
      assert Before(longer, k) == Before(cuts, k);
      if k < |cuts| {
        assert IsChunk(times, Before(cuts, k), cuts[k]);
      }
    }
  }

  /** The cuts below n close chunks, and the rest up to n is still hourly. */
  ghost predicate SplitsBelow(times: seq<int>, n: nat, cuts: seq<nat>) {
    var last := Before(cuts, |cuts|);
    && CutsChunks(times, cuts)
    && last < n <= |times| && Hourly(times, last, n) && (last > 0 ==> !OneHourAfter(times, last))
  }

  lemma SplitsNext(times: seq<int>, n: nat, cuts: seq<nat>)
    requires SplitsBelow(times, n, cuts) && n < |times|
    ensures SplitsBelow(times, n + 1, if OneHourAfter(times, n) then cuts else cuts + [n])
  {
    hide CutsChunks;
    if !OneHourAfter(times, n) {
      AppendCut(times, cuts, n);
    }
  }

  lemma {:induction false} JumpsSplit(times: seq<int>, n: nat)
    requires 1 <= n <= |times|
    ensures SplitsBelow(times, n, Jumps(times, n))
  {
    if n > 1 {
      JumpsSplit(times, n - 1);
      hide *;
      JumpsStep(times, n - 1);
      SplitsNext(times, n - 1, Jumps(times, n - 1));
    }
  }

  /** The boundaries cut the series into maximal hourly chunks that cover it in order. */
  lemma BoundariesSplit(times: seq<int>)
    ensures Boundaries(times)[|Boundaries(times)| - 1] == |times|
    ensures CutsChunks(times, Boundaries(times))
  {
    if times != [] {
      JumpsSplit(times, |times|);
    }
    AppendCut(times, Jumps(times, |times|), |times|);
  }

  function Range(lo: nat, hi: nat): seq<nat>
    requires lo <= hi
  {
    seq(hi - lo, i requires 0 <= i < hi - lo => lo + i)
  }

  /** The end of the window starts in a chunk: windows that stay inside it. */
  function LastStart(lo: nat, hi: nat, w: nat): nat
    requires lo <= hi
  {
    if hi - lo < w then lo else hi - w + 1
  }

  lemma {:induction false} StartsWithin(times: seq<int>, w: nat, lo: nat, hi: nat, n: nat)
    requires w > 0 && IsChunk(times, lo, hi) && lo <= n <= hi
    ensures var last := if n < LastStart(lo, hi, w) then n else LastStart(lo, hi, w);
      WindowStarts(times, w, n) == WindowStarts(times, w, lo) + Range(lo, last)
    decreases n - lo
  {
    if n > lo {
      StartsWithin(times, w, lo, hi, n - 1);
      if n - 1 + w <= |times| && n - 1 + w > hi {
        assert !OneHourAfter(times, hi);
        assert !Hourly(times, n - 1, n - 1 + w);
      }
    }
  }

  /** A chunk contributes exactly its own inner windows. */
  lemma ChunkStarts(times: seq<int>, w: nat, lo: nat, hi: nat)
    requires w > 0 && IsChunk(times, lo, hi)
    ensures lo <= LastStart(lo, hi, w)
    ensures WindowStarts(times, w, hi) == WindowStarts(times, w, lo) + Range(lo, LastStart(lo, hi, w))
  {
    if lo < hi {
      StartsWithin(times, w, lo, hi, hi);
    }
  }

  ghost predicate FitWithin(starts: seq<nat>, w: nat, n: nat) {
    forall i :: 0 <= i < |starts| ==> starts[i] + w <= n
  }

  // ---------------------------------------------------------------- walking the boundaries

  lemma BeforeFirst(cuts: seq<nat>)
    ensures Before(cuts, 0) == 0
  {
  }

  lemma BeforeLast(cuts: seq<nat>)
    requires cuts != []
    ensures Before(cuts, |cuts|) == cuts[|cuts| - 1]
  {
  }

  lemma NthBoundary(times: seq<int>, k: nat)
    requires k < |Boundaries(times)|
    ensures IsChunk(times, Before(Boundaries(times), k), Boundaries(times)[k])
    ensures Before(Boundaries(times), k) <= Boundaries(times)[k] <= |times|
    ensures Before(Boundaries(times), k + 1) == Boundaries(times)[k]
  {
    BoundariesSplit(times);
  }
}
