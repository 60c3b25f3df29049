/** Both venues' funding cashflows over a horizon, at the fifth percentile of their gross. */
module Cashflows {
  import opened Numbers
  import opened OrderStatistics
  import opened HourlyWindows
  import opened FundingSeries

  datatype CashflowRow = CashflowRow(
    at: int,
    lighterRate: real,
    dydxRate: real,
    lighterUsd: real,
    dydxUsd: real)

  datatype CashflowWindow = CashflowWindow(
    endingAt: int,
    lighterRateSum: real,
    dydxRateSum: real,
    lighterUsd: real,
    dydxUsd: real)

  function Gross(w: CashflowWindow): real {
    w.lighterUsd + w.dydxUsd
  }

  function GrossRows(rows: seq<CashflowRow>): (gross: seq<FundingRow>)
    ensures |gross| == |rows|
  {
    seq(|rows|, i requires 0 <= i < |rows| => FundingRow(rows[i].at, rows[i].lighterUsd + rows[i].dydxUsd))
  }

  function Times(rows: seq<CashflowRow>): (times: seq<int>)
    ensures |times| == |rows|
  {
    TimesOf(rows, (r: CashflowRow) => r.at)
  }

  function LighterRates(rows: seq<CashflowRow>): (values: seq<real>)
    ensures |values| == |rows|
  {
    seq(|rows|, i requires 0 <= i < |rows| => rows[i].lighterRate)
  }

  function DydxRates(rows: seq<CashflowRow>): (values: seq<real>)
    ensures |values| == |rows|
  {
    seq(|rows|, i requires 0 <= i < |rows| => rows[i].dydxRate)
  }

  function LighterUsd(rows: seq<CashflowRow>): (values: seq<real>)
    ensures |values| == |rows|
  {
    seq(|rows|, i requires 0 <= i < |rows| => rows[i].lighterUsd)
  }

  function DydxUsd(rows: seq<CashflowRow>): (values: seq<real>)
    ensures |values| == |rows|
  {
    seq(|rows|, i requires 0 <= i < |rows| => rows[i].dydxUsd)
  }

  // ---------------------------------------------------------------- windows

  /** The window of w rows starting at s, summed column by column. */
  function WindowAt(rows: seq<CashflowRow>, s: nat, w: nat): CashflowWindow
    requires w > 0 && s + w <= |rows|
  {
    CashflowWindow(rows[s + w - 1].at,
      SumRange(LighterRates(rows), s, s + w), SumRange(DydxRates(rows), s, s + w),
      SumRange(LighterUsd(rows), s, s + w), SumRange(DydxUsd(rows), s, s + w))
  }

  ghost function WindowsAt(rows: seq<CashflowRow>, starts: seq<nat>, w: nat): seq<CashflowWindow>
    requires w > 0 && FitWithin(starts, w, |rows|)
  {
    seq(|starts|, i requires 0 <= i < |starts| => WindowAt(rows, starts[i], w))
  }

  /** The windows of every hourly stretch of w rows, in order. */
  ghost function AllWindows(rows: seq<CashflowRow>, w: nat): seq<CashflowWindow>
    requires w > 0
  {
    WindowsAt(rows, AllStarts(Times(rows), w), w)
  }

  lemma WindowOfSlice(rows: seq<CashflowRow>, s: nat, w: nat)
    requires w > 0 && s + w <= |rows|
    ensures var window := rows[s..s + w];
      WindowAt(rows, s, w) == CashflowWindow(window[w - 1].at,
        Sum(LighterRates(window)), Sum(DydxRates(window)), Sum(LighterUsd(window)), Sum(DydxUsd(window)))
  {
    var window := rows[s..s + w];
    SumAgree(LighterRates(rows), s, LighterRates(window), 0, w);
    SumAgree(DydxRates(rows), s, DydxRates(window), 0, w);
    SumAgree(LighterUsd(rows), s, LighterUsd(window), 0, w);
    SumAgree(DydxUsd(rows), s, DydxUsd(window), 0, w);
  }

  /** windows lists, in order, the windows that stay inside the chunk lo..hi. */
  ghost predicate WindowsWithin(rows: seq<CashflowRow>, lo: nat, hi: nat, w: nat, count: nat,
                                windows: seq<CashflowWindow>) {
    && w > 0 && lo <= hi <= |rows| && |windows| == count <= LastStart(lo, hi, w) - lo
    && forall i :: 0 <= i < count ==> lo + i + w <= |rows| && windows[i] == WindowAt(rows, lo + i, w)
  }

  lemma SliceOfSlice(rows: seq<CashflowRow>, lo: nat, hi: nat, start: nat, w: nat)
    requires lo <= hi <= |rows| && start + w <= hi - lo
    ensures rows[lo..hi][start..start + w] == rows[lo + start..lo + start + w]
  {
    var inner, direct := rows[lo..hi][start..start + w], rows[lo + start..lo + start + w];
    forall i | 0 <= i < w ensures inner[i] == direct[i] {
      assert inner[i] == rows[lo..hi][start + i];
    }
  }

  method ChunkWindows(rows: seq<CashflowRow>, lo: nat, hi: nat, w: nat) returns (windows: seq<CashflowWindow>)
    requires w > 0 && lo <= hi <= |rows|
    ensures WindowsWithin(rows, lo, hi, w, LastStart(lo, hi, w) - lo, windows)
  {
    windows := [];
    var chunk := rows[lo..hi];
    var count := if |chunk| < w then 0 else |chunk| - w + 1;
    for start := 0 to count
      invariant WindowsWithin(rows, lo, hi, w, start, windows)
    {
      hide LighterRates, DydxRates, LighterUsd, DydxUsd, SumRange, Sum, WindowAt;
      var window := chunk[start..start + w];
      SliceOfSlice(rows, lo, hi, start, w);
      WindowOfSlice(rows, lo + start, w);
      windows := windows + [CashflowWindow(window[w - 1].at,
        Sum(LighterRates(window)), Sum(DydxRates(window)), Sum(LighterUsd(window)), Sum(DydxUsd(window)))];
    }
  }

  /** The windows collected once the first k boundaries are passed. */
  ghost predicate WindowsBy(rows: seq<CashflowRow>, w: nat, k: nat, windows: seq<CashflowWindow>) {
    && w > 0 && k <= |Boundaries(Times(rows))|
    && Before(Boundaries(Times(rows)), k) <= |rows|
    && windows == WindowsAt(rows, WindowStarts(Times(rows), w, Before(Boundaries(Times(rows)), k)), w)
  }

  lemma WindowsStart(rows: seq<CashflowRow>, w: nat)
    requires w > 0
    ensures WindowsBy(rows, w, 0, [])
  {
  }

  lemma WindowsNext(rows: seq<CashflowRow>, w: nat, k: nat, lo: nat, hi: nat,
                    windows: seq<CashflowWindow>, more: seq<CashflowWindow>)
    requires WindowsBy(rows, w, k, windows) && k < |Boundaries(Times(rows))|
    requires lo == Before(Boundaries(Times(rows)), k) <= hi == Boundaries(Times(rows))[k]
    requires WindowsWithin(rows, lo, hi, w, LastStart(lo, hi, w) - lo, more)
    ensures WindowsBy(rows, w, k + 1, windows + more)
  {
    var times := Times(rows);
    NthBoundary(times, k);
    hide Boundaries, Before, Times;
    ChunkStarts(times, w, lo, hi);
    var own := Range(lo, LastStart(lo, hi, w));
    hide IsChunk, WindowStarts, WindowAt;
    assert WindowsAt(rows, WindowStarts(times, w, lo) + own, w)
      == WindowsAt(rows, WindowStarts(times, w, lo), w) + more;
  }

  lemma WindowsEnd(rows: seq<CashflowRow>, w: nat, windows: seq<CashflowWindow>)
    requires w > 0 && WindowsBy(rows, w, |Boundaries(Times(rows))|, windows)
    ensures windows == AllWindows(rows, w)
  {
    BoundariesSplit(Times(rows));
    BeforeLast(Boundaries(Times(rows)));
    hide Boundaries, WindowStarts, WindowsAt;
  }

  /** Walking from boundary to boundary visits exactly the hourly windows, in order. */
  method CollectWindows(rows: seq<CashflowRow>, w: nat) returns (windows: seq<CashflowWindow>)
    requires w > 0
    ensures windows == AllWindows(rows, w)
  {
    hide *;
    windows := [];
    var boundaries := Boundaries(Times(rows));
    var chunkStart := 0;
    WindowsStart(rows, w);
    BeforeFirst(boundaries);
    for k := 0 to |boundaries|
      invariant chunkStart == Before(boundaries, k)
      invariant WindowsBy(rows, w, k, windows)
    {
      NthBoundary(Times(rows), k);
      var more := ChunkWindows(rows, chunkStart, boundaries[k], w);
      WindowsNext(rows, w, k, chunkStart, boundaries[k], windows, more);
      windows := windows + more;
      chunkStart := boundaries[k];
    }
    WindowsEnd(rows, w, windows);
  }

  // ---------------------------------------------------------------- selection

  /** The sort key: gross first, then when the window ends, then the two rate sums. */
  predicate KeyAtMost(a: CashflowWindow, b: CashflowWindow) {
    if Gross(a) != Gross(b) then Gross(a) < Gross(b)
    else if a.endingAt != b.endingAt then a.endingAt < b.endingAt
    else if a.lighterRateSum != b.lighterRateSum then a.lighterRateSum < b.lighterRateSum
    else a.dydxRateSum <= b.dydxRateSum
  }

  function InsertWindow(x: CashflowWindow, s: seq<CashflowWindow>): (t: seq<CashflowWindow>)
    ensures |t| == |s| + 1
  {
    if s == [] || KeyAtMost(x, s[0]) then [x] + s else [s[0]] + InsertWindow(x, s[1..])
  }

  function SortWindows(s: seq<CashflowWindow>): (t: seq<CashflowWindow>)
    ensures |t| == |s|
  {
    if s == [] then [] else InsertWindow(s[0], SortWindows(s[1..]))
  }

  function GrossOf(s: seq<CashflowWindow>): (values: seq<real>)
    ensures |values| == |s|
  {
    seq(|s|, i requires 0 <= i < |s| => Gross(s[i]))
  }

  lemma {:induction false} InsertionKeepsGross(x: CashflowWindow, s: seq<CashflowWindow>)
    requires Ascending(GrossOf(s))
    ensures GrossOf(InsertWindow(x, s)) == Insert(Gross(x), GrossOf(s))
  {
    if s != [] {
      assert GrossOf(s)[1..] == GrossOf(s[1..]);
      if KeyAtMost(x, s[0]) {
        assert GrossOf([x] + s) == [Gross(x)] + GrossOf(s);
      } else {
        InsertionKeepsGross(x, s[1..]);
        assert GrossOf([s[0]] + InsertWindow(x, s[1..])) == [Gross(s[0])] + GrossOf(InsertWindow(x, s[1..]));
        if Gross(x) == Gross(s[0]) {
          InsertEqual(Gross(x), GrossOf(s));
        }
      }
    }
  }

  /** Inserting before or after an equal head gives the same sequence. */
  lemma InsertEqual(x: real, s: seq<real>)
    requires s != [] && s[0] == x && Ascending(s)
    ensures Insert(x, s) == [x] + Insert(x, s[1..])
  {
    assert s == [x] + s[1..];
  }

  /** Sorting windows by key sorts their gross values. */
  lemma {:induction false} SortingKeepsGross(s: seq<CashflowWindow>)
    ensures GrossOf(SortWindows(s)) == Sorted(GrossOf(s))
  {
    if s != [] {
      SortingKeepsGross(s[1..]);
      SortedKeeps(GrossOf(s[1..]), 0.0);
      InsertionKeepsGross(s[0], SortWindows(s[1..]));
      assert GrossOf(s)[1..] == GrossOf(s[1..]);
    }
  }

  lemma {:induction false} InsertionKeepsMembers(x: CashflowWindow, s: seq<CashflowWindow>)
    ensures forall y :: y in InsertWindow(x, s) ==> y == x || y in s
  {
    if s != [] && !KeyAtMost(x, s[0]) {
      InsertionKeepsMembers(x, s[1..]);
    }
  }

  lemma {:induction false} SortingKeepsMembers(s: seq<CashflowWindow>)
    ensures forall y :: y in SortWindows(s) ==> y in s
  {
    if s != [] {
      SortingKeepsMembers(s[1..]);
      InsertionKeepsMembers(s[0], SortWindows(s[1..]));
    }
  }

  /** The window at the nearest rank of the fifth percentile. */
  function SelectedWindow(windows: seq<CashflowWindow>): CashflowWindow
    requires windows != []
  {
    SortWindows(windows)[RankIndex(|windows|, 0.05)]
  }

  lemma SelectedGross(windows: seq<CashflowWindow>)
    requires windows != []
    ensures Gross(SelectedWindow(windows)) == RankValue(GrossOf(windows), 0.05)
    ensures SelectedWindow(windows) in windows
  {
    SortingKeepsGross(windows);
    SortingKeepsMembers(windows);
    SortedKeeps(GrossOf(windows), 0.0);
  }

  /** Windows come in the order of their gross; equal ones in the order they end, then of the two rate sums. */
  predicate EarlierWindow(a: CashflowWindow, b: CashflowWindow) {
    || Gross(a) < Gross(b)
    || (Gross(a) == Gross(b) && a.endingAt < b.endingAt)
    || (Gross(a) == Gross(b) && a.endingAt == b.endingAt && a.lighterRateSum < b.lighterRateSum)
    || (Gross(a) == Gross(b) && a.endingAt == b.endingAt && a.lighterRateSum == b.lighterRateSum
        && a.dydxRateSum < b.dydxRateSum)
  }

  function CountEarlier(s: seq<CashflowWindow>, x: CashflowWindow): nat {
    if s == [] then 0 else (if EarlierWindow(s[0], x) then 1 else 0) + CountEarlier(s[1..], x)
  }

  function CountNotLater(s: seq<CashflowWindow>, x: CashflowWindow): nat {
    if s == [] then 0 else (if EarlierWindow(x, s[0]) then 0 else 1) + CountNotLater(s[1..], x)
  }

  lemma {:induction false} InsertionKeepsCounts(x: CashflowWindow, s: seq<CashflowWindow>, y: CashflowWindow)
    ensures CountEarlier(InsertWindow(x, s), y) == CountEarlier([x], y) + CountEarlier(s, y)
    ensures CountNotLater(InsertWindow(x, s), y) == CountNotLater([x], y) + CountNotLater(s, y)
  {
    hide EarlierWindow;
    if s == [] || KeyAtMost(x, s[0]) {
      assert ([x] + s)[1..] == s;
    } else {
      InsertionKeepsCounts(x, s[1..], y);
      assert ([s[0]] + InsertWindow(x, s[1..]))[1..] == InsertWindow(x, s[1..]);
    }
  }

  /** Every window is followed only by windows that are not earlier. */
  ghost predicate InKeyOrder(s: seq<CashflowWindow>) {
    forall i, j :: 0 <= i < j < |s| ==> !EarlierWindow(s[j], s[i])
  }

  lemma {:induction false} InsertionOrdered(x: CashflowWindow, s: seq<CashflowWindow>)
    requires InKeyOrder(s)
    ensures InKeyOrder(InsertWindow(x, s))
  {
    if s == [] || KeyAtMost(x, s[0]) {
      forall j | 0 <= j < |s| ensures !EarlierWindow(s[j], x) {
      }
    } else {
      InsertionOrdered(x, s[1..]);
      InsertionKeepsMembers(x, s[1..]);
      var t := InsertWindow(x, s[1..]);
      forall j | 0 <= j < |t| ensures !EarlierWindow(t[j], s[0]) {
        assert t[j] in t;
      }
    }
  }

  lemma {:induction false} SortingOrders(s: seq<CashflowWindow>, y: CashflowWindow)
    ensures InKeyOrder(SortWindows(s))
    ensures CountEarlier(SortWindows(s), y) == CountEarlier(s, y)
    ensures CountNotLater(SortWindows(s), y) == CountNotLater(s, y)
  {
    if s != [] {
      SortingOrders(s[1..], y);
      InsertionOrdered(s[0], SortWindows(s[1..]));
      InsertionKeepsCounts(s[0], SortWindows(s[1..]), y);
      hide InKeyOrder, EarlierWindow, InsertWindow;
    }
  }

  lemma {:induction false} KeyOrderRank(t: seq<CashflowWindow>, k: nat)
    requires InKeyOrder(t) && k < |t|
    ensures CountEarlier(t, t[k]) <= k < CountNotLater(t, t[k])
  {
    if k == 0 {
      NoneEarlier(t, t[0]);
    } else {
      KeyOrderRank(t[1..], k - 1);
    }
  }

  lemma {:induction false} NoneEarlier(t: seq<CashflowWindow>, x: CashflowWindow)
    requires forall i :: 0 <= i < |t| ==> !EarlierWindow(t[i], x)
    ensures CountEarlier(t, x) == 0
  {
    hide EarlierWindow;
    if t != [] {
      NoneEarlier(t[1..], x);
    }
  }

  /**
   * The selected window is the one at the fifth-percentile rank: no more windows come before it than its index, and
   * more do not come after it; said of the windows unsorted, ties in gross going to the one that ends first.
   */
  lemma SelectedRank(windows: seq<CashflowWindow>)
    requires windows != []
    ensures SelectedWindow(windows) in windows
    ensures var w, k := SelectedWindow(windows), RankIndex(|windows|, 0.05);
      CountEarlier(windows, w) <= k < CountNotLater(windows, w)
  {
    SelectedGross(windows);
    SortingOrders(windows, SelectedWindow(windows));
    KeyOrderRank(SortWindows(windows), RankIndex(|windows|, 0.05));
  }

  // ---------------------------------------------------------------- statistics

  datatype CashflowStatistics = CashflowStatistics(
    holdingDays: int,
    completeWindowCount: nat,
    lighterRateSum: real,
    dydxRateSum: real,
    lighterUsd: real,
    dydxUsd: real,
    grossUsd: real,
    maximumDrawdownUsd: real)

  predicate ValidCashflows(rows: seq<CashflowRow>) {
    rows != [] && StrictlyOrdered(Times(rows))
  }

  ghost predicate IsCashflowStatistics(rows: seq<CashflowRow>, days: int, s: CashflowStatistics) {
    && ValidHoldingDays(days)
    && var windows := AllWindows(rows, days * 24);
    && windows != []
    && s.holdingDays == days
    && s.completeWindowCount == |windows|
    && var selected := SelectedWindow(windows);
    && s.lighterRateSum == selected.lighterRateSum && s.dydxRateSum == selected.dydxRateSum
    && s.lighterUsd == selected.lighterUsd && s.dydxUsd == selected.dydxUsd
    && s.grossUsd == Gross(selected)
    && IsWorstDrop(GrossRows(rows), days * 24, s.maximumDrawdownUsd)
  }

  /** The statistics are determined by the rows. */
  lemma CashflowStatisticsUnique(rows: seq<CashflowRow>, days: int, s: CashflowStatistics, s': CashflowStatistics)
    requires IsCashflowStatistics(rows, days, s) && IsCashflowStatistics(rows, days, s')
    ensures s == s'
  {
    hide AllWindows, SelectedWindow, GrossRows, IsWorstDrop;
    WorstDropUnique(GrossRows(rows), days * 24, s.maximumDrawdownUsd, s'.maximumDrawdownUsd);
  }

  lemma GrossStamps(rows: seq<CashflowRow>)
    ensures Stamps(GrossRows(rows)) == Times(rows)
  {
  }

  method CashflowHorizonStatistics(rows: seq<CashflowRow>, days: int) returns (r: Outcome<CashflowStatistics>)
    ensures r.Ok? <==> ValidCashflows(rows) && ValidHoldingDays(days) && AllWindows(rows, days * 24) != []
    ensures r.Ok? ==> IsCashflowStatistics(rows, days, r.value)
  {
    if !ValidCashflows(rows) || !ValidHoldingDays(days) {
      return ValueError;
    }
    var windows := CollectWindows(rows, days * 24);
    if windows == [] {
      return ValueError;
    }
    var ordered := SortWindows(windows);
    var selected := ordered[RankIndex(|ordered|, 0.05)];
    GrossStamps(rows);
    var drawdown := MaximumFundingDrawdown(GrossRows(rows), days);
    hide AllWindows, SortWindows, RankIndex, IsWorstDrop, StrictlyOrdered, Times, GrossRows;
    return Ok(CashflowStatistics(days, |windows|, selected.lighterRateSum, selected.dydxRateSum,
      selected.lighterUsd, selected.dydxUsd, Gross(selected), drawdown.value));
  }

  /** The gross of every window is the rolling sum of the gross rows. */
  lemma WindowsGross(rows: seq<CashflowRow>, days: int)
    requires ValidHoldingDays(days)
    ensures GrossOf(AllWindows(rows, days * 24)) == RollingSums(GrossRows(rows), days)
  {
    GrossStamps(rows);
    var w, starts := days * 24, AllStarts(Times(rows), days * 24);
    var windows := AllWindows(rows, w);
    var sums := RollingSums(GrossRows(rows), days);
    forall i | 0 <= i < |starts| ensures GrossOf(windows)[i] == sums[i] {
      SumAdded(LighterUsd(rows), DydxUsd(rows), Amounts(GrossRows(rows)), starts[i], starts[i] + w);
    }
  }

  /**
   * The window path agrees with the scalar path on the gross rows: same window count, same
   * fifth percentile, same drawdown.
   */
  lemma CashflowAgreesWithScalar(rows: seq<CashflowRow>, days: int, c: CashflowStatistics, s: HorizonStatistics)
    requires IsCashflowStatistics(rows, days, c) && IsHorizonStatistics(GrossRows(rows), days, s)
    ensures c.completeWindowCount == s.completeWindowCount
    ensures c.grossUsd == s.percentile05Sum
    ensures c.maximumDrawdownUsd == s.maximumDrawdown
  {
    WindowsGross(rows, days);
    SelectedGross(AllWindows(rows, days * 24));
    WorstDropUnique(GrossRows(rows), days * 24, c.maximumDrawdownUsd, s.maximumDrawdown);
  }

  /** The two routines also succeed on exactly the same rows and horizons. */
  lemma CashflowSucceedsWithScalar(rows: seq<CashflowRow>, days: int)
    ensures ValidHoldingDays(days) ==>
      (ValidCashflows(rows) && AllWindows(rows, days * 24) != []
       <==> ValidRows(GrossRows(rows)) && RollingSums(GrossRows(rows), days) != [])
  {
    GrossStamps(rows);
    if ValidHoldingDays(days) {
      WindowsGross(rows, days);
      hide AllWindows, RollingSums, StrictlyOrdered, Stamps, Times;
      assert |GrossOf(AllWindows(rows, days * 24))| == |AllWindows(rows, days * 24)|;
    }
  }

  function Cash(notional: real, rate: real): real {
    notional * rate
  }

  /** When every row's cashflow is a notional times its rate, so is the selected window's. */
  lemma ComponentsScale(rows: seq<CashflowRow>, days: int, c: CashflowStatistics, lighter: real, dydx: real)
    requires IsCashflowStatistics(rows, days, c)
    requires forall r :: r in rows ==>
      r.lighterUsd == Cash(lighter, r.lighterRate) && r.dydxUsd == Cash(dydx, r.dydxRate)
    ensures c.lighterUsd == Cash(lighter, c.lighterRateSum)
    ensures c.dydxUsd == Cash(dydx, c.dydxRateSum)
  {
    var s := SelectedStart(rows, days, c);
    hide *;
    ColumnsScale(rows, lighter, dydx, s, s + days * 24);
  }

  /** The one hourly window that all four sums of the statistics come from. */
  lemma SelectedStart(rows: seq<CashflowRow>, days: int, c: CashflowStatistics) returns (s: nat)
    requires IsCashflowStatistics(rows, days, c)
    ensures days > 0 && s + days * 24 <= |rows| && ValidWindow(Times(rows), days * 24, s)
    ensures c.lighterRateSum == SumRange(LighterRates(rows), s, s + days * 24)
    ensures c.dydxRateSum == SumRange(DydxRates(rows), s, s + days * 24)
    ensures c.lighterUsd == SumRange(LighterUsd(rows), s, s + days * 24)
    ensures c.dydxUsd == SumRange(DydxUsd(rows), s, s + days * 24)
  {
    var w := days * 24;
    var windows, starts := AllWindows(rows, w), AllStarts(Times(rows), w);
    SelectedGross(windows);
    hide SelectedWindow;
    var i :| 0 <= i < |windows| && windows[i] == SelectedWindow(windows);
    s := starts[i];
    WindowStartsMeaning(Times(rows), w, |rows|);
    assert windows[i] == WindowAt(rows, s, w) && s in starts;
    hide AllWindows, SumRange, LighterRates, DydxRates, LighterUsd, DydxUsd, Times, ValidWindow;
  }

  lemma ColumnsScale(rows: seq<CashflowRow>, lighter: real, dydx: real, i: nat, j: nat)
    requires i <= j <= |rows|
    requires forall r :: r in rows ==>
      r.lighterUsd == Cash(lighter, r.lighterRate) && r.dydxUsd == Cash(dydx, r.dydxRate)
    ensures SumRange(LighterUsd(rows), i, j) == Cash(lighter, SumRange(LighterRates(rows), i, j))
    ensures SumRange(DydxUsd(rows), i, j) == Cash(dydx, SumRange(DydxRates(rows), i, j))
  {
    forall k | 0 <= k < |rows|
      ensures LighterUsd(rows)[k] == lighter * LighterRates(rows)[k]
      ensures DydxUsd(rows)[k] == dydx * DydxRates(rows)[k]
    {
      assert rows[k] in rows;
    }
    hide LighterUsd, LighterRates, DydxUsd, DydxRates;
    SumScaled(LighterRates(rows), lighter, LighterUsd(rows), i, j);
    SumScaled(DydxRates(rows), dydx, DydxUsd(rows), i, j);
  }
}
