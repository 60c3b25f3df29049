/** Which side is paid: the oriented funding of a position, said of the venues' own rates. */
module FundingSides {
  import opened Numbers
  import opened OrderStatistics
  import opened EconomicsPolicy
  import opened Sizing
  import opened HourlyWindows
  import opened FundingSeries
  import opened Cashflows
  import opened EconomicsModel
  import opened Economics
  import opened Evaluator

  // ---------------------------------------------------------------- one hour

  /** The short leg is paid its venue's rate, and the long leg pays its own. */
  lemma ShortIsPaidLongPays(pairs: seq<FundingPair>, direction: FundingDirection, p: ShadowPosition, i: nat)
    requires i < |pairs|
    ensures var row, pair := FundingCashflows(pairs, direction, p)[i], pairs[i];
      var lighter, dydx := p.lighterEntry.notional * pair.lighterRate, p.dydxEntry.notional * pair.dydxRate;
      && row.at == pair.at
      && match direction
         case ShortLighterLongDydx =>
           && row.lighterRate == pair.lighterRate && row.dydxRate == -pair.dydxRate
           && row.lighterUsd == lighter && row.dydxUsd == -dydx
         case ShortDydxLongLighter =>
           && row.lighterRate == -pair.lighterRate && row.dydxRate == pair.dydxRate
           && row.lighterUsd == -lighter && row.dydxUsd == dydx
  {
  }

  /** The venue a report names short is the one whose rate the position is paid, and the other the one it pays. */
  lemma ReportedVenuesArePaid(b: Bundle, direction: FundingDirection, p: ShadowPosition, i: nat)
    requires i < |Pairs(b)|
    ensures var row, pair := FundingCashflows(Pairs(b), direction, p)[i], Pairs(b)[i];
      var (short, long) := VenuesFor(Some(direction));
      && short.Some? && long.Some? && short != long
      && VenueUsd(row, short.value) == VenueNotional(p, short.value) * VenueRate(pair, short.value)
      && VenueUsd(row, long.value) == -(VenueNotional(p, long.value) * VenueRate(pair, long.value))
  {
    hide Pairs, FundingCashflows;
    ShortIsPaidLongPays(Pairs(b), direction, p, i);
  }

  function VenueUsd(row: CashflowRow, venue: Venue): real {
    match venue case Lighter => row.lighterUsd case Dydx => row.dydxUsd
  }

  function VenueNotional(p: ShadowPosition, venue: Venue): real {
    match venue case Lighter => p.lighterEntry.notional case Dydx => p.dydxEntry.notional
  }

  function VenueRate(pair: FundingPair, venue: Venue): real {
    match venue case Lighter => pair.lighterRate case Dydx => pair.dydxRate
  }

  // ---------------------------------------------------------------- equal legs earn the oriented differential

  /** The oriented differential of each hour, as the current-regime gate reads it. */
  function OrientedSeries(pairs: seq<FundingPair>, direction: FundingDirection): seq<FundingRow>
    requires pairs != []
  {
    ZipRows(pairs, OrientFunding(Differentials(pairs), direction).value)
  }

  /** rows and scaled are the same hours, and every amount of scaled is n times the one of rows. */
  ghost predicate ScaledBy(rows: seq<FundingRow>, n: real, scaled: seq<FundingRow>) {
    && Stamps(scaled) == Stamps(rows)
    && forall i :: 0 <= i < |rows| ==> i < |scaled| && scaled[i].value == Cash(n, rows[i].value)
  }

  lemma EqualLegsScale(pairs: seq<FundingPair>, direction: FundingDirection, p: ShadowPosition, n: real)
    requires pairs != [] && p.lighterEntry.notional == n && p.dydxEntry.notional == n
    ensures ScaledBy(OrientedSeries(pairs, direction), n, GrossRows(FundingCashflows(pairs, direction, p)))
  {
    var rows, cash := OrientedSeries(pairs, direction), FundingCashflows(pairs, direction, p);
    forall i | 0 <= i < |pairs|
      ensures GrossRows(cash)[i].at == rows[i].at && GrossRows(cash)[i].value == Cash(n, rows[i].value)
    {
      ShortIsPaidLongPays(pairs, direction, p, i);
    }
    assert Stamps(GrossRows(cash)) == Stamps(rows);
  }

  function ScaledAmounts(values: seq<real>, n: real): seq<real> {
    seq(|values|, i requires 0 <= i < |values| => Cash(n, values[i]))
  }

  lemma {:induction false} InsertScaled(x: real, s: seq<real>, n: real)
    requires n > 0.0
    ensures ScaledAmounts(Insert(x, s), n) == Insert(Cash(n, x), ScaledAmounts(s, n))
  {
    if s != [] {
      var scaled := ScaledAmounts(s, n);
      assert scaled[1..] == ScaledAmounts(s[1..], n);
      ScaleOrder(x, s[0], n);
      hide Cash;
      if x > s[0] {
        InsertScaled(x, s[1..], n);
        assert ScaledAmounts([s[0]] + Insert(x, s[1..]), n) == [Cash(n, s[0])] + ScaledAmounts(Insert(x, s[1..]), n);
      }
    }
  }

  lemma ScaleOrder(x: real, y: real, n: real)
    requires n > 0.0
    ensures x <= y <==> Cash(n, x) <= Cash(n, y)
  {
    if x <= y {
      ScaleLe(x, y, n);
    } else {
      GapPositive(y, x, n);
    }
  }

  lemma {:induction false} SortedScaled(s: seq<real>, n: real)
    requires n > 0.0
    ensures Sorted(ScaledAmounts(s, n)) == ScaledAmounts(Sorted(s), n)
  {
    if s != [] {
      hide Cash, Insert;
      assert ScaledAmounts(s, n)[1..] == ScaledAmounts(s[1..], n);
      SortedScaled(s[1..], n);
      InsertScaled(s[0], Sorted(s[1..]), n);
    }
  }

  lemma RankScaled(values: seq<real>, n: real, p: real)
    requires n > 0.0 && values != [] && 0.0 < p <= 1.0
    ensures RankValue(ScaledAmounts(values, n), p) == Cash(n, RankValue(values, p))
  {
    SortedScaled(values, n);
    SortedKeeps(values, 0.0);
    hide Sorted, RankIndex, Cash;
  }

  lemma SumsScaled(rows: seq<FundingRow>, n: real, scaled: seq<FundingRow>, i: nat, j: nat)
    requires ScaledBy(rows, n, scaled) && i <= j <= |rows|
    ensures |scaled| == |rows| && SumRange(Amounts(scaled), i, j) == Cash(n, SumRange(Amounts(rows), i, j))
  {
    assert |Stamps(scaled)| == |Stamps(rows)|;
    hide SumRange;
    SumScaled(Amounts(rows), n, Amounts(scaled), i, j);
  }

  lemma RollingScaled(rows: seq<FundingRow>, n: real, scaled: seq<FundingRow>, days: int)
    requires ScaledBy(rows, n, scaled) && ValidHoldingDays(days)
    ensures RollingSums(scaled, days) == ScaledAmounts(RollingSums(rows, days), n)
  {
    var w, starts := days * 24, AllStarts(Stamps(rows), days * 24);
    var sums, sums' := RollingSums(rows, days), RollingSums(scaled, days);
    assert |Stamps(scaled)| == |Stamps(rows)|;
    hide SumRange, Amounts, ScaledBy, AllStarts, Cash;
    forall i | 0 <= i < |starts| ensures sums'[i] == Cash(n, sums[i]) {
      SumsScaled(rows, n, scaled, starts[i], starts[i] + w);
    }
  }

  lemma DropScaled(rows: seq<FundingRow>, n: real, scaled: seq<FundingRow>, hours: nat, d: real)
    requires n > 0.0 && ScaledBy(rows, n, scaled) && IsWorstDrop(rows, hours, d)
    ensures IsWorstDrop(scaled, hours, Cash(n, d))
  {
    var times := Stamps(rows);
    assert |Stamps(scaled)| == |times| == |rows|;
    ScaleLe(0.0, d, n);
    hide SumRange, Amounts, ScaledBy, HourlyRun, Stamps;
    forall i: nat, j: nat | j <= |rows| && HourlyRun(times, hours, i, j)
      ensures -SumRange(Amounts(scaled), i, j) <= Cash(n, d)
    {
      RunInRange(times, hours, i, j);
      SumsScaled(rows, n, scaled, i, j);
      ScaleLe(-SumRange(Amounts(rows), i, j), d, n);
    }
    if d != 0.0 {
      var i: nat, j: nat :| j <= |rows| && HourlyRun(times, hours, i, j) && d == -SumRange(Amounts(rows), i, j);
      RunInRange(times, hours, i, j);
      SumsScaled(rows, n, scaled, i, j);
    }
  }

  lemma RunInRange(times: seq<int>, hours: nat, i: nat, j: nat)
    requires HourlyRun(times, hours, i, j)
    ensures i < j <= |times|
  {
  }

  /**
   * With equal leg notionals n, what the cashflow routine reports in dollars is n times what the scalar routine
   * reports of the oriented differentials: the same windows, fifth percentile and drawdown.
   */
  lemma EqualLegsEarnTheDifferential(pairs: seq<FundingPair>, direction: FundingDirection, p: ShadowPosition,
                                     n: real, days: int, c: CashflowStatistics, s: HorizonStatistics)
    requires pairs != [] && n > 0.0 && p.lighterEntry.notional == n && p.dydxEntry.notional == n
    requires IsCashflowStatistics(FundingCashflows(pairs, direction, p), days, c)
    requires IsHorizonStatistics(OrientedSeries(pairs, direction), days, s)
    ensures c.completeWindowCount == s.completeWindowCount
    ensures c.grossUsd == Cash(n, s.percentile05Sum)
    ensures c.maximumDrawdownUsd == Cash(n, s.maximumDrawdown)
  {
    var rows, cash := OrientedSeries(pairs, direction), FundingCashflows(pairs, direction, p);
    EqualLegsScale(pairs, direction, p, n);
    hide FundingCashflows, OrientedSeries, IsCashflowStatistics, ScaledBy, IsWorstDrop, RollingSums, RankValue,
      GrossRows, Cash;
    RollingScaled(rows, n, GrossRows(cash), days);
    RankScaled(RollingSums(rows, days), n, 0.05);
    DropScaled(rows, n, GrossRows(cash), days * 24, s.maximumDrawdown);
    var scaled := HorizonStatistics(days, s.completeWindowCount, Cash(n, s.percentile05Sum),
                                    Cash(n, s.maximumDrawdown));
    assert IsHorizonStatistics(GrossRows(cash), days, scaled);
    CashflowAgreesWithScalar(cash, days, c, scaled);
  }

  // ---------------------------------------------------------------- which hours are used

  /** js lists, in increasing order, exactly the pairs after lo (when there is such a bound) and up to hi. */
  ghost predicate Within(pairs: seq<FundingPair>, lo: Option<int>, hi: int, js: seq<nat>) {
    && Increasing(js)
    && forall j: nat :: j in js <==> j < |pairs| && (lo.Some? ==> lo.value < pairs[j].at) && pairs[j].at <= hi
  }

  function Later(js: seq<nat>): (r: seq<nat>)
    ensures |r| == |js| && forall i :: 0 <= i < |js| ==> r[i] == js[i] + 1
  {
    seq(|js|, i requires 0 <= i < |js| => js[i] + 1)
  }

  lemma WithinCons(pairs: seq<FundingPair>, lo: Option<int>, hi: int, js: seq<nat>)
    requires pairs != [] && Within(pairs[1..], lo, hi, js)
    ensures var kept := (lo.Some? ==> lo.value < pairs[0].at) && pairs[0].at <= hi;
      Within(pairs, lo, hi, (if kept then [0] else []) + Later(js))
  {
    var kept := (lo.Some? ==> lo.value < pairs[0].at) && pairs[0].at <= hi;
    IncreasingLater(js);
    var all := (if kept then [0] else []) + Later(js);
    hide Increasing, Later;
    forall j: nat ensures j in all <==> (if j == 0 then kept else j - 1 in js) {
      LaterMembers(js, j);
    }
    assert forall j: nat :: 0 < j < |pairs| ==> pairs[j] == pairs[1..][j - 1];
  }

  lemma IncreasingLater(js: seq<nat>)
    requires Increasing(js)
    ensures Increasing(Later(js)) && Increasing([0] + Later(js)) && [] + Later(js) == Later(js)
  {
    var all := [0] + Later(js);
    forall i, j | 0 <= i < j < |all| ensures all[i] < all[j] {
      if i > 0 {
        assert js[i - 1] < js[j - 1];
      }
    }
  }

  lemma LaterMembers(js: seq<nat>, j: nat)
    ensures j in Later(js) <==> j > 0 && j - 1 in js
  {
    if j > 0 && j - 1 in js {
      var i :| 0 <= i < |js| && js[i] == j - 1;
      assert Later(js)[i] == j;
    }
  }

  lemma WithinNothing(lo: Option<int>, hi: int)
    ensures Within([], lo, hi, [])
  {
  }

  /** Training reads the differentials, Lighter less dYdX, of exactly the pairs up to its end, in their order. */
  lemma {:induction false} TrainingReads(pairs: seq<FundingPair>, end: int) returns (js: seq<nat>)
    ensures Within(pairs, None, end, js) && |TrainingDifferentials(pairs, end)| == |js|
    ensures forall i :: 0 <= i < |js| ==>
      && js[i] < |pairs|
      && TrainingDifferentials(pairs, end)[i] == pairs[js[i]].lighterRate - pairs[js[i]].dydxRate
  {
    hide Within, Later;
    if pairs == [] {
      js := [];
      WithinNothing(None, end);
    } else {
      var rest := TrainingReads(pairs[1..], end);
      WithinCons(pairs, None, end, rest);
      var kept, tail := pairs[0].at <= end, TrainingDifferentials(pairs[1..], end);
      js := (if kept then [0] else []) + Later(rest);
      forall i | 0 <= i < |js|
        ensures js[i] < |pairs|
        ensures TrainingDifferentials(pairs, end)[i] == pairs[js[i]].lighterRate - pairs[js[i]].dydxRate
      {
        if !kept || i > 0 {
          var k := if kept then i - 1 else i;
          assert js[i] == rest[k] + 1 && TrainingDifferentials(pairs, end)[i] == tail[k];
        }
      }
    }
  }

  /** The evaluation reads exactly the pairs after the training end and up to its own, in their order. */
  lemma {:induction false} EvaluationReads(pairs: seq<FundingPair>, start: int, end: int) returns (js: seq<nat>)
    ensures Within(pairs, Some(start), end, js) && |EvaluationPairs(pairs, start, end)| == |js|
    ensures forall i :: 0 <= i < |js| ==> js[i] < |pairs| && EvaluationPairs(pairs, start, end)[i] == pairs[js[i]]
  {
    hide Within, Later;
    if pairs == [] {
      js := [];
      WithinNothing(Some(start), end);
    } else {
      var rest := EvaluationReads(pairs[1..], start, end);
      WithinCons(pairs, Some(start), end, rest);
      var kept, tail := start < pairs[0].at <= end, EvaluationPairs(pairs[1..], start, end);
      js := (if kept then [0] else []) + Later(rest);
      forall i | 0 <= i < |js| ensures js[i] < |pairs| && EvaluationPairs(pairs, start, end)[i] == pairs[js[i]] {
        if !kept || i > 0 {
          var k := if kept then i - 1 else i;
          assert js[i] == rest[k] + 1 && EvaluationPairs(pairs, start, end)[i] == tail[k];
        }
      }
    }
  }

  lemma {:induction false} RowsBetweenMembers(rows: seq<FundingRow>, start: int, end: int)
    ensures forall r :: r in RowsBetween(rows, start, end) <==> r in rows && start <= r.at <= end
  {
    if rows != [] {
      RowsBetweenMembers(rows[1..], start, end);
      assert forall r :: r in rows <==> r == rows[0] || r in rows[1..];
    }
  }

  /**
   * Funding is ready only with 168 current rows, one for each of the last 168 hours up to and including the
   * evaluation end, each what the short venue of a pair of that hour paid beyond the long one.
   */
  lemma CurrentRegime(b: Bundle, direction: FundingDirection, i: nat) returns (j: nat)
    requires FundingReady(b, direction) && i < 168
    ensures |CurrentRows(b, direction)| == 168 && j < |Pairs(b)|
    ensures var row, pair := CurrentRows(b, direction)[i], Pairs(b)[j];
      && row.at == pair.at == b.evaluationEnd - (167 - i) * 3_600_000_000
      && row.value == if direction == ShortLighterLongDydx then pair.lighterRate - pair.dydxRate
                      else pair.dydxRate - pair.lighterRate
  {
    var rows := CurrentRows(b, direction);
    assert |rows| == |CurrentStamps(b)| == 168 && rows[i].at == Stamps(rows)[i] == CurrentStamps(b)[i];
    RowsBetweenMembers(OrientedRows(b, direction), b.evaluationEnd - 167 * HOUR, b.evaluationEnd);
    assert rows[i] in rows;
    hide RowsBetween, Pairs;
    j :| 0 <= j < |OrientedRows(b, direction)| && OrientedRows(b, direction)[j] == rows[i];
  }
}
