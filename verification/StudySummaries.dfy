/** Order-free summaries of the spreads: distributions and monthly totals. */
module StudySummaries {
  import opened Numbers
  import opened OrderStatistics
  import opened FundingSeries
  import opened Settlements
  import opened StudyPairing

  // ---------------------------------------------------------------- distributions

  datatype DistributionSummary = DistributionSummary(
    count: int,
    mean: real,
    median: real,
    percentile05: real,
    percentile95: real,
    minimum: real,
    maximum: real,
    positiveCount: int,
    zeroCount: int,
    negativeCount: int,
    positiveFraction: real,
    zeroFraction: real,
    negativeFraction: real)

  /** The distribution record's own checks. */
  predicate ValidDistribution(d: DistributionSummary) {
    && d.count >= 1
    && d.minimum <= d.percentile05 <= d.median <= d.percentile95 <= d.maximum
    && d.positiveCount >= 0 && d.zeroCount >= 0 && d.negativeCount >= 0
    && d.positiveCount + d.zeroCount + d.negativeCount == d.count
    && d.positiveFraction == d.positiveCount as real / d.count as real
    && d.zeroFraction == d.zeroCount as real / d.count as real
    && d.negativeFraction == d.negativeCount as real / d.count as real
    && 0.0 <= d.positiveFraction <= 1.0 && 0.0 <= d.zeroFraction <= 1.0 && 0.0 <= d.negativeFraction <= 1.0
  }

  function CountPositives(values: seq<real>): nat {
    if values == [] then 0 else (if values[0] > 0.0 then 1 else 0) + CountPositives(values[1..])
  }

  function CountZeros(values: seq<real>): nat {
    if values == [] then 0 else (if values[0] == 0.0 then 1 else 0) + CountZeros(values[1..])
  }

  function CountNegatives(values: seq<real>): nat {
    if values == [] then 0 else (if values[0] < 0.0 then 1 else 0) + CountNegatives(values[1..])
  }

  lemma {:induction false} SignsPartition(values: seq<real>)
    ensures CountPositives(values) + CountZeros(values) + CountNegatives(values) == |values|
  {
    if values != [] {
      SignsPartition(values[1..]);
    }
  }

  function MinOf(s: seq<real>): real
    requires s != []
  {
    if |s| == 1 then s[0] else Min(MinOf(s[..|s| - 1]), s[|s| - 1])
  }

  lemma {:induction false} MinOfMeaning(s: seq<real>)
    requires s != []
    ensures MinOf(s) in s
    ensures forall k :: 0 <= k < |s| ==> MinOf(s) <= s[k]
  {
    if |s| > 1 {
      MinOfMeaning(s[..|s| - 1]);
      assert forall x :: x in s[..|s| - 1] ==> x in s;
      assert forall k :: 0 <= k < |s| - 1 ==> s[k] == s[..|s| - 1][k];
    }
  }

  function Distribution(values: seq<real>): Outcome<DistributionSummary> {
    if values == [] then ValueError
    else
      var n := |values|;
      var p, z, m := CountPositives(values), CountZeros(values), CountNegatives(values);
      Ok(DistributionSummary(n, Sum(values) / n as real,
        RankValue(values, 0.5), RankValue(values, 0.05), RankValue(values, 0.95),
        MinOf(values), MaxOf(values), p, z, m,
        p as real / n as real, z as real / n as real, m as real / n as real))
  }

  /** A percentile is a sample member, so it lies between the extremes. */
  lemma RankBetween(values: seq<real>, p: real)
    requires values != [] && 0.0 < p <= 1.0
    ensures MinOf(values) <= RankValue(values, p) <= MaxOf(values)
  {
    SortedKeeps(values, 0.0);
    MinOfMeaning(values);
    MaxOfMeaning(values);
    hide Sorted, RankIndex, MinOf, MaxOf, Ascending;
    assert RankValue(values, p) in Sorted(values);
    assert RankValue(values, p) in values;
  }

  /** A distribution exists for every nonempty sample and passes the record's own checks. */
  lemma DistributionValid(values: seq<real>)
    ensures Distribution(values).Ok? <==> values != []
    ensures values != [] ==> ValidDistribution(Distribution(values).value)
  {
    if values != [] {
      hide RankValue, MinOf, MaxOf, Sum, CountPositives, CountZeros, CountNegatives;
      RankBetween(values, 0.05);
      RankBetween(values, 0.95);
      NearestRankMonotone(values, 0.05, 0.5);
      NearestRankMonotone(values, 0.5, 0.95);
      SignsPartition(values);
      ShareInUnit(CountPositives(values), |values|);
      ShareInUnit(CountZeros(values), |values|);
      ShareInUnit(CountNegatives(values), |values|);
    }
  }

  /** The signs are counted as the sample's order counts them: below zero, at most zero, and the rest. */
  lemma {:induction false} SignCounts(values: seq<real>)
    ensures CountNegatives(values) == CountBelow(values, 0.0)
    ensures CountNegatives(values) + CountZeros(values) == CountAtMost(values, 0.0)
    ensures CountPositives(values) == |values| - CountAtMost(values, 0.0)
  {
    if values != [] {
      SignCounts(values[1..]);
    }
  }

  /** Every figure of a distribution, said of the sample without sorting it. */
  lemma DistributionMeaning(values: seq<real>)
    requires values != []
    ensures var d, n := Distribution(values).value, |values|;
      && d.count == n && d.mean == Sum(values) / n as real
      && IsLeastCovering(values, 0.05 * n as real, d.percentile05)
      && IsLeastCovering(values, 0.5 * n as real, d.median)
      && IsLeastCovering(values, 0.95 * n as real, d.percentile95)
      && d.minimum in values && d.maximum in values
      && (forall k :: 0 <= k < n ==> d.minimum <= values[k] <= d.maximum)
      && d.negativeCount == CountBelow(values, 0.0)
      && d.zeroCount == CountAtMost(values, 0.0) - CountBelow(values, 0.0)
      && d.positiveCount == n - CountAtMost(values, 0.0)
  {
    hide RankValue, MinOf, MaxOf, Sum, IsLeastCovering, CountPositives, CountZeros, CountNegatives, CountAtMost,
      CountBelow;
    SignCounts(values);
    MinOfMeaning(values);
    MaxOfMeaning(values);
    RankLeast(values, 0.05);
    RankLeast(values, 0.5);
    RankLeast(values, 0.95);
  }

  // ---------------------------------------------------------------- monthly totals

  /** A calendar month, as year * 12 + month, and the spread earned in it. */
  datatype MonthlyContribution = MonthlyContribution(month: int, grossFunding: real)

  /** The spreads of the first n blocks whose end falls in month m. */
  ghost function MonthTotal(blocks: seq<PairedBlock>, monthOf: int -> int, n: nat, m: int): real
    requires n <= |blocks|
  {
    if n == 0 then 0.0
    else MonthTotal(blocks, monthOf, n - 1, m)
         + (if monthOf(blocks[n - 1].blockEnd) == m then blocks[n - 1].spread else 0.0)
  }

  ghost predicate HasMonth(blocks: seq<PairedBlock>, monthOf: int -> int, n: nat, m: int)
    requires n <= |blocks|
  {
    exists k :: 0 <= k < n && monthOf(blocks[k].blockEnd) == m
  }

  ghost predicate TotalsBy(totals: map<int, real>, blocks: seq<PairedBlock>, monthOf: int -> int, n: nat)
    requires n <= |blocks|
  {
    forall m :: (m in totals <==> HasMonth(blocks, monthOf, n, m))
                && (m in totals ==> totals[m] == MonthTotal(blocks, monthOf, n, m))
  }

  lemma {:induction false} NoMonthNoTotal(blocks: seq<PairedBlock>, monthOf: int -> int, n: nat, m: int)
    requires n <= |blocks| && !HasMonth(blocks, monthOf, n, m)
    ensures MonthTotal(blocks, monthOf, n, m) == 0.0
  {
    if n > 0 {
      assert monthOf(blocks[n - 1].blockEnd) != m;
      NoMonthNoTotal(blocks, monthOf, n - 1, m);
    }
  }

  function Total(totals: map<int, real>, month: int): real {
    if month in totals then totals[month] else 0.0
  }

  lemma TotalsNext(totals: map<int, real>, blocks: seq<PairedBlock>, monthOf: int -> int, n: nat)
    requires n < |blocks| && TotalsBy(totals, blocks, monthOf, n)
    ensures var month := monthOf(blocks[n].blockEnd);
      TotalsBy(totals[month := Total(totals, month) + blocks[n].spread], blocks, monthOf, n + 1)
  {
    var month := monthOf(blocks[n].blockEnd);
    var totals' := totals[month := Total(totals, month) + blocks[n].spread];
    forall m
      ensures m in totals' <==> HasMonth(blocks, monthOf, n + 1, m)
      ensures m in totals' ==> totals'[m] == MonthTotal(blocks, monthOf, n + 1, m)
    {
      assert m in totals <==> HasMonth(blocks, monthOf, n, m);
      HasMonthNext(blocks, monthOf, n, m);
      if m == month && m !in totals {
        NoMonthNoTotal(blocks, monthOf, n, m);
      }
    }
  }

  lemma HasMonthNext(blocks: seq<PairedBlock>, monthOf: int -> int, n: nat, m: int)
    requires n < |blocks|
    ensures HasMonth(blocks, monthOf, n + 1, m) <==>
      HasMonth(blocks, monthOf, n, m) || monthOf(blocks[n].blockEnd) == m
  {
    if HasMonth(blocks, monthOf, n, m) {
      var k :| 0 <= k < n && monthOf(blocks[k].blockEnd) == m;
      assert 0 <= k < n + 1;
    }
  }

  ghost predicate MonthsOrdered(monthly: seq<MonthlyContribution>) {
    forall i, j :: 0 <= i < j < |monthly| ==> monthly[i].month < monthly[j].month
  }

  ghost predicate Lists(monthly: seq<MonthlyContribution>, m: int) {
    exists c :: c in monthly && c.month == m
  }

  /** One entry for each month with a block, in month order, holding that month's spreads. */
  ghost predicate IsMonthly(monthly: seq<MonthlyContribution>, blocks: seq<PairedBlock>, monthOf: int -> int) {
    && MonthsOrdered(monthly)
    && (forall m :: Lists(monthly, m) <==> HasMonth(blocks, monthOf, |blocks|, m))
    && (forall c :: c in monthly ==> c.grossFunding == MonthTotal(blocks, monthOf, |blocks|, c.month))
  }

  /** The months before every pending one are listed with their totals. */
  ghost predicate ListedBefore(monthly: seq<MonthlyContribution>, totals: map<int, real>, pending: set<int>) {
    && MonthsOrdered(monthly)
    && pending <= totals.Keys
    && (forall c :: c in monthly ==> c.month in totals.Keys - pending && c.grossFunding == totals[c.month])
    && (forall c, m :: c in monthly && m in pending ==> c.month < m)
    && (forall m :: m in totals.Keys - pending ==> Lists(monthly, m))
  }

  lemma ListNext(monthly: seq<MonthlyContribution>, totals: map<int, real>, pending: set<int>, m: int)
    requires ListedBefore(monthly, totals, pending)
    requires m in pending && m in totals && forall u :: u in pending ==> m <= u
    ensures ListedBefore(monthly + [MonthlyContribution(m, totals[m])], totals, pending - {m})
  {
    var c := MonthlyContribution(m, totals[m]);
    var monthly' := monthly + [c];
    assert c in monthly';
    assert MonthsOrdered(monthly') by {
      forall i, j | 0 <= i < j < |monthly'| ensures monthly'[i].month < monthly'[j].month {
        assert monthly[i] in monthly;
      }
    }
    forall u | u in totals.Keys - (pending - {m}) ensures Lists(monthly', u) {
      if u != m {
        assert u in totals.Keys - pending;
        var x :| x in monthly && x.month == u;
        assert x in monthly';
      }
    }
  }

  lemma ListedAll(monthly: seq<MonthlyContribution>, totals: map<int, real>, blocks: seq<PairedBlock>,
                  monthOf: int -> int)
    requires ListedBefore(monthly, totals, {}) && TotalsBy(totals, blocks, monthOf, |blocks|)
    ensures IsMonthly(monthly, blocks, monthOf)
  {
    hide MonthTotal, HasMonth;
    forall m ensures Lists(monthly, m) <==> HasMonth(blocks, monthOf, |blocks|, m) {
      if m in totals {
        assert m in totals.Keys - {};
      }
    }
  }

  /** Adds each spread to its month, then lists the months in order. */
  method MonthlyTotals(blocks: seq<PairedBlock>, monthOf: int -> int) returns (monthly: seq<MonthlyContribution>)
    ensures IsMonthly(monthly, blocks, monthOf)
  {
    hide *;
    var totals: map<int, real> := map[];
    NoTotals(blocks, monthOf);
    for n := 0 to |blocks|
      invariant TotalsBy(totals, blocks, monthOf, n)
    {
      TotalsNext(totals, blocks, monthOf, n);
      var month := monthOf(blocks[n].blockEnd);
      totals := totals[month := Total(totals, month) + blocks[n].spread];
    }
    monthly := [];
    var pending := totals.Keys;
    NothingListed(totals);
    while pending != {}
      invariant pending <= totals.Keys
      invariant ListedBefore(monthly, totals, pending)
      decreases |pending|
    {
      var m := Least(pending);
      ListNext(monthly, totals, pending, m);
      monthly := monthly + [MonthlyContribution(m, totals[m])];
      pending := pending - {m};
    }
    ListedAll(monthly, totals, blocks, monthOf);
  }

  lemma NoTotals(blocks: seq<PairedBlock>, monthOf: int -> int)
    ensures TotalsBy(map[], blocks, monthOf, 0)
  {
  }

  lemma NothingListed(totals: map<int, real>)
    ensures ListedBefore([], totals, totals.Keys)
  {
  }

  // ---------------------------------------------------------------- the months conserve the total

  ghost function Contributions(monthly: seq<MonthlyContribution>): (r: seq<real>)
    ensures |r| == |monthly|
  {
    seq(|monthly|, i requires 0 <= i < |monthly| => monthly[i].grossFunding)
  }

  /** Raising one term raises the sum by as much. */
  lemma {:induction false} SumBump(s: seq<real>, t: seq<real>, k: nat, x: real, n: nat)
    requires |s| == |t| && k < n <= |s|
    requires t[k] == s[k] + x && forall i :: 0 <= i < |s| && i != k ==> t[i] == s[i]
    ensures SumRange(t, 0, n) == SumRange(s, 0, n) + x
    decreases n
  {
    if k < n - 1 {
      SumBump(s, t, k, x, n - 1);
    } else {
      SumUnchanged(s, t, n - 1);
    }
  }

  lemma {:induction false} SumUnchanged(s: seq<real>, t: seq<real>, n: nat)
    requires n <= |s| && n <= |t| && forall i :: 0 <= i < n ==> t[i] == s[i]
    ensures SumRange(t, 0, n) == SumRange(s, 0, n)
    decreases n
  {
    if n > 0 {
      SumUnchanged(s, t, n - 1);
    }
  }

  /** The totals of the first n blocks for the months of a list. */
  ghost function TotalsFor(monthly: seq<MonthlyContribution>, blocks: seq<PairedBlock>, monthOf: int -> int,
                           n: nat): (r: seq<real>)
    requires n <= |blocks|
    ensures |r| == |monthly|
  {
    seq(|monthly|, i requires 0 <= i < |monthly| => MonthTotal(blocks, monthOf, n, monthly[i].month))
  }

  lemma {:induction false} SumZeros(s: seq<real>, n: nat)
    requires n <= |s| && forall i :: 0 <= i < n ==> s[i] == 0.0
    ensures SumRange(s, 0, n) == 0.0
    decreases n
  {
    if n > 0 {
      SumZeros(s, n - 1);
    }
  }

  lemma {:induction false} TotalsConserve(monthly: seq<MonthlyContribution>, blocks: seq<PairedBlock>,
                                          monthOf: int -> int, n: nat)
    requires n <= |blocks| && MonthsOrdered(monthly)
    requires forall k :: 0 <= k < n ==> Lists(monthly, monthOf(blocks[k].blockEnd))
    ensures Sum(TotalsFor(monthly, blocks, monthOf, n)) == SumRange(Spreads(blocks), 0, n)
    decreases n
  {
    var totals := TotalsFor(monthly, blocks, monthOf, n);
    if n == 0 {
      SumZeros(totals, |totals|);
    } else {
      TotalsConserve(monthly, blocks, monthOf, n - 1);
      var month := monthOf(blocks[n - 1].blockEnd);
      assert Lists(monthly, month);
      var c :| c in monthly && c.month == month;
      var k :| 0 <= k < |monthly| && monthly[k] == c;
      hide SumRange, Lists;
      SumBump(TotalsFor(monthly, blocks, monthOf, n - 1), totals, k, blocks[n - 1].spread, |monthly|);
      SpreadNext(blocks, n);
    }
  }

  lemma SpreadNext(blocks: seq<PairedBlock>, n: nat)
    requires 0 < n <= |blocks|
    ensures SumRange(Spreads(blocks), 0, n) == SumRange(Spreads(blocks), 0, n - 1) + blocks[n - 1].spread
  {
  }

  lemma MonthsListed(monthly: seq<MonthlyContribution>, blocks: seq<PairedBlock>, monthOf: int -> int)
    requires IsMonthly(monthly, blocks, monthOf)
    ensures forall k :: 0 <= k < |blocks| ==> Lists(monthly, monthOf(blocks[k].blockEnd))
    ensures monthly == [] <==> blocks == []
  {
    hide MonthTotal, MonthsOrdered;
    forall k | 0 <= k < |blocks| ensures Lists(monthly, monthOf(blocks[k].blockEnd)) {
      assert HasMonth(blocks, monthOf, |blocks|, monthOf(blocks[k].blockEnd));
    }
    if monthly != [] {
      assert monthly[0] in monthly;
      assert Lists(monthly, monthly[0].month);
      assert HasMonth(blocks, monthOf, |blocks|, monthly[0].month);
    }
    assert blocks != [] ==> Lists(monthly, monthOf(blocks[0].blockEnd));
  }

  /** Regrouping by month neither loses nor counts twice any spread. */
  lemma MonthsConserve(monthly: seq<MonthlyContribution>, blocks: seq<PairedBlock>, monthOf: int -> int)
    requires IsMonthly(monthly, blocks, monthOf)
    ensures Sum(Contributions(monthly)) == Sum(Spreads(blocks))
    ensures monthly == [] <==> blocks == []
  {
    MonthsListed(monthly, blocks, monthOf);
    hide SumRange, MonthTotal, MonthsOrdered, HasMonth, Lists;
    TotalsConserve(monthly, blocks, monthOf, |blocks|);
    assert Contributions(monthly) == TotalsFor(monthly, blocks, monthOf, |blocks|) by {
      assert forall k :: 0 <= k < |monthly| ==> monthly[k] in monthly;
    }
  }
}
