/** Sorting, nearest-rank percentiles, the exact median and the direction it selects. */
module OrderStatistics {
  import opened Numbers

  ghost predicate Ascending(s: seq<real>) {
    forall i, j :: 0 <= i < j < |s| ==> s[i] <= s[j]
  }

  function Insert(x: real, s: seq<real>): seq<real> {
    if s == [] || x <= s[0] then [x] + s else [s[0]] + Insert(x, s[1..])
  }

  /** Python's sorted on exact numbers. */
  function Sorted(s: seq<real>): seq<real> {
    if s == [] then [] else Insert(s[0], Sorted(s[1..]))
  }

  function CountBelow(s: seq<real>, x: real): nat {
    if s == [] then 0 else (if s[0] < x then 1 else 0) + CountBelow(s[1..], x)
  }

  function CountAtMost(s: seq<real>, x: real): nat {
    if s == [] then 0 else (if s[0] <= x then 1 else 0) + CountAtMost(s[1..], x)
  }

  /** x is the value that a sorted copy of s holds at index k, said without sorting. */
  ghost predicate IsRank(s: seq<real>, k: int, x: real) {
    CountBelow(s, x) <= k < CountAtMost(s, x)
  }

  lemma {:induction false} InsertKeeps(x: real, s: seq<real>, y: real)
    ensures |Insert(x, s)| == |s| + 1
    ensures CountBelow(Insert(x, s), y) == CountBelow([x], y) + CountBelow(s, y)
    ensures CountAtMost(Insert(x, s), y) == CountAtMost([x], y) + CountAtMost(s, y)
    ensures forall z :: z in Insert(x, s) <==> z == x || z in s
  {
    if s == [] || x <= s[0] {
      assert ([x] + s)[1..] == s;
    } else {
      InsertKeeps(x, s[1..], y);
      var t := Insert(x, s[1..]);
      assert ([s[0]] + t)[1..] == t;
      assert forall z :: z in s <==> z == s[0] || z in s[1..];
    }
  }

  lemma AscendingCons(x: real, t: seq<real>)
    requires Ascending(t) && forall z :: z in t ==> x <= z
    ensures Ascending([x] + t)
  {
    forall i, j | 0 <= i < j < |t| + 1 ensures ([x] + t)[i] <= ([x] + t)[j] {
      assert t[j - 1] in t;
    }
  }

  lemma {:induction false} InsertAscending(x: real, s: seq<real>)
    requires Ascending(s)
    ensures Ascending(Insert(x, s))
  {
    if s != [] && s[0] < x {
      var t := Insert(x, s[1..]);
      assert Insert(x, s) == [s[0]] + t;
      InsertAscending(x, s[1..]);
      InsertKeeps(x, s[1..], x);
      hide Insert, CountBelow, CountAtMost;
      assert forall z :: z in s[1..] ==> s[0] <= z;
      AscendingCons(s[0], t);
    }
  }

  lemma {:induction false} SortedKeeps(s: seq<real>, y: real)
    ensures |Sorted(s)| == |s|
    ensures CountBelow(Sorted(s), y) == CountBelow(s, y)
    ensures CountAtMost(Sorted(s), y) == CountAtMost(s, y)
    ensures forall z :: z in Sorted(s) <==> z in s
    ensures Ascending(Sorted(s))
  {
    if s != [] {
      SortedKeeps(s[1..], y);
      InsertKeeps(s[0], Sorted(s[1..]), y);
      InsertAscending(s[0], Sorted(s[1..]));
      assert forall z :: z in s <==> z == s[0] || z in s[1..];
    }
  }

  lemma {:induction false} CountsOrdered(s: seq<real>, x: real, y: real)
    ensures CountBelow(s, x) <= CountAtMost(s, x) <= |s|
    ensures x < y ==> CountAtMost(s, x) <= CountBelow(s, y)
    ensures x in s ==> CountBelow(s, x) < CountAtMost(s, x)
    ensures CountBelow(s, x) < CountAtMost(s, x) ==> x in s
  {
    if s != [] {
      CountsOrdered(s[1..], x, y);
    }
  }

  /** An ascending sequence holds at index k exactly the value of rank k. */
  lemma {:induction false} AscendingRank(t: seq<real>, k: nat)
    requires Ascending(t) && k < |t|
    ensures IsRank(t, k, t[k])
  {
    if k == 0 {
      NoneBelow(t, t[0]);
    } else {
      AscendingRank(t[1..], k - 1);
    }
  }

  lemma {:induction false} NoneBelow(t: seq<real>, x: real)
    requires forall z :: z in t ==> x <= z
    ensures CountBelow(t, x) == 0
  {
    if t != [] {
      assert t[0] in t && forall z :: z in t[1..] ==> z in t;
      NoneBelow(t[1..], x);
    }
  }

  lemma SortedRank(s: seq<real>, k: nat)
    requires k < |s|
    ensures |Sorted(s)| == |s| && IsRank(s, k, Sorted(s)[k])
  {
    SortedKeeps(s, 0.0);
    SortedKeeps(s, Sorted(s)[k]);
    AscendingRank(Sorted(s), k);
  }

  /** Ranks determine values, and larger ranks never have smaller values. */
  lemma RanksOrdered(s: seq<real>, j: int, x: real, k: int, y: real)
    requires IsRank(s, j, x) && IsRank(s, k, y) && j <= k
    ensures x <= y
  {
    CountsOrdered(s, y, x);
  }

  // ---------------------------------------------------------------- nearest rank

  /** The zero-based rank ceil(p * n) - 1, with p * n computed first. */
  function RankIndex(n: nat, p: real): (k: nat)
    requires n > 0 && 0.0 < p <= 1.0
    ensures k < n
    ensures (k as real) < p * n as real <= (k + 1) as real
  {
    var exact := p * n as real;
    assert 0.0 < exact <= n as real;
    Ceiling(exact) - 1
  }

  /** The nearest-rank percentile of a nonempty sample, for 0 < p <= 1. */
  function RankValue(values: seq<real>, p: real): real
    requires values != [] && 0.0 < p <= 1.0
  {
    SortedKeeps(values, 0.0);
    Sorted(values)[RankIndex(|values|, p)]
  }

  function NearestRank(values: seq<real>, p: real): Outcome<real> {
    if values == [] || p <= 0.0 || p > 1.0 then ValueError else Ok(RankValue(values, p))
  }

  /** x is the least member of the sample that at least `target` members do not exceed. */
  ghost predicate IsLeastCovering(values: seq<real>, target: real, x: real) {
    && x in values
    && CountAtMost(values, x) as real >= target
    && forall y :: y in values && y < x ==> (CountAtMost(values, y) as real) < target
  }

  lemma RankCovers(values: seq<real>, k: nat, x: real, target: real)
    requires IsRank(values, k, x) && (k as real) < target <= (k + 1) as real
    ensures IsLeastCovering(values, target, x)
  {
    CountsOrdered(values, x, x);
    forall y | y in values && y < x
      ensures (CountAtMost(values, y) as real) < target
    {
      CountsOrdered(values, y, x);
    }
  }

  /** The percentile is the least sample member not exceeded by at least the fraction p of it. */
  lemma NearestRankMeaning(values: seq<real>, p: real)
    requires NearestRank(values, p).Ok?
    ensures IsLeastCovering(values, p * |values| as real, NearestRank(values, p).value)
  {
    var k := RankIndex(|values|, p);
    SortedRank(values, k);
    RankCovers(values, k, RankValue(values, p), p * |values| as real);
  }

  lemma RankLeast(values: seq<real>, p: real)
    requires values != [] && 0.0 < p <= 1.0
    ensures IsLeastCovering(values, p * |values| as real, RankValue(values, p))
  {
    NearestRankMeaning(values, p);
    hide RankValue, IsLeastCovering;
  }

  lemma BelowNextWhole(j: int, x: real, y: real, k: int)
    requires (j as real) < x <= y <= (k + 1) as real
    ensures j <= k
  {
  }

  lemma RankIndexMonotone(n: nat, p: real, q: real)
    requires n > 0 && 0.0 < p <= q <= 1.0
    ensures RankIndex(n, p) <= RankIndex(n, q)
  {
    var j, k := RankIndex(n, p), RankIndex(n, q);
    hide RankIndex, Ceiling;
    var size := n as real;
    ScaleLe(p, q, size);
    assert (j as real) < p * size;
    assert q * size <= (k + 1) as real;
    BelowNextWhole(j, p * size, q * size, k);
  }

  lemma NearestRankMonotone(values: seq<real>, p: real, q: real)
    requires values != [] && 0.0 < p <= q <= 1.0
    ensures RankValue(values, p) <= RankValue(values, q)
  {
    var j, k := RankIndex(|values|, p), RankIndex(|values|, q);
    RankIndexMonotone(|values|, p, q);
    SortedRank(values, j);
    SortedRank(values, k);
    RanksOrdered(values, j, RankValue(values, p), k, RankValue(values, q));
  }

  // ---------------------------------------------------------------- median and direction

  datatype FundingDirection = ShortLighterLongDydx | ShortDydxLongLighter

  function Opposite(d: FundingDirection): FundingDirection {
    if d.ShortLighterLongDydx? then ShortDydxLongLighter else ShortLighterLongDydx
  }

  function Median(values: seq<real>): real
    requires values != []
  {
    SortedKeeps(values, 0.0);
    var ordered := Sorted(values);
    var middle := |ordered| / 2;
    if |ordered| % 2 == 1 then ordered[middle] else (ordered[middle - 1] + ordered[middle]) / 2.0
  }

  function SelectDirection(values: seq<real>): Outcome<Option<FundingDirection>> {
    if values == [] then ValueError
    else if Median(values) > 0.0 then Ok(Some(ShortLighterLongDydx))
    else if Median(values) < 0.0 then Ok(Some(ShortDydxLongLighter))
    else Ok(None)
  }

  function Negated(values: seq<real>): seq<real> {
    seq(|values|, i requires 0 <= i < |values| => -values[i])
  }

  function OrientFunding(values: seq<real>, direction: FundingDirection): Outcome<seq<real>> {
    if values == [] then ValueError
    else match direction
      case ShortLighterLongDydx => Ok(values)
      case ShortDydxLongLighter => Ok(Negated(values))
  }

  lemma {:induction false} NegatedCounts(s: seq<real>, x: real)
    ensures CountBelow(Negated(s), -x) == |s| - CountAtMost(s, x)
    ensures CountAtMost(Negated(s), -x) == |s| - CountBelow(s, x)
  {
    if s != [] {
      NegatedCounts(s[1..], x);
      assert Negated(s)[1..] == Negated(s[1..]);
    }
  }

  /** Sorting the negated sample reads the sorted sample backwards. */
  lemma NegatedRank(s: seq<real>, k: nat)
    requires k < |s|
    ensures |Sorted(Negated(s))| == |Sorted(s)| == |s|
    ensures Sorted(Negated(s))[k] == -Sorted(s)[|s| - 1 - k]
  {
    var j := |s| - 1 - k;
    SortedRank(s, j);
    SortedRank(Negated(s), k);
    var x, y := Sorted(s)[j], Sorted(Negated(s))[k];
    NegatedCounts(s, x);
    RanksOrdered(Negated(s), k, y, k, -x);
    RanksOrdered(Negated(s), k, -x, k, y);
  }

  /** The median lies midway between the two middle ranks of the sample, which are one and the same for an odd size. */
  lemma MedianMeaning(values: seq<real>) returns (low: real, high: real)
    requires values != []
    ensures IsRank(values, (|values| - 1) / 2, low) && IsRank(values, |values| / 2, high)
    ensures Median(values) - low == high - Median(values)
  {
    SortedRank(values, (|values| - 1) / 2);
    SortedRank(values, |values| / 2);
    low, high := Sorted(values)[(|values| - 1) / 2], Sorted(values)[|values| / 2];
    hide Sorted, IsRank;
    assert |values| % 2 == 1 ==> (|values| - 1) / 2 == |values| / 2;
    assert |values| % 2 == 0 ==> (|values| - 1) / 2 == |values| / 2 - 1;
  }

  lemma MedianNegated(values: seq<real>)
    requires values != []
    ensures Median(Negated(values)) == -Median(values)
  {
    var n := |values|;
    NegatedRank(values, n / 2);
    if n % 2 == 0 {
      NegatedRank(values, n / 2 - 1);
    }
  }

  /** Orienting a series by its own direction leaves a positive median of the same size. */
  lemma OrientedBySelf(values: seq<real>)
    requires values != []
    ensures SelectDirection(values).Ok?
    ensures SelectDirection(values).value == None <==> Median(values) == 0.0
    ensures match SelectDirection(values).value
      case None => true
      case Some(d) =>
        var oriented := OrientFunding(values, d);
        && oriented.Ok? && oriented.value != []
        && Median(oriented.value) == (if Median(values) < 0.0 then -Median(values) else Median(values))
        && Median(oriented.value) > 0.0
        && SelectDirection(oriented.value) == Ok(Some(ShortLighterLongDydx))
  {
    MedianNegated(values);
  }

  lemma NegationFlipsDirection(values: seq<real>)
    requires values != []
    ensures SelectDirection(values).Ok? && SelectDirection(Negated(values)).Ok?
    ensures match SelectDirection(values).value
      case None => SelectDirection(Negated(values)).value == None
      case Some(d) => SelectDirection(Negated(values)).value == Some(Opposite(d))
  {
    MedianNegated(values);
  }
}
