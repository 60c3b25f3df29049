/** Pairs complete blocks of the two venues and accounts for every requested block. */
module StudyPairing {
  import opened Numbers
  import opened Ordering
  import opened Settlements
  import opened StudyBlocks

  const COMMON_BLOCK_HOURS := 8.0

  function Rates(ss: seq<Settlement>): (r: seq<real>)
    ensures |r| == |ss|
  {
    seq(|ss|, i requires 0 <= i < |ss| => ss[i].rate)
  }

  function Hours(ss: seq<Settlement>): (r: seq<real>)
    ensures |r| == |ss|
  {
    seq(|ss|, i requires 0 <= i < |ss| => ss[i].intervalHours)
  }

  datatype Native = Native(rate: real, complete: bool)

  /** A venue's rate over one block, complete when its intervals fill the block exactly. */
  function SummarizeNativeBlock(values: seq<Settlement>): Outcome<Native> {
    var hours := Sum(Hours(values));
    if hours > COMMON_BLOCK_HOURS then ValueError
    else Ok(Native(Sum(Rates(values)), hours == COMMON_BLOCK_HOURS))
  }

  datatype PairedBlock = PairedBlock(blockStart: int, blockEnd: int, bybitRate: real, hyperliquidRate: real,
    spread: real)

  predicate ValidPairedBlock(p: PairedBlock) {
    p.blockStart < p.blockEnd && p.spread == p.hyperliquidRate - p.bybitRate
  }

  datatype Underfilled = BybitIntervalUnderfilled | HyperliquidIntervalUnderfilled

  datatype IncompleteBlock = IncompleteBlock(blockEnd: int, reasons: seq<Underfilled>)

  /** Sorted and without repeats, as the record demands; never empty. */
  predicate ValidReasons(reasons: seq<Underfilled>) {
    || reasons == [BybitIntervalUnderfilled]
    || reasons == [HyperliquidIntervalUnderfilled]
    || reasons == [BybitIntervalUnderfilled, HyperliquidIntervalUnderfilled]
  }

  datatype Coverage = Coverage(
    requested: int,
    bybitComplete: int,
    hyperliquidComplete: int,
    pairedComplete: int,
    ratio: real,
    firstPairedAt: Option<int>,
    lastPairedAt: Option<int>,
    incomplete: seq<IncompleteBlock>)

  ghost predicate IncompleteOrdered(blocks: seq<IncompleteBlock>) {
    forall i, j :: 0 <= i < j < |blocks| ==> blocks[i].blockEnd < blocks[j].blockEnd
  }

  /** The coverage record's own checks. */
  ghost predicate ValidCoverage(c: Coverage) {
    && c.requested >= 1
    && 0 <= c.bybitComplete <= c.requested && 0 <= c.hyperliquidComplete <= c.requested
    && 0 <= c.pairedComplete <= c.bybitComplete && c.pairedComplete <= c.hyperliquidComplete
    && 0.0 <= c.ratio <= 1.0
    && c.ratio == c.pairedComplete as real / c.requested as real
    && ((c.firstPairedAt.Some? && c.lastPairedAt.Some?) <==> c.pairedComplete > 0)
    && (c.firstPairedAt.Some? && c.lastPairedAt.Some? ==> c.firstPairedAt.value <= c.lastPairedAt.value)
    && |c.incomplete| == c.requested - c.pairedComplete
    && IncompleteOrdered(c.incomplete)
    && forall k :: 0 <= k < |c.incomplete| ==> ValidReasons(c.incomplete[k].reasons)
  }

  datatype Availability = PointInTime | HistoricalReconstruction | NoData

  predicate Prompt(s: Settlement) {
    s.observedAt - s.effectiveAt <= POINT_IN_TIME_MAX_LAG
  }

  function ClassifyAvailability(values: seq<Settlement>): Availability {
    if values == [] then NoData
    else if forall s :: s in values ==> Prompt(s) then PointInTime
    else HistoricalReconstruction
  }

  // ---------------------------------------------------------------- one pass over the requested blocks

  /** What the scan has collected after some blocks. */
  datatype Scan = Scan(
    paired: seq<PairedBlock>,
    incomplete: seq<IncompleteBlock>,
    included: seq<Settlement>,
    bybitComplete: int,
    hyperliquidComplete: int)

  /** The k-th block's settlements of one venue. */
  function Kth(ss: seq<Settlement>, start: int, k: int): seq<Settlement> {
    Members(ss, start, start + BLOCK * k)
  }

  /** The venue's intervals fill block k exactly. */
  predicate Filled(ss: seq<Settlement>, start: int, k: int) {
    Sum(Hours(Kth(ss, start, k))) == 8.0
  }

  predicate Overfilled(ss: seq<Settlement>, start: int, k: int) {
    Sum(Hours(Kth(ss, start, k))) > 8.0
  }

  ghost predicate NeverOverfilled(ss: seq<Settlement>, start: int, n: int) {
    forall k :: 1 <= k <= n ==> !Overfilled(ss, start, k)
  }

  predicate BothFilled(b: seq<Settlement>, h: seq<Settlement>, start: int, k: int) {
    Filled(b, start, k) && Filled(h, start, k)
  }

  /** Block k is paired at these rates. */
  ghost predicate PairsBlock(b: seq<Settlement>, h: seq<Settlement>, start: int, k: int, p: PairedBlock) {
    && BothFilled(b, h, start, k)
    && p.blockEnd == start + BLOCK * k && p.blockStart == p.blockEnd - BLOCK
    && p.bybitRate == Sum(Rates(Kth(b, start, k)))
    && p.hyperliquidRate == Sum(Rates(Kth(h, start, k)))
    && p.spread == p.hyperliquidRate - p.bybitRate
  }

  /** Block k is reported incomplete, naming exactly the venues that do not fill it. */
  ghost predicate MissesBlock(b: seq<Settlement>, h: seq<Settlement>, start: int, k: int, i: IncompleteBlock) {
    && !BothFilled(b, h, start, k)
    && i.blockEnd == start + BLOCK * k
    && ValidReasons(i.reasons)
    && (BybitIntervalUnderfilled in i.reasons <==> !Filled(b, start, k))
    && (HyperliquidIntervalUnderfilled in i.reasons <==> !Filled(h, start, k))
  }

  /** The settlements of one venue in the paired blocks among the first n. */
  ghost function PairedMembers(ss: seq<Settlement>, b: seq<Settlement>, h: seq<Settlement>, start: int,
                               n: nat): seq<Settlement> {
    if n == 0 then []
    else PairedMembers(ss, b, h, start, n - 1) + (if BothFilled(b, h, start, n) then Kth(ss, start, n) else [])
  }

  /** How many of the first n blocks the venue fills. */
  ghost function CountFilled(ss: seq<Settlement>, start: int, n: nat): (c: nat)
    ensures c <= n
  {
    if n == 0 then 0 else CountFilled(ss, start, n - 1) + (if Filled(ss, start, n) then 1 else 0)
  }

  ghost function Spreads(paired: seq<PairedBlock>): (r: seq<real>)
    ensures |r| == |paired|
  {
    seq(|paired|, i requires 0 <= i < |paired| => paired[i].spread)
  }

  ghost predicate PairedOrdered(blocks: seq<PairedBlock>) {
    forall i, j :: 0 <= i < j < |blocks| ==> blocks[i].blockEnd < blocks[j].blockEnd
  }

  /** Every one of the first n blocks is listed once, as paired or as incomplete, in grid order. */
  ghost predicate Accounts(b: seq<Settlement>, h: seq<Settlement>, start: int, n: nat,
                           paired: seq<PairedBlock>, incomplete: seq<IncompleteBlock>) {
    && |paired| + |incomplete| == n
    && PairedOrdered(paired) && IncompleteOrdered(incomplete)
    && (forall p :: p in paired ==> exists k :: 1 <= k <= n && PairsBlock(b, h, start, k, p))
    && (forall i :: i in incomplete ==> exists k :: 1 <= k <= n && MissesBlock(b, h, start, k, i))
    && (forall k :: 1 <= k <= n ==>
          if BothFilled(b, h, start, k) then exists p :: p in paired && PairsBlock(b, h, start, k, p)
          else exists i :: i in incomplete && MissesBlock(b, h, start, k, i))
  }

  /** The paired spreads add up to Hyperliquid minus Bybit over the settlements included. */
  ghost predicate Conserves(b: seq<Settlement>, h: seq<Settlement>, start: int, n: nat, scan: Scan) {
    && Sum(Spreads(scan.paired))
       == Sum(Rates(PairedMembers(h, b, h, start, n))) - Sum(Rates(PairedMembers(b, b, h, start, n)))
    && multiset(scan.included)
         == multiset(PairedMembers(b, b, h, start, n)) + multiset(PairedMembers(h, b, h, start, n))
  }

  ghost predicate Counts(b: seq<Settlement>, h: seq<Settlement>, start: int, n: nat, scan: Scan) {
    && scan.bybitComplete == CountFilled(b, start, n)
    && scan.hyperliquidComplete == CountFilled(h, start, n)
    && |scan.paired| <= scan.bybitComplete && |scan.paired| <= scan.hyperliquidComplete
  }

  ghost predicate ScannedTo(b: seq<Settlement>, h: seq<Settlement>, start: int, n: nat, scan: Scan) {
    && NeverOverfilled(b, start, n) && NeverOverfilled(h, start, n)
    && Accounts(b, h, start, n, scan.paired, scan.incomplete)
    && Conserves(b, h, start, n, scan)
    && Counts(b, h, start, n, scan)
  }

  // ---------------------------------------------------------------- one step of the scan

  lemma RatesConcat(a: seq<Settlement>, b: seq<Settlement>)
    ensures Sum(Rates(a + b)) == Sum(Rates(a)) + Sum(Rates(b))
  {
    SumConcat(Rates(a), Rates(b));
    assert Rates(a + b) == Rates(a) + Rates(b);
  }

  lemma SpreadsAppend(paired: seq<PairedBlock>, p: PairedBlock)
    ensures Sum(Spreads(paired + [p])) == Sum(Spreads(paired)) + p.spread
  {
    SumConcat(Spreads(paired), [p.spread]);
    assert Spreads(paired + [p]) == Spreads(paired) + [p.spread];
    assert [p.spread][..] == [p.spread];
    assert SumRange([p.spread], 0, 0) == 0.0;
  }

  lemma PairStep(b: seq<Settlement>, h: seq<Settlement>, start: int, n: nat, paired: seq<PairedBlock>,
                 incomplete: seq<IncompleteBlock>, p: PairedBlock)
    requires Accounts(b, h, start, n, paired, incomplete) && PairsBlock(b, h, start, n + 1, p)
    ensures Accounts(b, h, start, n + 1, paired + [p], incomplete)
  {
    hide PairsBlock, MissesBlock, BothFilled, IncompleteOrdered;
    EarlierEnds(b, h, start, n, paired, p);
    FilledBoth(b, h, start, n + 1, p);
    var paired' := paired + [p];
    assert p in paired';
    assert forall q :: q in paired' <==> q in paired || q == p;
    forall k | 1 <= k <= n && BothFilled(b, h, start, k)
      ensures exists q :: q in paired' && PairsBlock(b, h, start, k, q)
    {
      var q :| q in paired && PairsBlock(b, h, start, k, q);
      assert q in paired';
    }
  }

  lemma FilledBoth(b: seq<Settlement>, h: seq<Settlement>, start: int, k: int, p: PairedBlock)
    requires PairsBlock(b, h, start, k, p)
    ensures BothFilled(b, h, start, k)
  {
  }

  lemma EarlierEnds(b: seq<Settlement>, h: seq<Settlement>, start: int, n: nat, paired: seq<PairedBlock>,
                    p: PairedBlock)
    requires PairedOrdered(paired) && PairsBlock(b, h, start, n + 1, p)
    requires forall q :: q in paired ==> exists k :: 1 <= k <= n && PairsBlock(b, h, start, k, q)
    ensures PairedOrdered(paired + [p])
  {
    hide BothFilled, Kth;
    forall i | 0 <= i < |paired| ensures paired[i].blockEnd < p.blockEnd {
      assert paired[i] in paired;
    }
  }

  lemma MissStep(b: seq<Settlement>, h: seq<Settlement>, start: int, n: nat, paired: seq<PairedBlock>,
                 incomplete: seq<IncompleteBlock>, i: IncompleteBlock)
    requires Accounts(b, h, start, n, paired, incomplete) && MissesBlock(b, h, start, n + 1, i)
    ensures Accounts(b, h, start, n + 1, paired, incomplete + [i])
  {
    hide PairsBlock, MissesBlock, BothFilled, PairedOrdered;
    EarlierMisses(b, h, start, n, incomplete, i);
    NotBothFilled(b, h, start, n + 1, i);
    var incomplete' := incomplete + [i];
    assert i in incomplete';
    assert forall j :: j in incomplete' <==> j in incomplete || j == i;
    forall k | 1 <= k <= n && !BothFilled(b, h, start, k)
      ensures exists j :: j in incomplete' && MissesBlock(b, h, start, k, j)
    {
      var j :| j in incomplete && MissesBlock(b, h, start, k, j);
      assert j in incomplete';
    }
  }

  lemma NotBothFilled(b: seq<Settlement>, h: seq<Settlement>, start: int, k: int, i: IncompleteBlock)
    requires MissesBlock(b, h, start, k, i)
    ensures !BothFilled(b, h, start, k)
  {
  }

  lemma EarlierMisses(b: seq<Settlement>, h: seq<Settlement>, start: int, n: nat, incomplete: seq<IncompleteBlock>,
                      i: IncompleteBlock)
    requires IncompleteOrdered(incomplete) && MissesBlock(b, h, start, n + 1, i)
    requires forall j :: j in incomplete ==> exists k :: 1 <= k <= n && MissesBlock(b, h, start, k, j)
    ensures IncompleteOrdered(incomplete + [i])
  {
    hide BothFilled, Filled;
    forall m | 0 <= m < |incomplete| ensures incomplete[m].blockEnd < i.blockEnd {
      assert incomplete[m] in incomplete;
    }
  }

  lemma NextOverfill(ss: seq<Settlement>, start: int, n: nat)
    requires NeverOverfilled(ss, start, n)
    ensures NeverOverfilled(ss, start, n + 1) <==> !Overfilled(ss, start, n + 1)
  {
    hide Overfilled;
  }

  lemma ConservesPaired(b: seq<Settlement>, h: seq<Settlement>, start: int, n: nat, scan: Scan, next: Scan,
                        p: PairedBlock)
    requires Conserves(b, h, start, n, scan) && PairsBlock(b, h, start, n + 1, p)
    requires next.paired == scan.paired + [p]
    requires next.included == scan.included + Kth(b, start, n + 1) + Kth(h, start, n + 1)
    ensures Conserves(b, h, start, n + 1, next)
  {
    SpreadsAppend(scan.paired, p);
    RatesConcat(PairedMembers(b, b, h, start, n), Kth(b, start, n + 1));
    RatesConcat(PairedMembers(h, b, h, start, n), Kth(h, start, n + 1));
    hide Kth, Sum, Rates, Spreads, BothFilled;
  }

  lemma ConservesMissed(b: seq<Settlement>, h: seq<Settlement>, start: int, n: nat, scan: Scan, next: Scan)
    requires Conserves(b, h, start, n, scan) && !BothFilled(b, h, start, n + 1)
    requires next.paired == scan.paired && next.included == scan.included
    ensures Conserves(b, h, start, n + 1, next)
  {
    hide Kth, Sum, Rates, Spreads, BothFilled;
    assert PairedMembers(b, b, h, start, n + 1) == PairedMembers(b, b, h, start, n);
    assert PairedMembers(h, b, h, start, n + 1) == PairedMembers(h, b, h, start, n);
  }

  lemma CountsNext(b: seq<Settlement>, h: seq<Settlement>, start: int, n: nat, scan: Scan, next: Scan)
    requires Counts(b, h, start, n, scan)
    requires |next.paired| == |scan.paired| + (if BothFilled(b, h, start, n + 1) then 1 else 0)
    requires next.bybitComplete == scan.bybitComplete + (if Filled(b, start, n + 1) then 1 else 0)
    requires next.hyperliquidComplete == scan.hyperliquidComplete + (if Filled(h, start, n + 1) then 1 else 0)
    ensures Counts(b, h, start, n + 1, next)
  {
    hide Filled;
  }

  lemma FilledNotOver(ss: seq<Settlement>, start: int, k: int)
    requires Filled(ss, start, k)
    ensures !Overfilled(ss, start, k)
  {
  }

  lemma ScanPaired(b: seq<Settlement>, h: seq<Settlement>, start: int, n: nat, scan: Scan, p: PairedBlock)
    requires ScannedTo(b, h, start, n, scan) && PairsBlock(b, h, start, n + 1, p)
    ensures ScannedTo(b, h, start, n + 1, Scan(scan.paired + [p], scan.incomplete,
      scan.included + Kth(b, start, n + 1) + Kth(h, start, n + 1),
      scan.bybitComplete + 1, scan.hyperliquidComplete + 1))
  {
    hide Accounts, Conserves, Counts, Filled, NeverOverfilled, Overfilled, Kth;
    var next := Scan(scan.paired + [p], scan.incomplete,
      scan.included + Kth(b, start, n + 1) + Kth(h, start, n + 1),
      scan.bybitComplete + 1, scan.hyperliquidComplete + 1);
    PairStep(b, h, start, n, scan.paired, scan.incomplete, p);
    ConservesPaired(b, h, start, n, scan, next, p);
    CountsNext(b, h, start, n, scan, next);
    FilledNotOver(b, start, n + 1);
    FilledNotOver(h, start, n + 1);
    NextOverfill(b, start, n);
    NextOverfill(h, start, n);
  }

  lemma ScanMissed(b: seq<Settlement>, h: seq<Settlement>, start: int, n: nat, scan: Scan, i: IncompleteBlock)
    requires ScannedTo(b, h, start, n, scan) && MissesBlock(b, h, start, n + 1, i)
    requires !Overfilled(b, start, n + 1) && !Overfilled(h, start, n + 1)
    ensures ScannedTo(b, h, start, n + 1, Scan(scan.paired, scan.incomplete + [i], scan.included,
      scan.bybitComplete + (if Filled(b, start, n + 1) then 1 else 0),
      scan.hyperliquidComplete + (if Filled(h, start, n + 1) then 1 else 0)))
  {
    hide Accounts, Conserves, Counts, Filled, NeverOverfilled, Overfilled, Kth;
    var next := Scan(scan.paired, scan.incomplete + [i], scan.included,
      scan.bybitComplete + (if Filled(b, start, n + 1) then 1 else 0),
      scan.hyperliquidComplete + (if Filled(h, start, n + 1) then 1 else 0));
    MissStep(b, h, start, n, scan.paired, scan.incomplete, i);
    ConservesMissed(b, h, start, n, scan, next);
    CountsNext(b, h, start, n, scan, next);
    NextOverfill(b, start, n);
    NextOverfill(h, start, n);
  }

  lemma ScanStart(b: seq<Settlement>, h: seq<Settlement>, start: int)
    ensures ScannedTo(b, h, start, 0, Scan([], [], [], 0, 0))
  {
  }

  // ---------------------------------------------------------------- the scan

  /** Block k of one venue, as the scan reads it. */
  lemma NativeMeaning(ss: seq<Settlement>, start: int, k: int, blocks: map<int, seq<Settlement>>)
    requires GroupsBlocks(ss, start, blocks)
    ensures Block(blocks, start + BLOCK * k) == Kth(ss, start, k)
    ensures SummarizeNativeBlock(Kth(ss, start, k)).Ok? <==> !Overfilled(ss, start, k)
    ensures SummarizeNativeBlock(Kth(ss, start, k)).Ok? ==>
      SummarizeNativeBlock(Kth(ss, start, k)).value == Native(Sum(Rates(Kth(ss, start, k))), Filled(ss, start, k))
  {
    assert Block(blocks, start + BLOCK * k) == Members(ss, start, start + BLOCK * k);
  }

  /** Which venues leave a block short, in sorted order. */
  function Reasons(bybitComplete: bool, hyperliquidComplete: bool): seq<Underfilled> {
    (if bybitComplete then [] else [BybitIntervalUnderfilled])
    + (if hyperliquidComplete then [] else [HyperliquidIntervalUnderfilled])
  }

  lemma MissesIs(b: seq<Settlement>, h: seq<Settlement>, start: int, k: int)
    requires !BothFilled(b, h, start, k)
    ensures MissesBlock(b, h, start, k,
      IncompleteBlock(start + BLOCK * k, Reasons(Filled(b, start, k), Filled(h, start, k))))
  {
    hide Filled;
  }

  /** Visits the requested blocks in order; an overfilled block is the ValueError. */
  method ScanBlocks(ghost b: seq<Settlement>, ghost h: seq<Settlement>, bybit: map<int, seq<Settlement>>,
                    hyperliquid: map<int, seq<Settlement>>, start: int, requested: nat) returns (r: Outcome<Scan>)
    requires GroupsBlocks(b, start, bybit) && GroupsBlocks(h, start, hyperliquid)
    ensures r.Ok? <==> NeverOverfilled(b, start, requested) && NeverOverfilled(h, start, requested)
    ensures r.Ok? ==> ScannedTo(b, h, start, requested, r.value)
  {
    hide *;
    var scan := Scan([], [], [], 0, 0);
    ScanStart(b, h, start);
    for n := 0 to requested
      invariant ScannedTo(b, h, start, n, scan)
    {
      var end := start + BLOCK * (n + 1);
      NativeMeaning(b, start, n + 1, bybit);
      NativeMeaning(h, start, n + 1, hyperliquid);
      var bybitValues, hyperliquidValues := Block(bybit, end), Block(hyperliquid, end);
      var bybitNative, hyperliquidNative := SummarizeNativeBlock(bybitValues), SummarizeNativeBlock(hyperliquidValues);
      if bybitNative.ValueError? || hyperliquidNative.ValueError? {
        OverfillStops(b, start, n + 1, requested);
        OverfillStops(h, start, n + 1, requested);
        return ValueError;
      }
      var bn, hn := bybitNative.value, hyperliquidNative.value;
      if bn.complete && hn.complete {
        var p := PairedBlock(end - BLOCK, end, bn.rate, hn.rate, hn.rate - bn.rate);
        PairsIs(b, h, start, n + 1, p);
        ScanPaired(b, h, start, n, scan, p);
        scan := Scan(scan.paired + [p], scan.incomplete, scan.included + bybitValues + hyperliquidValues,
          scan.bybitComplete + 1, scan.hyperliquidComplete + 1);
      } else {
        var i := IncompleteBlock(end, Reasons(bn.complete, hn.complete));
        NotBoth(b, h, start, n + 1);
        MissesIs(b, h, start, n + 1);
        ScanMissed(b, h, start, n, scan, i);
        scan := Scan(scan.paired, scan.incomplete + [i], scan.included,
          scan.bybitComplete + (if bn.complete then 1 else 0),
          scan.hyperliquidComplete + (if hn.complete then 1 else 0));
      }
    }
    ScannedParts(b, h, start, requested, scan);
    r := Ok(scan);
  }

  lemma OverfillStops(ss: seq<Settlement>, start: int, k: int, n: int)
    requires 1 <= k <= n
    ensures Overfilled(ss, start, k) ==> !NeverOverfilled(ss, start, n)
  {
    hide Overfilled;
  }

  lemma PairsIs(b: seq<Settlement>, h: seq<Settlement>, start: int, k: int, p: PairedBlock)
    requires Filled(b, start, k) && Filled(h, start, k)
    requires p.blockEnd == start + BLOCK * k && p.blockStart == p.blockEnd - BLOCK
    requires p.bybitRate == Sum(Rates(Kth(b, start, k))) && p.hyperliquidRate == Sum(Rates(Kth(h, start, k)))
    requires p.spread == p.hyperliquidRate - p.bybitRate
    ensures PairsBlock(b, h, start, k, p)
  {
    hide Filled, Kth, Rates, Sum;
  }

  lemma NotBoth(b: seq<Settlement>, h: seq<Settlement>, start: int, k: int)
    ensures BothFilled(b, h, start, k) <==> Filled(b, start, k) && Filled(h, start, k)
  {
    hide Filled;
  }

  lemma ScannedParts(b: seq<Settlement>, h: seq<Settlement>, start: int, n: nat, scan: Scan)
    requires ScannedTo(b, h, start, n, scan)
    ensures NeverOverfilled(b, start, n) && NeverOverfilled(h, start, n)
    ensures Accounts(b, h, start, n, scan.paired, scan.incomplete)
    ensures Conserves(b, h, start, n, scan) && Counts(b, h, start, n, scan)
  {
    hide Accounts, Conserves, Counts, NeverOverfilled;
  }

  // ---------------------------------------------------------------- the settlements alone decide

  lemma PairedIndex(b: seq<Settlement>, h: seq<Settlement>, start: int, n: nat, s: Scan, p: PairedBlock)
    returns (k: int)
    requires Accounts(b, h, start, n, s.paired, s.incomplete) && p in s.paired
    ensures 1 <= k <= n && PairsBlock(b, h, start, k, p)
  {
    hide PairedOrdered, IncompleteOrdered, MissesBlock, PairsBlock, BothFilled;
    k :| 1 <= k <= n && PairsBlock(b, h, start, k, p);
  }

  lemma PairedAt(b: seq<Settlement>, h: seq<Settlement>, start: int, n: nat, s: Scan, k: int) returns (p: PairedBlock)
    requires Accounts(b, h, start, n, s.paired, s.incomplete) && 1 <= k <= n && BothFilled(b, h, start, k)
    ensures p in s.paired && PairsBlock(b, h, start, k, p)
  {
    hide PairedOrdered, IncompleteOrdered, MissesBlock, PairsBlock, BothFilled;
    p :| p in s.paired && PairsBlock(b, h, start, k, p);
  }

  lemma PairsUnique(b: seq<Settlement>, h: seq<Settlement>, start: int, k: int, p: PairedBlock, q: PairedBlock)
    requires PairsBlock(b, h, start, k, p) && PairsBlock(b, h, start, k, q)
    ensures p == q && BothFilled(b, h, start, k)
  {
    hide Filled, Kth, Rates, Sum;
  }

  lemma PairedShared(b: seq<Settlement>, h: seq<Settlement>, start: int, n: nat, s: Scan, t: Scan, p: PairedBlock)
    requires Accounts(b, h, start, n, s.paired, s.incomplete) && Accounts(b, h, start, n, t.paired, t.incomplete)
    requires p in s.paired
    ensures p in t.paired
  {
    hide *;
    var k := PairedIndex(b, h, start, n, s, p);
    PairsUnique(b, h, start, k, p, p);
    var q := PairedAt(b, h, start, n, t, k);
    PairsUnique(b, h, start, k, p, q);
  }

  lemma MissedIndex(b: seq<Settlement>, h: seq<Settlement>, start: int, n: nat, s: Scan, i: IncompleteBlock)
    returns (k: int)
    requires Accounts(b, h, start, n, s.paired, s.incomplete) && i in s.incomplete
    ensures 1 <= k <= n && MissesBlock(b, h, start, k, i)
  {
    hide PairedOrdered, IncompleteOrdered, MissesBlock, PairsBlock, BothFilled;
    k :| 1 <= k <= n && MissesBlock(b, h, start, k, i);
  }

  lemma MissedAt(b: seq<Settlement>, h: seq<Settlement>, start: int, n: nat, s: Scan, k: int)
    returns (i: IncompleteBlock)
    requires Accounts(b, h, start, n, s.paired, s.incomplete) && 1 <= k <= n && !BothFilled(b, h, start, k)
    ensures i in s.incomplete && MissesBlock(b, h, start, k, i)
  {
    hide PairedOrdered, IncompleteOrdered, MissesBlock, PairsBlock, BothFilled;
    i :| i in s.incomplete && MissesBlock(b, h, start, k, i);
  }

  lemma MissesUnique(b: seq<Settlement>, h: seq<Settlement>, start: int, k: int, i: IncompleteBlock, j: IncompleteBlock)
    requires MissesBlock(b, h, start, k, i) && MissesBlock(b, h, start, k, j)
    ensures i == j && !BothFilled(b, h, start, k)
  {
    hide Filled;
  }

  lemma MissedShared(b: seq<Settlement>, h: seq<Settlement>, start: int, n: nat, s: Scan, t: Scan, i: IncompleteBlock)
    requires Accounts(b, h, start, n, s.paired, s.incomplete) && Accounts(b, h, start, n, t.paired, t.incomplete)
    requires i in s.incomplete
    ensures i in t.incomplete
  {
    hide *;
    var k := MissedIndex(b, h, start, n, s, i);
    MissesUnique(b, h, start, k, i, i);
    var j := MissedAt(b, h, start, n, t, k);
    MissesUnique(b, h, start, k, i, j);
  }

  lemma PairedSame(b: seq<Settlement>, h: seq<Settlement>, start: int, n: nat, s: Scan, t: Scan)
    requires Accounts(b, h, start, n, s.paired, s.incomplete) && Accounts(b, h, start, n, t.paired, t.incomplete)
    requires PairedOrdered(s.paired) && PairedOrdered(t.paired)
    ensures s.paired == t.paired
  {
    hide Accounts;
    forall p ensures p in s.paired <==> p in t.paired {
      if p in s.paired { PairedShared(b, h, start, n, s, t, p); }
      if p in t.paired { PairedShared(b, h, start, n, t, s, p); }
    }
    OrderedByUnique(s.paired, t.paired, (p: PairedBlock) => p.blockEnd);
  }

  lemma MissedSame(b: seq<Settlement>, h: seq<Settlement>, start: int, n: nat, s: Scan, t: Scan)
    requires Accounts(b, h, start, n, s.paired, s.incomplete) && Accounts(b, h, start, n, t.paired, t.incomplete)
    requires IncompleteOrdered(s.incomplete) && IncompleteOrdered(t.incomplete)
    ensures s.incomplete == t.incomplete
  {
    hide Accounts;
    forall i ensures i in s.incomplete <==> i in t.incomplete {
      if i in s.incomplete { MissedShared(b, h, start, n, s, t, i); }
      if i in t.incomplete { MissedShared(b, h, start, n, t, s, i); }
    }
    OrderedByUnique(s.incomplete, t.incomplete, (i: IncompleteBlock) => i.blockEnd);
  }

  /** The accounting fixes every figure of the scan, and the included settlements up to order. */
  lemma ScanDetermined(b: seq<Settlement>, h: seq<Settlement>, start: int, n: nat, s: Scan, t: Scan)
    requires ScannedTo(b, h, start, n, s) && ScannedTo(b, h, start, n, t)
    ensures s.paired == t.paired && s.incomplete == t.incomplete
    ensures s.bybitComplete == t.bybitComplete && s.hyperliquidComplete == t.hyperliquidComplete
    ensures multiset(s.included) == multiset(t.included)
  {
    hide *;
    ScannedParts(b, h, start, n, s);
    ScannedParts(b, h, start, n, t);
    ScannedShape(b, h, start, n, s);
    ScannedShape(b, h, start, n, t);
    PairedSame(b, h, start, n, s, t);
    MissedSame(b, h, start, n, s, t);
    FiguresDetermined(b, h, start, n, s, t);
  }

  lemma FiguresDetermined(b: seq<Settlement>, h: seq<Settlement>, start: int, n: nat, s: Scan, t: Scan)
    requires ScannedTo(b, h, start, n, s) && ScannedTo(b, h, start, n, t)
    ensures s.bybitComplete == t.bybitComplete && s.hyperliquidComplete == t.hyperliquidComplete
    ensures multiset(s.included) == multiset(t.included)
  {
    hide Accounts, NeverOverfilled;
  }

  // ---------------------------------------------------------------- coverage and availability

  function CoverageOf(scan: Scan, requested: int): Coverage
    requires requested >= 1
  {
    var n := |scan.paired|;
    Coverage(requested, scan.bybitComplete, scan.hyperliquidComplete, n, n as real / requested as real,
      if n > 0 then Some(scan.paired[0].blockEnd) else None,
      if n > 0 then Some(scan.paired[n - 1].blockEnd) else None,
      scan.incomplete)
  }

  lemma ShareInUnit(n: int, d: int)
    requires 0 <= n <= d && d > 0
    ensures 0.0 <= n as real / d as real <= 1.0
  {
    var x := n as real / d as real;
    assert x * d as real == n as real;
    if x < 0.0 {
      ProductPositive(-x, d as real);
      assert false;
    }
    if x > 1.0 {
      ProductPositive(x - 1.0, d as real);
      assert false;
    }
  }

  /** The coverage built from a finished scan passes the record's own checks. */
  lemma CoverageOfValid(b: seq<Settlement>, h: seq<Settlement>, start: int, n: nat, scan: Scan)
    requires n >= 1 && ScannedTo(b, h, start, n, scan)
    ensures ValidCoverage(CoverageOf(scan, n))
  {
    hide ScannedTo, ValidReasons, PairedOrdered, IncompleteOrdered;
    ScannedShape(b, h, start, n, scan);
    ShareInUnit(|scan.paired|, n);
    FirstBeforeLast(scan.paired);
  }

  lemma FirstBeforeLast(paired: seq<PairedBlock>)
    requires PairedOrdered(paired)
    ensures paired != [] ==> paired[0].blockEnd <= paired[|paired| - 1].blockEnd
  {
  }

  lemma ScannedShape(b: seq<Settlement>, h: seq<Settlement>, start: int, n: nat, scan: Scan)
    requires ScannedTo(b, h, start, n, scan)
    ensures |scan.paired| + |scan.incomplete| == n
    ensures |scan.paired| <= scan.bybitComplete <= n && |scan.paired| <= scan.hyperliquidComplete <= n
    ensures PairedOrdered(scan.paired) && IncompleteOrdered(scan.incomplete)
    ensures forall k :: 0 <= k < |scan.incomplete| ==> ValidReasons(scan.incomplete[k].reasons)
  {
    ScannedParts(b, h, start, n, scan);
    AllReasonsValid(b, h, start, n, scan);
    hide ScannedTo, Conserves, PairsBlock, MissesBlock, BothFilled, ValidReasons, PairedOrdered, IncompleteOrdered;
  }

  lemma AllReasonsValid(b: seq<Settlement>, h: seq<Settlement>, start: int, n: nat, scan: Scan)
    requires Accounts(b, h, start, n, scan.paired, scan.incomplete)
    ensures forall k :: 0 <= k < |scan.incomplete| ==> ValidReasons(scan.incomplete[k].reasons)
    ensures forall p :: p in scan.paired ==> ValidPairedBlock(p)
  {
    hide PairedOrdered, IncompleteOrdered, BothFilled, Filled, ValidReasons;
    forall k | 0 <= k < |scan.incomplete| ensures ValidReasons(scan.incomplete[k].reasons) {
      assert scan.incomplete[k] in scan.incomplete;
    }
  }

  lemma AvailabilityOfMembers(a: seq<Settlement>, b: seq<Settlement>)
    requires multiset(a) == multiset(b)
    ensures ClassifyAvailability(a) == ClassifyAvailability(b)
  {
    forall s ensures s in a <==> s in b {
      assert s in a <==> s in multiset(a);
    }
    assert |a| == |multiset(a)| == |multiset(b)| == |b|;
  }

  // ---------------------------------------------------------------- the whole preparation

  datatype PreparedStudy = PreparedStudy(
    paired: seq<PairedBlock>,
    coverage: Coverage,
    availability: Availability,
    hashes: set<string>)

  /** What the two sets of rows prepare: the accounting over their settlements. */
  ghost predicate PreparesFrom(s: PreparedStudy, bybit: set<Row>, hyperliquid: set<Row>, w: StudyWindow,
                               b: seq<Settlement>, h: seq<Settlement>, scan: Scan) {
    && ValidStudyWindow(w) && RequestedBlocks(w) >= 1
    && IsSettlementsOf(b, bybit) && IsSettlementsOf(h, hyperliquid)
    && ScannedTo(b, h, w.start, RequestedBlocks(w), scan)
    && s == PreparedStudy(scan.paired, CoverageOf(scan, RequestedBlocks(w)), ClassifyAvailability(scan.included),
                          Hashes(bybit) + Hashes(hyperliquid))
  }

  ghost predicate IsPreparedStudy(s: PreparedStudy, bybit: set<Row>, hyperliquid: set<Row>, w: StudyWindow) {
    exists b, h, scan :: PreparesFrom(s, bybit, hyperliquid, w, b, h, scan)
  }

  function RequestFor(venue: Stream, asset: Asset, w: StudyWindow): Request {
    Request(venue, asset, w.start, w.end, w.knownAsOf)
  }

  /** The settlements of these rows never overfill a requested block. */
  ghost predicate FitsBlocks(rows: set<Row>, w: StudyWindow) {
    forall ss :: IsSettlementsOf(ss, rows) ==> NeverOverfilled(ss, w.start, RequestedBlocks(w))
  }

  /** The inputs the study accepts. */
  ghost predicate Preparable(rows: set<Row>, venue: Stream, asset: Asset, w: StudyWindow) {
    && AllAdmissible(rows, RequestFor(venue, asset, w))
    && Consistent(rows)
    && FitsBlocks(rows, w)
  }

  lemma FitsIs(ss: seq<Settlement>, rows: set<Row>, w: StudyWindow)
    requires IsSettlementsOf(ss, rows)
    ensures FitsBlocks(rows, w) <==> NeverOverfilled(ss, w.start, RequestedBlocks(w))
  {
    hide IsSettlementsOf, NeverOverfilled, RequestedBlocks;
    forall t | IsSettlementsOf(t, rows) ensures t == ss {
      SettlementsUnique(t, ss, rows);
    }
  }

  /**
   * Succeeds exactly on a valid window with preparable rows of both venues, and what it prepares
   * is fixed by the two sets of rows.
   */
  method PrepareBlocks(asset: Asset, w: StudyWindow, bybitRows: seq<Row>, hyperliquidRows: seq<Row>)
    returns (r: Outcome<PreparedStudy>)
    ensures r.Ok? <==> ValidStudyWindow(w) && Preparable(RowSet(bybitRows), Bybit, asset, w)
                       && Preparable(RowSet(hyperliquidRows), Hyperliquid, asset, w)
    ensures r.Ok? ==> IsPreparedStudy(r.value, RowSet(bybitRows), RowSet(hyperliquidRows), w)
    ensures r.Ok? ==> ValidCoverage(r.value.coverage) && forall p :: p in r.value.paired ==> ValidPairedBlock(p)
  {
    if !ValidStudyWindow(w) {
      return ValueError;
    }
    WholeBlocks(w);
    hide *;
    PreparableIs(RowSet(bybitRows), Bybit, asset, w);
    PreparableIs(RowSet(hyperliquidRows), Hyperliquid, asset, w);
    var bybit := PrepareSettlements(bybitRows, RequestFor(Bybit, asset, w));
    if bybit.ValueError? {
      return ValueError;
    }
    var hyperliquid := PrepareSettlements(hyperliquidRows, RequestFor(Hyperliquid, asset, w));
    if hyperliquid.ValueError? {
      return ValueError;
    }
    var b, h := bybit.value.settlements, hyperliquid.value.settlements;
    FitsIs(b, RowSet(bybitRows), w);
    FitsIs(h, RowSet(hyperliquidRows), w);
    var bybitBlocks := GroupByBlock(b, w.start);
    var hyperliquidBlocks := GroupByBlock(h, w.start);
    var requested := RequestedBlocks(w);
    var scanned := ScanBlocks(b, h, bybitBlocks, hyperliquidBlocks, w.start, requested);
    if scanned.ValueError? {
      return ValueError;
    }
    var scan := scanned.value;
    ScannedParts(b, h, w.start, requested, scan);
    AllReasonsValid(b, h, w.start, requested, scan);
    CoverageOfValid(b, h, w.start, requested, scan);
    var s := PreparedStudy(scan.paired, CoverageOf(scan, requested), ClassifyAvailability(scan.included),
      bybit.value.hashes + hyperliquid.value.hashes);
    PreparesIs(s, RowSet(bybitRows), RowSet(hyperliquidRows), w, b, h, scan);
    r := Ok(s);
  }

  lemma PreparableIs(rows: set<Row>, venue: Stream, asset: Asset, w: StudyWindow)
    ensures Preparable(rows, venue, asset, w) <==>
      AllAdmissible(rows, RequestFor(venue, asset, w)) && Consistent(rows) && FitsBlocks(rows, w)
  {
    hide AllAdmissible, Consistent, FitsBlocks;
  }

  lemma PreparesIs(s: PreparedStudy, bybit: set<Row>, hyperliquid: set<Row>, w: StudyWindow,
                   b: seq<Settlement>, h: seq<Settlement>, scan: Scan)
    requires ValidStudyWindow(w) && RequestedBlocks(w) >= 1
    requires IsSettlementsOf(b, bybit) && IsSettlementsOf(h, hyperliquid)
    requires ScannedTo(b, h, w.start, RequestedBlocks(w), scan)
    requires s == PreparedStudy(scan.paired, CoverageOf(scan, RequestedBlocks(w)), ClassifyAvailability(scan.included),
                                Hashes(bybit) + Hashes(hyperliquid))
    ensures IsPreparedStudy(s, bybit, hyperliquid, w)
  {
    hide IsSettlementsOf, ScannedTo, CoverageOf, ClassifyAvailability, Hashes, ValidStudyWindow, RequestedBlocks;
    assert PreparesFrom(s, bybit, hyperliquid, w, b, h, scan);
  }

  /** Reordering the rows, or repeating one, cannot change what is prepared. */
  lemma PreparedStudyUnique(s: PreparedStudy, t: PreparedStudy, bybit: set<Row>, hyperliquid: set<Row>, w: StudyWindow)
    requires IsPreparedStudy(s, bybit, hyperliquid, w) && IsPreparedStudy(t, bybit, hyperliquid, w)
    ensures s == t
  {
    hide IsSettlementsOf, ScannedTo, ClassifyAvailability, Hashes, ValidStudyWindow, RequestedBlocks;
    var b, h, scan :| PreparesFrom(s, bybit, hyperliquid, w, b, h, scan);
    var b', h', scan' :| PreparesFrom(t, bybit, hyperliquid, w, b', h', scan');
    SettlementsUnique(b, b', bybit);
    SettlementsUnique(h, h', hyperliquid);
    ScanDetermined(b, h, w.start, RequestedBlocks(w), scan, scan');
    AvailabilityOfMembers(scan.included, scan'.included);
  }

  // ---------------------------------------------------------------- conservation over the whole window

  lemma {:induction false} EverythingPaired(ss: seq<Settlement>, b: seq<Settlement>, h: seq<Settlement>, start: int,
                                            n: nat)
    requires forall k :: 1 <= k <= n ==> BothFilled(b, h, start, k)
    ensures PairedMembers(ss, b, h, start, n) == FirstBlocks(ss, start, n)
  {
    if n > 0 {
      EverythingPaired(ss, b, h, start, n - 1);
    }
  }

  /** With every block paired, the spreads total Hyperliquid minus Bybit over every settlement. */
  lemma CompleteConservation(b: seq<Settlement>, h: seq<Settlement>, bybit: set<Row>, hyperliquid: set<Row>,
                             asset: Asset, w: StudyWindow, scan: Scan)
    requires ValidStudyWindow(w) && RequestedBlocks(w) >= 1
    requires IsSettlementsOf(b, bybit) && AllAdmissible(bybit, RequestFor(Bybit, asset, w))
    requires IsSettlementsOf(h, hyperliquid) && AllAdmissible(hyperliquid, RequestFor(Hyperliquid, asset, w))
    requires ScannedTo(b, h, w.start, RequestedBlocks(w), scan) && scan.incomplete == []
    ensures Sum(Spreads(scan.paired)) == Sum(Rates(h)) - Sum(Rates(b))
    ensures multiset(scan.included) == multiset(b) + multiset(h)
  {
    var n := RequestedBlocks(w);
    SettlementsInWindow(b, bybit, RequestFor(Bybit, asset, w));
    SettlementsInWindow(h, hyperliquid, RequestFor(Hyperliquid, asset, w));
    hide AllAdmissible, Filled, Overfilled, Rates, Sum, Spreads, ValidStudyWindow, RequestedBlocks;
    ScannedParts(b, h, w.start, n, scan);
    NothingMissed(b, h, w.start, n, scan);
    BlocksPartition(b, w);
    BlocksPartition(h, w);
    EverythingPaired(b, b, h, w.start, n);
    EverythingPaired(h, b, h, w.start, n);
    hide ScannedTo, Accounts, Counts, NeverOverfilled, PairedMembers, FirstBlocks;
  }

  lemma NothingMissed(b: seq<Settlement>, h: seq<Settlement>, start: int, n: nat, scan: Scan)
    requires Accounts(b, h, start, n, scan.paired, scan.incomplete) && scan.incomplete == []
    ensures forall k :: 1 <= k <= n ==> BothFilled(b, h, start, k)
  {
    hide BothFilled, PairsBlock, MissesBlock, PairedOrdered;
  }
}
