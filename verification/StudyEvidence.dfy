/** What a prepared study says about the rows it was prepared from. */
module StudyEvidence {
  import opened Numbers
  import opened Settlements
  import opened StudyBlocks
  import opened StudyPairing
  import opened StudyReport

  /** The time falls in one of the paired blocks: after its start, and no later than its end. */
  ghost predicate InPaired(paired: seq<PairedBlock>, time: int) {
    exists p :: p in paired && p.blockStart < time <= p.blockEnd
  }

  /** Some revision of this row's settlement was observed within five minutes of its taking effect. */
  ghost predicate SeenPromptly(rows: set<Row>, row: Row) {
    exists first :: first in rows && first.effectiveAt == row.effectiveAt
      && first.observedAt <= row.effectiveAt + 300_000_000
  }

  ghost predicate AllPrompt(rows: set<Row>, paired: seq<PairedBlock>) {
    forall row :: row in rows && InPaired(paired, row.effectiveAt) ==> SeenPromptly(rows, row)
  }

  // ---------------------------------------------------------------- the settlements of the paired blocks

  /** The time lies in one of the first n blocks that both venues fill. */
  ghost predicate InFilledBlock(b: seq<Settlement>, h: seq<Settlement>, start: int, n: nat, time: int) {
    exists k :: 1 <= k <= n && BothFilled(b, h, start, k) && InBlock(time, start + BLOCK * k)
  }

  lemma {:induction false} PairedMembersMeaning(ss: seq<Settlement>, b: seq<Settlement>, h: seq<Settlement>,
                                                start: int, n: nat)
    ensures forall x :: x in PairedMembers(ss, b, h, start, n) <==>
      x in ss && InFilledBlock(b, h, start, n, x.effectiveAt)
  {
    if n > 0 {
      PairedMembersMeaning(ss, b, h, start, n - 1);
      MembersMeaning(ss, start, n);
      var before, after := PairedMembers(ss, b, h, start, n - 1), PairedMembers(ss, b, h, start, n);
      var own := if BothFilled(b, h, start, n) then Kth(ss, start, n) else [];
      assert after == before + own;
      hide PairedMembers, BothFilled, InBlock, Members;
      forall x ensures x in after <==> x in ss && InFilledBlock(b, h, start, n, x.effectiveAt) {
        FilledBlockNext(b, h, start, n, x.effectiveAt);
      }
    }
  }

  lemma FilledBlockNext(b: seq<Settlement>, h: seq<Settlement>, start: int, n: nat, time: int)
    requires n > 0
    ensures InFilledBlock(b, h, start, n, time) <==>
      InFilledBlock(b, h, start, n - 1, time) || (BothFilled(b, h, start, n) && InBlock(time, start + BLOCK * n))
  {
    hide BothFilled, InBlock;
    if InFilledBlock(b, h, start, n - 1, time) {
      var k :| 1 <= k <= n - 1 && BothFilled(b, h, start, k) && InBlock(time, start + BLOCK * k);
      assert k <= n;
    }
  }

  lemma FilledIsPaired(b: seq<Settlement>, h: seq<Settlement>, start: int, n: nat, s: Scan, time: int)
    requires Accounts(b, h, start, n, s.paired, s.incomplete)
    ensures InFilledBlock(b, h, start, n, time) <==> InPaired(s.paired, time)
  {
    hide Accounts, BothFilled;
    if InFilledBlock(b, h, start, n, time) {
      var k :| 1 <= k <= n && BothFilled(b, h, start, k) && InBlock(time, start + BLOCK * k);
      var p := PairedAt(b, h, start, n, s, k);
      PairSpan(b, h, start, k, p);
      assert p.blockStart < time <= p.blockEnd;
    }
    if InPaired(s.paired, time) {
      var p :| p in s.paired && p.blockStart < time <= p.blockEnd;
      var k := PairedIndex(b, h, start, n, s, p);
      PairSpan(b, h, start, k, p);
      assert InBlock(time, start + BLOCK * k);
    }
  }

  lemma PairSpan(b: seq<Settlement>, h: seq<Settlement>, start: int, k: int, p: PairedBlock)
    requires PairsBlock(b, h, start, k, p)
    ensures p.blockEnd == start + BLOCK * k && p.blockStart == p.blockEnd - BLOCK
    ensures BothFilled(b, h, start, k)
  {
    hide BothFilled, Kth, Rates, Sum;
  }

  lemma IncludedMeaning(b: seq<Settlement>, h: seq<Settlement>, start: int, n: nat, s: Scan)
    requires ScannedTo(b, h, start, n, s)
    ensures forall x :: x in s.included <==> (x in b || x in h) && InPaired(s.paired, x.effectiveAt)
    ensures s.included == [] <==> s.paired == []
  {
    ScannedParts(b, h, start, n, s);
    hide ScannedTo, Counts, NeverOverfilled;
    PairedMembersMeaning(b, b, h, start, n);
    PairedMembersMeaning(h, b, h, start, n);
    forall x ensures x in s.included <==> (x in b || x in h) && InPaired(s.paired, x.effectiveAt) {
      InEither(s.included, PairedMembers(b, b, h, start, n), PairedMembers(h, b, h, start, n), x);
      FilledIsPaired(b, h, start, n, s, x.effectiveAt);
    }
    if s.paired != [] {
      var p := s.paired[0];
      hide Accounts;
      var k := PairedIndex(b, h, start, n, s, p);
      var x := FilledHolds(b, start, k);
      FilledIsPaired(b, h, start, n, s, x.effectiveAt);
      assert InPaired(s.paired, x.effectiveAt);
    } else if s.included != [] {
      assert s.included[0] in s.included;
    }
  }

  lemma InEither(all: seq<Settlement>, a: seq<Settlement>, b: seq<Settlement>, x: Settlement)
    requires multiset(all) == multiset(a) + multiset(b)
    ensures x in all <==> x in a || x in b
  {
    assert x in all <==> x in multiset(all);
  }

  /** A filled block holds a settlement. */
  lemma FilledHolds(ss: seq<Settlement>, start: int, k: int) returns (x: Settlement)
    requires Filled(ss, start, k)
    ensures x in ss && InBlock(x.effectiveAt, start + BLOCK * k)
  {
    MembersMeaning(ss, start, k);
    var members := Kth(ss, start, k);
    assert Hours([]) == [];
    hide Hours, Kth;
    assert members != [];
    x := members[0];
    assert x in members;
  }

  // ---------------------------------------------------------------- availability

  /** A settlement carries the first observation of its rows. */
  lemma PromptIsSeen(ss: seq<Settlement>, rows: set<Row>, paired: seq<PairedBlock>)
    requires IsSettlementsOf(ss, rows)
    ensures (forall x :: x in ss && InPaired(paired, x.effectiveAt) ==> Prompt(x)) <==> AllPrompt(rows, paired)
  {
    hide InPaired, Ordered;
    if AllPrompt(rows, paired) {
      forall x | x in ss && InPaired(paired, x.effectiveAt) ensures Prompt(x) {
        assert Settles(x, rows);
        var row :| row in rows && row.effectiveAt == x.effectiveAt;
        assert SeenPromptly(rows, row);
      }
    }
    if forall x :: x in ss && InPaired(paired, x.effectiveAt) ==> Prompt(x) {
      forall row | row in rows && InPaired(paired, row.effectiveAt) ensures SeenPromptly(rows, row) {
        assert Covered(row, ss);
        var x :| x in ss && x.effectiveAt == row.effectiveAt;
        assert Settles(x, rows) && Prompt(x);
      }
    }
  }

  /**
   * No data means that no block is paired; a study is point-in-time when every settlement in a paired block was
   * observed, in some revision, within five minutes; and otherwise it is a historical reconstruction.
   */
  lemma AvailabilityMeaning(s: PreparedStudy, bybit: set<Row>, hyperliquid: set<Row>, w: StudyWindow)
    requires IsPreparedStudy(s, bybit, hyperliquid, w)
    ensures s.availability.NoData? <==> s.paired == []
    ensures s.availability.PointInTime? <==>
      s.paired != [] && AllPrompt(bybit, s.paired) && AllPrompt(hyperliquid, s.paired)
    ensures s.availability.HistoricalReconstruction? <==>
      s.paired != [] && !(AllPrompt(bybit, s.paired) && AllPrompt(hyperliquid, s.paired))
  {
    hide IsSettlementsOf, ScannedTo, ClassifyAvailability, Hashes, ValidStudyWindow, RequestedBlocks, CoverageOf;
    var b, h, scan :| PreparesFrom(s, bybit, hyperliquid, w, b, h, scan);
    IncludedMeaning(b, h, w.start, RequestedBlocks(w), scan);
    PromptIsSeen(b, bybit, s.paired);
    PromptIsSeen(h, hyperliquid, s.paired);
    hide AllPrompt, InPaired, Prompt;
    AvailabilityOf(scan.included, b, h, s.paired);
  }

  lemma AvailabilityOf(included: seq<Settlement>, b: seq<Settlement>, h: seq<Settlement>, paired: seq<PairedBlock>)
    requires forall x :: x in included <==> (x in b || x in h) && InPaired(paired, x.effectiveAt)
    ensures ClassifyAvailability(included).NoData? <==> included == []
    ensures ClassifyAvailability(included).PointInTime? <==>
      && included != []
      && (forall x :: x in b && InPaired(paired, x.effectiveAt) ==> Prompt(x))
      && (forall x :: x in h && InPaired(paired, x.effectiveAt) ==> Prompt(x))
  {
    hide InPaired, Prompt;
  }

  /** A study that passes asks for the net forward gate exactly when all its paired evidence was prompt. */
  lemma PassingDecision(r: Report, p: PreparedStudy, bybit: set<Row>, hyperliquid: set<Row>, w: StudyWindow,
                        monthOf: int -> int)
    requires IsPreparedStudy(p, bybit, hyperliquid, w) && Decides(r, p, w, monthOf)
    requires r.statistics.Some? && Passes(r.statistics.value)
    ensures p.paired != [] && r.availability == p.availability
    ensures r.decision == if AllPrompt(bybit, p.paired) && AllPrompt(hyperliquid, p.paired)
      then NetForwardGateRequired else ForwardTestRequired
  {
    AvailabilityMeaning(p, bybit, hyperliquid, w);
    hide IsPreparedStudy, AllPrompt, Measures, Passes, ReasonsGiven;
  }

  // ---------------------------------------------------------------- coverage

  /** The coverage names the ends of the earliest and the latest paired block, and counts the paired ones. */
  lemma CoverageMeaning(s: PreparedStudy, bybit: set<Row>, hyperliquid: set<Row>, w: StudyWindow)
    requires IsPreparedStudy(s, bybit, hyperliquid, w)
    ensures s.coverage.pairedComplete == |s.paired|
    ensures s.coverage.requested * 28_800_000_000 == w.end - w.start
    ensures s.paired == [] ==> s.coverage.firstPairedAt == None && s.coverage.lastPairedAt == None
    ensures s.paired != [] ==> s.coverage.firstPairedAt.Some? && s.coverage.lastPairedAt.Some?
    ensures s.paired != [] ==>
      && (exists p :: p in s.paired && p.blockEnd == s.coverage.firstPairedAt.value)
      && (exists p :: p in s.paired && p.blockEnd == s.coverage.lastPairedAt.value)
    ensures forall p :: p in s.paired ==>
      s.coverage.firstPairedAt.value <= p.blockEnd <= s.coverage.lastPairedAt.value
  {
    hide IsSettlementsOf, ScannedTo, ClassifyAvailability, Hashes, RequestedBlocks;
    var b, h, scan :| PreparesFrom(s, bybit, hyperliquid, w, b, h, scan);
    WholeBlocks(w);
    ScannedShape(b, h, w.start, RequestedBlocks(w), scan);
    if s.paired != [] {
      assert s.paired[0] in s.paired && s.paired[|s.paired| - 1] in s.paired;
    }
  }
}
