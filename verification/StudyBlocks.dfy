/** Pairing the settlements of two venues in eight-hour blocks. */
module StudyBlocks {
  import opened Ordering
  import opened Settlements

  /** Eight hours in microseconds. */
  const BLOCK := 28_800_000_000

  /** Five minutes in microseconds. */
  const POINT_IN_TIME_MAX_LAG := 300_000_000

  // ---------------------------------------------------------------- the study window

  datatype StudyWindow = StudyWindow(start: int, end: int, knownAsOf: int)

  predicate BlockAligned(time: int) {
    time % BLOCK == 0
  }

  predicate ValidStudyWindow(w: StudyWindow) {
    w.start < w.end && BlockAligned(w.start) && BlockAligned(w.end) && w.end <= w.knownAsOf
  }

  function RequestedBlocks(w: StudyWindow): int {
    (w.end - w.start) / BLOCK
  }

  lemma WholeBlocks(w: StudyWindow)
    requires ValidStudyWindow(w)
    ensures RequestedBlocks(w) >= 1 && w.end == w.start + BLOCK * RequestedBlocks(w)
  {
    var i, j := w.start / BLOCK, w.end / BLOCK;
    assert w.start == BLOCK * i && w.end == BLOCK * j;
    assert w.end - w.start == BLOCK * (j - i);
  }

  /** The windows accepted: from one eight-hour mark to a later one, not beyond what is known. */
  lemma WindowMeaning(w: StudyWindow)
    ensures ValidStudyWindow(w) <==> exists i: int, j: int :: i < j && WindowOf(w, i, j)
  {
    if ValidStudyWindow(w) {
      assert WindowOf(w, w.start / BLOCK, w.end / BLOCK);
    }
  }

  predicate WindowOf(w: StudyWindow, i: int, j: int) {
    w.start == i * 28_800_000_000 && w.end == j * 28_800_000_000 && w.end <= w.knownAsOf
  }

  // ---------------------------------------------------------------- which block a settlement is in

  /** The index of the first block that ends no earlier, by a ceiling division. */
  function BlockIndex(time: int, start: int): int {
    (time - start + BLOCK - 1) / BLOCK
  }

  function BlockEnd(time: int, start: int): int {
    start + BLOCK * BlockIndex(time, start)
  }

  /** A block holds the times after its start and up to its end. */
  predicate InBlock(time: int, end: int) {
    end - BLOCK < time <= end
  }

  /** Among the ends on the grid from start, a time has exactly one block: the one computed. */
  lemma BlockEndMeaning(time: int, start: int, k: int)
    ensures BlockEnd(time, start) == start + BLOCK * k <==> InBlock(time, start + BLOCK * k)
  {
  }

  /** Every time inside the window has its block among the requested ones. */
  lemma BlockRequested(time: int, w: StudyWindow)
    requires ValidStudyWindow(w) && w.start < time <= w.end
    ensures 1 <= BlockIndex(time, w.start) <= RequestedBlocks(w)
  {
    WholeBlocks(w);
  }

  /** The settlements of the block ending at `end`, in their order. */
  function Members(ss: seq<Settlement>, start: int, end: int): seq<Settlement> {
    if ss == [] then []
    else
      var last := ss[|ss| - 1];
      Members(ss[..|ss| - 1], start, end) + (if BlockEnd(last.effectiveAt, start) == end then [last] else [])
  }

  /** Python's blocks.get(end, ()). */
  function Block(blocks: map<int, seq<Settlement>>, end: int): seq<Settlement> {
    if end in blocks then blocks[end] else []
  }

  ghost predicate GroupsBlocks(ss: seq<Settlement>, start: int, blocks: map<int, seq<Settlement>>) {
    forall end :: Block(blocks, end) == Members(ss, start, end)
  }

  lemma BlockAppend(ss: seq<Settlement>, start: int, blocks: map<int, seq<Settlement>>, n: nat, end: int)
    requires n < |ss| && GroupsBlocks(ss[..n], start, blocks) && end == BlockEnd(ss[n].effectiveAt, start)
    ensures GroupsBlocks(ss[..n + 1], start, blocks[end := Block(blocks, end) + [ss[n]]])
  {
    var blocks' := blocks[end := Block(blocks, end) + [ss[n]]];
    hide BlockEnd;
    assert ss[..n + 1][..n] == ss[..n];
    forall e ensures Block(blocks', e) == Members(ss[..n + 1], start, e) {
      assert Block(blocks, e) == Members(ss[..n], start, e);
    }
  }

  method GroupByBlock(ss: seq<Settlement>, start: int) returns (blocks: map<int, seq<Settlement>>)
    ensures GroupsBlocks(ss, start, blocks)
  {
    blocks := map[];
    hide GroupsBlocks, Members;
    NoBlocks(start);
    for n := 0 to |ss|
      invariant GroupsBlocks(ss[..n], start, blocks)
    {
      var end := BlockEnd(ss[n].effectiveAt, start);
      BlockAppend(ss, start, blocks, n, end);
      blocks := blocks[end := Block(blocks, end) + [ss[n]]];
    }
    assert ss[..|ss|] == ss;
  }

  lemma NoBlocks(start: int)
    ensures GroupsBlocks([], start, map[])
  {
  }

  // ---------------------------------------------------------------- the blocks partition the settlements

  /** The members of the first n blocks, block after block. */
  ghost function FirstBlocks(ss: seq<Settlement>, start: int, n: nat): seq<Settlement> {
    if n == 0 then [] else FirstBlocks(ss, start, n - 1) + Members(ss, start, start + BLOCK * n)
  }

  ghost predicate AfterStart(ss: seq<Settlement>, start: int) {
    forall s :: s in ss ==> start < s.effectiveAt
  }

  /** The settlements no later than a bound. */
  ghost function UpTo(ss: seq<Settlement>, bound: int): seq<Settlement> {
    if ss == [] then []
    else UpTo(ss[..|ss| - 1], bound) + (if ss[|ss| - 1].effectiveAt <= bound then [ss[|ss| - 1]] else [])
  }

  lemma {:induction false} UpToAll(ss: seq<Settlement>, bound: int)
    requires forall s :: s in ss ==> s.effectiveAt <= bound
    ensures UpTo(ss, bound) == ss
  {
    if ss != [] {
      var init, last := ss[..|ss| - 1], ss[|ss| - 1];
      assert ss == init + [last] && last in ss;
      forall s | s in init ensures s.effectiveAt <= bound {
        assert s in ss;
      }
      UpToAll(init, bound);
    }
  }

  lemma {:induction false} UpToNone(ss: seq<Settlement>, bound: int)
    requires forall s :: s in ss ==> bound < s.effectiveAt
    ensures UpTo(ss, bound) == []
  {
    if ss != [] {
      var init, last := ss[..|ss| - 1], ss[|ss| - 1];
      assert ss == init + [last] && last in ss;
      forall s | s in init ensures bound < s.effectiveAt {
        assert s in ss;
      }
      UpToNone(init, bound);
    }
  }

  lemma {:induction false} NoMembers(ss: seq<Settlement>, start: int, k: nat)
    requires forall s :: s in ss ==> s.effectiveAt <= start + BLOCK * k
    ensures Members(ss, start, start + BLOCK * (k + 1)) == []
  {
    if ss != [] {
      NoMembers(ss[..|ss| - 1], start, k);
      assert ss[|ss| - 1] in ss;
      BlockEndMeaning(ss[|ss| - 1].effectiveAt, start, k + 1);
    }
  }

  /** The next block continues where the earlier ones stopped. */
  lemma {:induction false} UpToNextBlock(ss: seq<Settlement>, start: int, k: nat)
    requires Ordered(ss)
    ensures UpTo(ss, start + BLOCK * (k + 1))
      == UpTo(ss, start + BLOCK * k) + Members(ss, start, start + BLOCK * (k + 1))
  {
    if ss != [] {
      var init, last := ss[..|ss| - 1], ss[|ss| - 1];
      OrderedByInit(ss, (s: Settlement) => s.effectiveAt);
      UpToNextBlock(init, start, k);
      hide Ordered;
      BlockEndMeaning(last.effectiveAt, start, k + 1);
      hide BlockEnd;
      if last.effectiveAt <= start + BLOCK * k {
        NoMembers(init, start, k);
      }
    }
  }

  lemma {:induction false} FirstBlocksUpTo(ss: seq<Settlement>, start: int, n: nat)
    requires Ordered(ss) && AfterStart(ss, start)
    ensures FirstBlocks(ss, start, n) == UpTo(ss, start + BLOCK * n)
  {
    if n == 0 {
      UpToNone(ss, start);
    } else {
      FirstBlocksUpTo(ss, start, n - 1);
      hide UpTo, Ordered, AfterStart, Members;
      UpToNextBlock(ss, start, n - 1);
    }
  }

  /** The requested blocks, taken in order, hold every settlement of the window exactly once and in order. */
  lemma BlocksPartition(ss: seq<Settlement>, w: StudyWindow)
    requires ValidStudyWindow(w) && Ordered(ss)
    requires forall s :: s in ss ==> w.start < s.effectiveAt <= w.end
    ensures RequestedBlocks(w) >= 1 && FirstBlocks(ss, w.start, RequestedBlocks(w)) == ss
  {
    WholeBlocks(w);
    FirstBlocksUpTo(ss, w.start, RequestedBlocks(w));
    UpToAll(ss, w.end);
  }

  /** A settlement is a member of a block exactly when its time lies in it. */
  lemma {:induction false} MembersMeaning(ss: seq<Settlement>, start: int, k: int)
    ensures forall s :: s in Members(ss, start, start + BLOCK * k) <==>
      s in ss && InBlock(s.effectiveAt, start + BLOCK * k)
  {
    if ss != [] {
      var init, last := ss[..|ss| - 1], ss[|ss| - 1];
      MembersMeaning(init, start, k);
      BlockEndMeaning(last.effectiveAt, start, k);
      hide BlockEnd, InBlock;
      assert ss == init + [last];
    }
  }
}
