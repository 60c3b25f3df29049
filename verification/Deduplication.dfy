/** De-duplicating received markets at two levels: by ID, and by canonical content. */
module Deduplication {
  import opened Numbers

  /**
   * A normalised market. Fingerprints are taken as the fields they hash: `content` alone for the
   * canonical one, and all but the page ordinal for the one that includes identity.
   */
  datatype Candidate = Candidate(
    marketId: string,
    familyId: string,
    otherIdentity: string,
    content: string,
    pageOrdinal: int)

  predicate SameIdentity(a: Candidate, b: Candidate) {
    && a.marketId == b.marketId && a.familyId == b.familyId
    && a.otherIdentity == b.otherIdentity && a.content == b.content
  }

  datatype Intake = Intake(
    kept: map<string, Candidate>,
    fingerprints: set<string>,
    exactDuplicates: nat,
    canonicalDuplicates: nat)

  const NOTHING_TAKEN := Intake(map[], {}, 0, 0)

  /** The candidate is new by ID and by content. */
  predicate Takes(k: Intake, c: Candidate) {
    c.marketId !in k.kept && c.content !in k.fingerprints
  }

  function Absorb(k: Intake, c: Candidate): Outcome<Intake> {
    if c.marketId in k.kept then
      if !SameIdentity(k.kept[c.marketId], c) then ValueError
      else Ok(k.(exactDuplicates := k.exactDuplicates + 1))
    else if c.content in k.fingerprints then Ok(k.(canonicalDuplicates := k.canonicalDuplicates + 1))
    else Ok(k.(kept := k.kept[c.marketId := c], fingerprints := k.fingerprints + {c.content}))
  }

  /** Absorbs candidates in the order received. */
  function AbsorbAll(k: Intake, cs: seq<Candidate>): Outcome<Intake> {
    if cs == [] then Ok(k)
    else
      var before := AbsorbAll(k, cs[..|cs| - 1]);
      if before.Ok? then Absorb(before.value, cs[|cs| - 1]) else ValueError
  }

  /** Each kept candidate is filed under its own ID and was received. */
  ghost predicate Filed(received: seq<Candidate>, k: Intake) {
    forall id :: id in k.kept ==> k.kept[id].marketId == id && k.kept[id] in received
  }

  ghost predicate DistinctContent(k: Intake) {
    forall id, other :: id in k.kept && other in k.kept && id != other ==> k.kept[id].content != k.kept[other].content
  }

  /** The fingerprints are exactly those of the kept candidates. */
  ghost predicate FingerprintsKept(k: Intake) {
    && (forall id :: id in k.kept ==> k.kept[id].content in k.fingerprints)
    && (forall f :: f in k.fingerprints ==> exists id :: id in k.kept && k.kept[id].content == f)
  }

  function Contents(cs: seq<Candidate>): set<string> {
    set c | c in cs :: c.content
  }

  /** The contents kept are exactly the contents received. */
  ghost predicate Represented(received: seq<Candidate>, k: Intake) {
    k.fingerprints == Contents(received)
  }

  /** What holds of the kept candidates after everything in `received`. */
  ghost predicate Conserved(received: seq<Candidate>, k: Intake) {
    && |received| == |k.kept| + k.exactDuplicates + k.canonicalDuplicates
    && |k.kept| == |k.fingerprints|
    && Filed(received, k) && DistinctContent(k) && FingerprintsKept(k) && Represented(received, k)
  }

  lemma FiledMore(received: seq<Candidate>, k: Intake, c: Candidate, k': Intake)
    requires Filed(received, k) && (k'.kept == k.kept || k'.kept == k.kept[c.marketId := c])
    ensures Filed(received + [c], k')
  {
  }

  lemma TakeDistinct(k: Intake, c: Candidate, k': Intake)
    requires DistinctContent(k) && FingerprintsKept(k) && Takes(k, c)
    requires k'.kept == k.kept[c.marketId := c] && k'.fingerprints == k.fingerprints + {c.content}
    ensures DistinctContent(k') && |k'.kept| == |k.kept| + 1 && |k'.fingerprints| == |k.fingerprints| + 1
  {
    assert k'.kept.Keys == k.kept.Keys + {c.marketId};
  }

  lemma TakeFingerprints(k: Intake, c: Candidate, k': Intake)
    requires FingerprintsKept(k) && Takes(k, c)
    requires k'.kept == k.kept[c.marketId := c] && k'.fingerprints == k.fingerprints + {c.content}
    ensures FingerprintsKept(k')
  {
    forall f | f in k'.fingerprints ensures exists id :: id in k'.kept && k'.kept[id].content == f {
      if f in k.fingerprints {
        var id :| id in k.kept && k.kept[id].content == f;
        assert k'.kept[id].content == f;
      } else {
        assert k'.kept[c.marketId].content == f;
      }
    }
  }

  lemma RepresentedMore(received: seq<Candidate>, k: Intake, c: Candidate, k': Intake)
    requires Represented(received, k) && k'.fingerprints == k.fingerprints + {c.content}
    ensures Represented(received + [c], k')
  {
    assert forall x :: x in received + [c] <==> x in received || x == c;
  }

  lemma SameKept(k: Intake, k': Intake)
    requires k'.kept == k.kept && k'.fingerprints == k.fingerprints
    ensures DistinctContent(k') == DistinctContent(k) && FingerprintsKept(k') == FingerprintsKept(k)
  {
  }

  lemma DuplicateKnown(k: Intake, c: Candidate)
    requires FingerprintsKept(k) && Absorb(k, c).Ok? && !Takes(k, c)
    ensures c.content in k.fingerprints
  {
    assert c.marketId in k.kept ==> k.kept[c.marketId].content in k.fingerprints;
  }

  lemma AbsorbConserves(received: seq<Candidate>, k: Intake, c: Candidate)
    requires Conserved(received, k) && Absorb(k, c).Ok?
    ensures Conserved(received + [c], Absorb(k, c).value)
  {
    hide Filed, Represented, DistinctContent, FingerprintsKept;
    var k' := Absorb(k, c).value;
    if Takes(k, c) {
      TakeDistinct(k, c, k');
      TakeFingerprints(k, c, k');
    } else {
      SameKept(k, k');
      DuplicateKnown(k, c);
      assert k'.fingerprints == k.fingerprints + {c.content};
    }
    FiledMore(received, k, c, k');
    RepresentedMore(received, k, c, k');
  }

  lemma {:induction false} AbsorbAllConserves(received: seq<Candidate>, k: Intake, cs: seq<Candidate>)
    requires Conserved(received, k) && AbsorbAll(k, cs).Ok?
    ensures Conserved(received + cs, AbsorbAll(k, cs).value)
    decreases |cs|
  {
    hide Conserved, Absorb;
    if cs == [] {
      assert received + cs == received;
    } else {
      var init, last := cs[..|cs| - 1], cs[|cs| - 1];
      AbsorbAllConserves(received, k, init);
      AbsorbConserves(received + init, AbsorbAll(k, init).value, last);
      assert (received + init) + [last] == received + cs;
    }
  }

  /** The first of the received markets to carry its content. */
  ghost predicate FirstWithContent(cs: seq<Candidate>, i: nat) {
    i < |cs| && forall j: nat :: j < i ==> cs[j].content != cs[i].content
  }

  lemma FirstInRange(cs: seq<Candidate>, i: nat)
    requires FirstWithContent(cs, i)
    ensures i < |cs|
  {
  }

  lemma FirstInPrefix(cs: seq<Candidate>, n: nat, i: nat)
    requires i < n <= |cs|
    ensures FirstWithContent(cs[..n], i) <==> FirstWithContent(cs, i)
  {
    assert forall j: nat :: j < n ==> cs[..n][j] == cs[j];
  }

  /** After a successful intake the next market is the first with its content exactly when it is taken. */
  lemma TakenIffFirst(cs: seq<Candidate>, c: Candidate)
    requires AbsorbAll(NOTHING_TAKEN, cs).Ok? && Absorb(AbsorbAll(NOTHING_TAKEN, cs).value, c).Ok?
    ensures FirstWithContent(cs + [c], |cs|) <==> Takes(AbsorbAll(NOTHING_TAKEN, cs).value, c)
  {
    var k := AbsorbAll(NOTHING_TAKEN, cs).value;
    NothingConserved();
    AbsorbAllConserves([], NOTHING_TAKEN, cs);
    assert [] + cs == cs;
    FirstIffNewContent(cs, c);
    hide AbsorbAll, DistinctContent, FirstWithContent, Contents, Filed;
    assert c.marketId in k.kept ==> k.kept[c.marketId].content in k.fingerprints;
  }

  lemma FirstIffNewContent(cs: seq<Candidate>, c: Candidate)
    ensures FirstWithContent(cs + [c], |cs|) <==> c.content !in Contents(cs)
  {
    var all := cs + [c];
    assert forall j: nat :: j < |cs| ==> all[j] == cs[j];
    if c.content in Contents(cs) {
      var x :| x in cs && x.content == c.content;
      var j: nat :| j < |cs| && cs[j] == x;
      assert all[j].content == c.content;
    } else {
      assert forall j: nat :: j < |cs| ==> cs[j] in cs;
    }
  }

  lemma NothingConserved()
    ensures Conserved([], NOTHING_TAKEN)
  {
  }

  /** The kept markets are the first with their content, each under its ID. */
  lemma {:induction false} KeptIsFirst(cs: seq<Candidate>)
    requires AbsorbAll(NOTHING_TAKEN, cs).Ok?
    ensures var k := AbsorbAll(NOTHING_TAKEN, cs).value;
      && (forall i: nat :: FirstWithContent(cs, i) ==> cs[i].marketId in k.kept && k.kept[cs[i].marketId] == cs[i])
      && (forall id :: id in k.kept ==> exists i: nat :: FirstWithContent(cs, i) && cs[i].marketId == id)
  {
    if cs != [] {
      var init, last := cs[..|cs| - 1], cs[|cs| - 1];
      assert cs == init + [last];
      KeptIsFirst(init);
      TakenIffFirst(init, last);
      var k, k' := AbsorbAll(NOTHING_TAKEN, init).value, AbsorbAll(NOTHING_TAKEN, cs).value;
      forall i: nat | i < |init| ensures FirstWithContent(cs, i) <==> FirstWithContent(init, i) {
        FirstInPrefix(cs, |init|, i);
      }
      hide FirstWithContent, AbsorbAll, SameIdentity;
      forall i: nat | FirstWithContent(cs, i) ensures cs[i].marketId in k'.kept && k'.kept[cs[i].marketId] == cs[i] {
        FirstInRange(cs, i);
        if i < |init| {
          assert FirstWithContent(init, i);
        }
      }
      forall id | id in k'.kept ensures exists i: nat :: FirstWithContent(cs, i) && cs[i].marketId == id {
        if id in k.kept {
          var i: nat :| FirstWithContent(init, i) && init[i].marketId == id;
          FirstInRange(init, i);
          assert FirstWithContent(cs, i);
        } else {
          assert FirstWithContent(cs, |init|);
        }
      }
    }
  }

  // ---------------------------------------------------------------- conflicts

  /** Market j differs from market i of the same ID, and i was the first received with its content. */
  ghost predicate ConflictAt(cs: seq<Candidate>, i: nat, j: nat) {
    i < j < |cs| && FirstWithContent(cs, i) && cs[i].marketId == cs[j].marketId && !SameIdentity(cs[i], cs[j])
  }

  ghost predicate ConflictsAt(cs: seq<Candidate>, j: nat) {
    exists i: nat :: ConflictAt(cs, i, j)
  }

  /** Two received markets of one ID differ, and the earlier was the first received with its content. */
  ghost predicate Conflicts(cs: seq<Candidate>) {
    exists j: nat :: ConflictsAt(cs, j)
  }

  /**
   * A conflict is noticed only against a market that was the first with its content: the next market
   * is refused if and only if it differs from such a market of its ID. A copy whose content another
   * market had brought before is forgotten.
   */
  lemma NextConflicts(cs: seq<Candidate>, c: Candidate)
    requires AbsorbAll(NOTHING_TAKEN, cs).Ok?
    ensures Absorb(AbsorbAll(NOTHING_TAKEN, cs).value, c).ValueError? <==> ConflictsAt(cs + [c], |cs|)
  {
    KeptIsFirst(cs);
    var k := AbsorbAll(NOTHING_TAKEN, cs).value;
    var all := cs + [c];
    forall i: nat | i < |cs| ensures FirstWithContent(all, i) <==> FirstWithContent(cs, i) {
      FirstInPrefix(all, |cs|, i);
      assert all[..|cs|] == cs;
    }
    hide FirstWithContent, AbsorbAll, SameIdentity;
    if Absorb(k, c).ValueError? {
      var i: nat :| FirstWithContent(cs, i) && cs[i].marketId == c.marketId;
      FirstInRange(cs, i);
      assert FirstWithContent(all, i) && all[i] == cs[i] && all[|cs|] == c;
      assert ConflictAt(all, i, |cs|);
    }
    if ConflictsAt(all, |cs|) {
      var i: nat :| ConflictAt(all, i, |cs|);
      assert FirstWithContent(cs, i);
    }
  }

  lemma ConflictInPrefix(cs: seq<Candidate>, n: nat, j: nat)
    requires j < n <= |cs|
    ensures ConflictsAt(cs[..n], j) <==> ConflictsAt(cs, j)
  {
    hide FirstWithContent, SameIdentity;
    forall i: nat | i < j ensures ConflictAt(cs[..n], i, j) <==> ConflictAt(cs, i, j) {
      FirstInPrefix(cs, n, i);
    }
  }

  lemma ConflictInRange(cs: seq<Candidate>, j: nat)
    requires ConflictsAt(cs, j)
    ensures j < |cs|
  {
  }

  /** Absorbing markets fails exactly on a conflict, a condition on the received markets alone. */
  lemma {:induction false} AbsorbFailsIffConflict(cs: seq<Candidate>)
    ensures AbsorbAll(NOTHING_TAKEN, cs).ValueError? <==> Conflicts(cs)
  {
    hide ConflictsAt, Absorb;
    if cs == [] {
      if Conflicts(cs) {
        var j: nat :| ConflictsAt(cs, j);
        ConflictInRange(cs, j);
        assert false;
      }
    } else {
      var n := |cs| - 1;
      var init := cs[..n];
      assert cs == init + [cs[n]];
      AbsorbFailsIffConflict(init);
      if Conflicts(init) {
        var j: nat :| ConflictsAt(init, j);
        ConflictInRange(init, j);
        ConflictInPrefix(cs, n, j);
      } else {
        NextConflicts(init, cs[n]);
        if Conflicts(cs) {
          var j: nat :| ConflictsAt(cs, j);
          ConflictInRange(cs, j);
          if j < n {
            ConflictInPrefix(cs, n, j);
          }
        }
      }
    }
  }

  /** A successful intake keeps one market for each content received. */
  lemma KeptCount(cs: seq<Candidate>)
    requires AbsorbAll(NOTHING_TAKEN, cs).Ok?
    ensures |AbsorbAll(NOTHING_TAKEN, cs).value.kept| == |Contents(cs)|
  {
    NothingConserved();
    AbsorbAllConserves([], NOTHING_TAKEN, cs);
    assert [] + cs == cs;
    hide AbsorbAll, Filed, DistinctContent, FingerprintsKept;
  }

  lemma AbsorbNext(k: Intake, cs: seq<Candidate>, c: Candidate)
    requires AbsorbAll(k, cs).Ok?
    ensures AbsorbAll(k, cs + [c]) == Absorb(AbsorbAll(k, cs).value, c)
  {
    assert (cs + [c])[..|cs + [c]| - 1] == cs;
  }

  /** Two differing markets of one ID are both accepted when the first repeats the content of another ID. */
  lemma DroppedCopyIsForgotten(a: Candidate, b: Candidate, c: Candidate)
    requires a.marketId != b.marketId && a.content == b.content
    requires c.marketId == b.marketId && c.content != b.content
    ensures !SameIdentity(b, c)
    ensures AbsorbAll(NOTHING_TAKEN, [a, b, c]).Ok?
    ensures AbsorbAll(NOTHING_TAKEN, [a, b, c]).value.kept == map[a.marketId := a, c.marketId := c]
  {
    AbsorbNext(NOTHING_TAKEN, [], a);
    AbsorbNext(NOTHING_TAKEN, [a], b);
    AbsorbNext(NOTHING_TAKEN, [a, b], c);
    assert [] + [a] == [a] && [a] + [b] == [a, b] && [a, b] + [c] == [a, b, c];
    assert AbsorbAll(NOTHING_TAKEN, []) == Ok(NOTHING_TAKEN);
    hide AbsorbAll;
  }

  // ---------------------------------------------------------------- which duplicates are counted

  /** The same market received again, on whichever page. */
  predicate SameMarket(a: Candidate, b: Candidate) {
    a == b.(pageOrdinal := a.pageOrdinal)
  }

  lemma IdentityIsSameMarket(a: Candidate, b: Candidate)
    ensures SameIdentity(a, b) <==> SameMarket(a, b)
  {
  }

  /** Market j repeats a market that was the first received with its content. */
  ghost predicate RepeatsMarket(cs: seq<Candidate>, j: nat) {
    j < |cs| && exists i: nat :: i < j && FirstWithContent(cs, i) && SameMarket(cs[i], cs[j])
  }

  ghost function RepeatedMarkets(cs: seq<Candidate>): set<nat> {
    set j: nat | j < |cs| && RepeatsMarket(cs, j)
  }

  lemma RepeatsInPrefix(cs: seq<Candidate>, n: nat, j: nat)
    requires j < n <= |cs|
    ensures RepeatsMarket(cs[..n], j) <==> RepeatsMarket(cs, j)
  {
    hide FirstWithContent;
    forall i: nat | i < j ensures FirstWithContent(cs[..n], i) <==> FirstWithContent(cs, i) {
      FirstInPrefix(cs, n, i);
    }
    assert cs[..n][j] == cs[j];
    if RepeatsMarket(cs, j) {
      var i: nat :| i < j && FirstWithContent(cs, i) && SameMarket(cs[i], cs[j]);
      assert cs[..n][i] == cs[i];
    }
    if RepeatsMarket(cs[..n], j) {
      var i: nat :| i < j && FirstWithContent(cs[..n], i) && SameMarket(cs[..n][i], cs[..n][j]);
      assert cs[..n][i] == cs[i];
    }
  }

  /** The next market is counted as an exact duplicate exactly when it repeats a first market. */
  lemma NextRepeats(cs: seq<Candidate>, c: Candidate)
    requires AbsorbAll(NOTHING_TAKEN, cs).Ok? && Absorb(AbsorbAll(NOTHING_TAKEN, cs).value, c).Ok?
    ensures var k := AbsorbAll(NOTHING_TAKEN, cs).value;
      Absorb(k, c).value.exactDuplicates == k.exactDuplicates + (if RepeatsMarket(cs + [c], |cs|) then 1 else 0)
  {
    KeptIsFirst(cs);
    var k, all := AbsorbAll(NOTHING_TAKEN, cs).value, cs + [c];
    forall i: nat | i < |cs| ensures FirstWithContent(all, i) <==> FirstWithContent(cs, i) {
      FirstInPrefix(all, |cs|, i);
      assert all[..|cs|] == cs;
    }
    hide FirstWithContent, AbsorbAll;
    if c.marketId in k.kept {
      var i: nat :| FirstWithContent(cs, i) && cs[i].marketId == c.marketId;
      FirstInRange(cs, i);
      IdentityIsSameMarket(cs[i], c);
      assert FirstWithContent(all, i) && all[i] == cs[i];
    }
    if RepeatsMarket(all, |cs|) {
      var i: nat :| i < |cs| && FirstWithContent(all, i) && SameMarket(all[i], all[|cs|]);
      assert FirstWithContent(cs, i);
    }
  }

  lemma RepeatedNext(cs: seq<Candidate>, n: nat)
    requires n < |cs|
    ensures RepeatedMarkets(cs[..n + 1])
         == RepeatedMarkets(cs[..n]) + (if RepeatsMarket(cs[..n + 1], n) then {n} else {})
  {
    hide RepeatsMarket;
    forall j: nat | j < n ensures RepeatsMarket(cs[..n], j) <==> RepeatsMarket(cs[..n + 1], j) {
      RepeatsInPrefix(cs[..n + 1], n, j);
      assert cs[..n + 1][..n] == cs[..n];
    }
  }

  lemma {:induction false} ExactCounted(cs: seq<Candidate>, n: nat)
    requires n <= |cs| && AbsorbAll(NOTHING_TAKEN, cs[..n]).Ok?
    ensures AbsorbAll(NOTHING_TAKEN, cs[..n]).value.exactDuplicates == |RepeatedMarkets(cs[..n])|
  {
    if n > 0 {
      assert cs[..n] == cs[..n - 1] + [cs[n - 1]];
      assert cs[..n][..|cs[..n]| - 1] == cs[..n - 1];
      ExactCounted(cs, n - 1);
      NextRepeats(cs[..n - 1], cs[n - 1]);
      RepeatedNext(cs, n - 1);
      hide RepeatsMarket, Absorb;
    }
  }

  /**
   * Exact duplicates are the received markets that repeat a first one; every other market that was not kept is a
   * canonical duplicate.
   */
  lemma DuplicatesCounted(cs: seq<Candidate>)
    requires AbsorbAll(NOTHING_TAKEN, cs).Ok?
    ensures var k := AbsorbAll(NOTHING_TAKEN, cs).value;
      && k.exactDuplicates == |RepeatedMarkets(cs)|
      && k.canonicalDuplicates == |cs| - |Contents(cs)| - |RepeatedMarkets(cs)|
  {
    assert cs[..|cs|] == cs;
    ExactCounted(cs, |cs|);
    hide AbsorbAll, Contents, RepeatedMarkets;
    ReceivedAddsUp(cs);
  }

  lemma ReceivedAddsUp(cs: seq<Candidate>)
    requires AbsorbAll(NOTHING_TAKEN, cs).Ok?
    ensures var k := AbsorbAll(NOTHING_TAKEN, cs).value;
      |cs| == |k.kept| + k.exactDuplicates + k.canonicalDuplicates && |k.kept| == |Contents(cs)|
  {
    KeptCount(cs);
    NothingConserved();
    AbsorbAllConserves([], NOTHING_TAKEN, cs);
    assert [] + cs == cs;
    hide AbsorbAll, Filed, DistinctContent, FingerprintsKept, Represented;
  }

  // ---------------------------------------------------------------- one page

  /** De-duplicates one page against everything kept so far. */
  method AbsorbPage(k: Intake, cs: seq<Candidate>) returns (r: Outcome<Intake>)
    ensures r == AbsorbAll(k, cs)
  {
    var intake := k;
    hide Absorb;
    for n := 0 to |cs|
      invariant AbsorbAll(k, cs[..n]) == Ok(intake)
    {
      assert cs[..n + 1] == cs[..n] + [cs[n]];
      AbsorbNext(k, cs[..n], cs[n]);
      var absorbed := Absorb(intake, cs[n]);
      if absorbed.ValueError? {
        ConflictSticks(k, cs, n + 1);
        return ValueError;
      }
      intake := absorbed.value;
    }
    assert cs[..|cs|] == cs;
    r := Ok(intake);
  }

  lemma {:induction false} ConflictSticks(k: Intake, cs: seq<Candidate>, n: nat)
    requires n <= |cs| && AbsorbAll(k, cs[..n]).ValueError?
    ensures AbsorbAll(k, cs).ValueError?
    decreases |cs|
  {
    hide Absorb;
    if n == |cs| {
      assert cs[..n] == cs;
    } else {
      assert cs[..|cs| - 1][..n] == cs[..n];
      ConflictSticks(k, cs[..|cs| - 1], n);
    }
  }

  lemma {:induction false} AbsorbConcat(k: Intake, a: seq<Candidate>, b: seq<Candidate>)
    ensures AbsorbAll(k, a).ValueError? ==> AbsorbAll(k, a + b).ValueError?
    ensures AbsorbAll(k, a).Ok? ==> AbsorbAll(k, a + b) == AbsorbAll(AbsorbAll(k, a).value, b)
    decreases |b|
  {
    hide Absorb;
    if b == [] {
      assert a + b == a;
    } else {
      var init := b[..|b| - 1];
      AbsorbConcat(k, a, init);
      assert (a + b)[..|a + b| - 1] == a + init;
    }
  }
}
