/** The published sequence of dashboard revisions, and what a cursor reads from its retained end. */
module RevisionLog {
  import opened Numbers
  import opened EventIds

  datatype Domain = Overview | Markets | Execution | Ledger | Evidence

  const ALL_DOMAINS: seq<Domain> := [Overview, Markets, Execution, Ledger, Evidence]

  datatype Snapshot = Snapshot(revisionId: string, asOf: int, content: string)

  /** The deterministic revision of a snapshot, and the fingerprint of each domain of its content. */
  datatype Hashing = Hashing(digest: (int, string) -> string, fingerprint: (Domain, string) -> string)

  datatype Revision = Revision(
    eventId: string,
    revisionId: string,
    asOf: int,
    emittedAt: int,
    changedDomains: seq<Domain>)

  // ---------------------------------------------------------------- changed domains

  function Fingerprints(h: Hashing, content: string): (f: map<Domain, string>)
    ensures f.Keys == set d | d in ALL_DOMAINS
    ensures forall d :: d in ALL_DOMAINS ==> f[d] == h.fingerprint(d, content)
  {
    map d | d in ALL_DOMAINS :: h.fingerprint(d, content)
  }

  /** The given domains whose fingerprints differ, in their order. */
  function Differing(domains: seq<Domain>, previous: map<Domain, string>, current: map<Domain, string>): seq<Domain>
    requires forall d :: d in domains ==> d in previous && d in current
  {
    if domains == [] then []
    else (if previous[domains[0]] != current[domains[0]] then [domains[0]] else [])
         + Differing(domains[1..], previous, current)
  }

  ghost predicate Complete(f: map<Domain, string>) {
    forall d :: d in ALL_DOMAINS ==> d in f
  }

  function ChangedDomains(previous: Option<map<Domain, string>>, current: map<Domain, string>): seq<Domain>
    requires Complete(current) && (previous.Some? ==> Complete(previous.value))
  {
    match previous
    case None => ALL_DOMAINS
    case Some(fingerprints) => Differing(ALL_DOMAINS, fingerprints, current)
  }

  function Position(d: Domain): int {
    match d
    case Overview => 0
    case Markets => 1
    case Execution => 2
    case Ledger => 3
    case Evidence => 4
  }

  /** In enumeration order and without repeats. */
  ghost predicate DomainsOrdered(domains: seq<Domain>) {
    forall i, j :: 0 <= i < j < |domains| ==> Position(domains[i]) < Position(domains[j])
  }

  lemma {:induction false} DifferingMeaning(domains: seq<Domain>, previous: map<Domain, string>,
                                            current: map<Domain, string>)
    requires forall d :: d in domains ==> d in previous && d in current
    requires DomainsOrdered(domains)
    ensures forall d :: d in Differing(domains, previous, current) <==> d in domains && previous[d] != current[d]
    ensures DomainsOrdered(Differing(domains, previous, current))
  {
    if domains != [] {
      assert forall d :: d in domains <==> d == domains[0] || d in domains[1..];
      DifferingMeaning(domains[1..], previous, current);
      var rest := Differing(domains[1..], previous, current);
      assert forall i :: 0 <= i < |rest| ==> rest[i] in domains[1..];
      assert forall d :: d in domains[1..] ==> Position(domains[0]) < Position(d);
    }
  }

  // ---------------------------------------------------------------- the log

  datatype Log = Log(capacity: nat, snapshots: seq<Snapshot>, history: seq<Revision>, closed: bool)

  /** The fingerprints the k-th publication is compared with. */
  function FingerprintsBefore(h: Hashing, snapshots: seq<Snapshot>, k: nat): (f: Option<map<Domain, string>>)
    requires k <= |snapshots|
    ensures f.Some? ==> Complete(f.value)
  {
    if k == 0 then None else Some(Fingerprints(h, snapshots[k - 1].content))
  }

  /** Whether publication k changed domain d since the publication before it. */
  ghost predicate Changed(h: Hashing, snapshots: seq<Snapshot>, k: nat, d: Domain)
    requires k < |snapshots|
  {
    k == 0 || h.fingerprint(d, snapshots[k - 1].content) != h.fingerprint(d, snapshots[k].content)
  }

  /** Publication k carries the next ID, its own content's revision, and exactly what changed. */
  ghost predicate ValidEntry(h: Hashing, snapshots: seq<Snapshot>, k: nat, r: Revision)
    requires k < |snapshots|
  {
    var s := snapshots[k];
    && r.eventId == Render(k + 1)
    && ValidEventId(r.eventId)
    && s.revisionId == h.digest(s.asOf, s.content)
    && r.revisionId == s.revisionId && r.asOf == s.asOf
    && DomainsOrdered(r.changedDomains)
    && (forall d :: d in r.changedDomains <==> Changed(h, snapshots, k, d))
    && (k > 0 ==> s.revisionId != snapshots[k - 1].revisionId)
  }

  ghost predicate ValidLog(h: Hashing, log: Log) {
    && log.capacity >= 1
    && |log.snapshots| == |log.history|
    && forall k :: 0 <= k < |log.history| ==> ValidEntry(h, log.snapshots, k, log.history[k])
  }

  function EmptyLog(capacity: nat): Log {
    Log(capacity, [], [], false)
  }

  datatype PublishError = RevisionMismatch | BufferClosed | EventIdExhausted

  datatype PublishResult = Published(revision: Revision) | Unchanged | Failed(error: PublishError)

  function LatestRevisionId(log: Log): Option<string> {
    if log.history == [] then None else Some(log.history[|log.history| - 1].revisionId)
  }

  function NextRevision(h: Hashing, log: Log, snapshot: Snapshot, emittedAt: int): Revision {
    Revision(Render(|log.history| + 1), snapshot.revisionId, snapshot.asOf, emittedAt,
      ChangedDomains(FingerprintsBefore(h, log.snapshots, |log.snapshots|), Fingerprints(h, snapshot.content)))
  }

  /** One publication: nothing changes unless a new revision is issued. */
  function PublishTo(h: Hashing, log: Log, snapshot: Snapshot, emittedAt: int): (Log, PublishResult) {
    if snapshot.revisionId != h.digest(snapshot.asOf, snapshot.content) then (log, Failed(RevisionMismatch))
    else if log.closed then (log, Failed(BufferClosed))
    else if LatestRevisionId(log) == Some(snapshot.revisionId) then (log, Unchanged)
    else if !ValidEventId(Render(|log.history| + 1)) then (log, Failed(EventIdExhausted))
    else
      var revision := NextRevision(h, log, snapshot, emittedAt);
      (log.(snapshots := log.snapshots + [snapshot], history := log.history + [revision]), Published(revision))
  }

  lemma EntryExtends(h: Hashing, snapshots: seq<Snapshot>, s: Snapshot, k: nat, r: Revision)
    requires k < |snapshots| && ValidEntry(h, snapshots, k, r)
    ensures ValidEntry(h, snapshots + [s], k, r)
  {
    hide ValidEventId, DomainsOrdered;
    var snapshots' := snapshots + [s];
    assert snapshots'[k] == snapshots[k] && (k > 0 ==> snapshots'[k - 1] == snapshots[k - 1]);
    forall d ensures Changed(h, snapshots', k, d) <==> Changed(h, snapshots, k, d) {
    }
  }

  lemma NextEntryValid(h: Hashing, log: Log, snapshot: Snapshot, emittedAt: int)
    requires ValidLog(h, log) && snapshot.revisionId == h.digest(snapshot.asOf, snapshot.content)
    requires LatestRevisionId(log) != Some(snapshot.revisionId) && ValidEventId(Render(|log.history| + 1))
    ensures ValidEntry(h, log.snapshots + [snapshot], |log.history|, NextRevision(h, log, snapshot, emittedAt))
  {
    var n := |log.history|;
    var snapshots' := log.snapshots + [snapshot];
    var r := NextRevision(h, log, snapshot, emittedAt);
    hide ValidEventId;
    assert n > 0 ==> ValidEntry(h, log.snapshots, n - 1, log.history[n - 1]);
    assert n > 0 ==> snapshots'[n - 1] == log.snapshots[n - 1];
    assert DomainsOrdered(ALL_DOMAINS);
    forall d ensures d in ALL_DOMAINS {
      assert d == ALL_DOMAINS[Position(d)];
    }
    if n > 0 {
      DifferingMeaning(ALL_DOMAINS, Fingerprints(h, log.snapshots[n - 1].content), Fingerprints(h, snapshot.content));
    }
    hide Differing, DomainsOrdered;
    forall d ensures d in r.changedDomains <==> Changed(h, snapshots', n, d) {
    }
  }

  /** Publishing keeps every retained claim about the published sequence. */
  lemma PublishKeepsLog(h: Hashing, log: Log, snapshot: Snapshot, emittedAt: int)
    requires ValidLog(h, log)
    ensures ValidLog(h, PublishTo(h, log, snapshot, emittedAt).0)
  {
    var (log', result) := PublishTo(h, log, snapshot, emittedAt);
    hide ValidEntry, NextRevision;
    if result.Published? {
      NextEntryValid(h, log, snapshot, emittedAt);
      forall k | 0 <= k < |log'.history| ensures ValidEntry(h, log'.snapshots, k, log'.history[k]) {
        if k < |log.history| {
          EntryExtends(h, log.snapshots, snapshot, k, log.history[k]);
        }
      }
    }
  }

  /** Every domain's fingerprint is the one the previous publication had. */
  ghost predicate NothingChanged(h: Hashing, before: string, content: string) {
    forall d :: h.fingerprint(d, before) == h.fingerprint(d, content)
  }

  /** After the first, a published revision lists no domain exactly when no domain's fingerprint changed. */
  lemma NoDomainListedIff(h: Hashing, log: Log, snapshot: Snapshot, emittedAt: int)
    requires ValidLog(h, log) && log.history != []
    requires PublishTo(h, log, snapshot, emittedAt).1.Published?
    ensures PublishTo(h, log, snapshot, emittedAt).1.revision.changedDomains == [] <==>
      NothingChanged(h, log.snapshots[|log.snapshots| - 1].content, snapshot.content)
  {
    var n := |log.history|;
    var snapshots, r := log.snapshots + [snapshot], NextRevision(h, log, snapshot, emittedAt);
    NextEntryValid(h, log, snapshot, emittedAt);
    assert forall d :: d in r.changedDomains <==> Changed(h, snapshots, n, d);
    assert snapshots[n - 1] == log.snapshots[n - 1];
    hide NextRevision, ValidEventId, ValidEntry, DomainsOrdered, ValidLog;
    if r.changedDomains == [] {
      forall d ensures h.fingerprint(d, snapshots[n - 1].content) == h.fingerprint(d, snapshot.content) {
        assert !Changed(h, snapshots, n, d);
      }
    } else {
      assert r.changedDomains[0] in r.changedDomains;
      assert Changed(h, snapshots, n, r.changedDomains[0]);
    }
  }

  /** A snapshot of the given content whose revision is its own digest. */
  function Stamped(h: Hashing, asOf: int, content: string): Snapshot {
    Snapshot(h.digest(asOf, content), asOf, content)
  }

  lemma PublishIssues(h: Hashing, log: Log, snapshot: Snapshot, emittedAt: int)
    requires snapshot.revisionId == h.digest(snapshot.asOf, snapshot.content) && !log.closed
    requires LatestRevisionId(log) != Some(snapshot.revisionId) && ValidEventId(Render(|log.history| + 1))
    ensures PublishTo(h, log, snapshot, emittedAt).1.Published?
    ensures var log' := PublishTo(h, log, snapshot, emittedAt).0;
      && log'.history == log.history + [PublishTo(h, log, snapshot, emittedAt).1.revision]
      && log'.snapshots == log.snapshots + [snapshot]
      && LatestRevisionId(log') == Some(snapshot.revisionId)
  {
    hide ValidEventId, ChangedDomains;
  }

  /** Such revisions are published: two snapshots of one content whose cutoffs give different digests. */
  lemma CutoffOnlyRevision(h: Hashing, capacity: nat, content: string, first: int, second: int, emittedAt: int)
    requires capacity >= 1 && h.digest(first, content) != h.digest(second, content)
    ensures var log := Run(h, EmptyLog(capacity),
      [Publish(Stamped(h, first, content), emittedAt), Publish(Stamped(h, second, content), emittedAt)]);
      |log.history| == 2 && log.history[1].changedDomains == []
  {
    var a, b := Stamped(h, first, content), Stamped(h, second, content);
    var commands := [Publish(a, emittedAt), Publish(b, emittedAt)];
    EarlyIdsValid();
    EveryRunValid(h, capacity, [commands[0]]);
    assert commands[..1] == [commands[0]] && [commands[0]][..0] == [];
    var one := Run(h, EmptyLog(capacity), [commands[0]]);
    assert Run(h, EmptyLog(capacity), []) == EmptyLog(capacity);
    assert one == Step(h, EmptyLog(capacity), commands[0]);
    assert Run(h, EmptyLog(capacity), commands) == Step(h, one, commands[1]);
    PublishIssues(h, EmptyLog(capacity), a, emittedAt);
    hide Run, PublishTo, ValidLog, ValidEventId, Render;
    PublishIssues(h, one, b, emittedAt);
    NoDomainListedIff(h, one, b, emittedAt);
  }

  lemma EarlyIdsValid()
    ensures ValidEventId(Render(1)) && ValidEventId(Render(2))
  {
  }

  /** With a digest that tells cutoffs apart, every buffer has a run that publishes an empty domain list. */
  lemma CutoffOnlyRunExists(capacity: nat) returns (h: Hashing, commands: seq<Command>)
    requires capacity >= 1
    ensures var log := Run(h, EmptyLog(capacity), commands);
      |log.history| == 2 && log.history[1].changedDomains == []
  {
    h := Hashing((asOf, content) => if asOf == 0 then "0" else "1", (d, content) => content);
    assert "0"[0] != "1"[0];
    CutoffOnlyRevision(h, capacity, "", 0, 1, 0);
    commands := [Publish(Stamped(h, 0, ""), 0), Publish(Stamped(h, 1, ""), 0)];
  }

  // ---------------------------------------------------------------- reading after a cursor

  /** The events a buffer of this capacity still holds: the last ones published. */
  function Retained(log: Log): (r: seq<Revision>)
    ensures |r| == if |log.history| < log.capacity then |log.history| else log.capacity
  {
    if |log.history| <= log.capacity then log.history else log.history[|log.history| - log.capacity..]
  }

  datatype Answer =
    | Latest(revision: Revision)
    | Reset(eventId: string, latestRevisionId: string, emittedAt: int)
    | Nothing
    | CursorMalformed
    | SnapshotUnavailable

  /**
   * What a cursor reads, by its number: nothing when it is the newest ID, the newest revision when
   * fewer than `capacity` revisions follow it, and otherwise a reset.
   */
  function AnswerTo(log: Log, cursor: Option<string>, now: int): Answer {
    var n := |log.history|;
    if cursor.Some? && !ValidEventId(cursor.value) then CursorMalformed
    else if n == 0 then (if cursor.Some? then SnapshotUnavailable else Nothing)
    else
      var newest := log.history[n - 1];
      if cursor.None? then Latest(newest)
      else
        var id := Value(cursor.value);
        if id == n then Nothing
        else if 1 <= id < n && n - id < log.capacity then Latest(newest)
        else Reset(newest.eventId, newest.revisionId, now)
  }

  lemma EntryFollows(h: Hashing, log: Log, k: nat)
    requires ValidLog(h, log) && k < |log.history|
    ensures log.history[k].eventId == Render(k + 1)
    ensures k > 0 ==> log.history[k].revisionId != log.history[k - 1].revisionId
  {
    hide DomainsOrdered, Changed, ValidEventId, Render;
    assert ValidEntry(h, log.snapshots, k, log.history[k]);
    assert k > 0 ==> ValidEntry(h, log.snapshots, k - 1, log.history[k - 1]);
  }

  lemma RetainedAt(log: Log, i: nat)
    requires i < |Retained(log)|
    ensures Retained(log)[i] == log.history[|log.history| - |Retained(log)| + i]
  {
  }

  /** Retained IDs are consecutive and end at the last one issued, and neighbours differ. */
  lemma RetainedConsecutive(h: Hashing, log: Log)
    requires ValidLog(h, log)
    ensures |Retained(log)| == if |log.history| < log.capacity then |log.history| else log.capacity
    ensures forall i :: 0 <= i < |Retained(log)| ==>
      Retained(log)[i].eventId == Render(|log.history| - |Retained(log)| + 1 + i)
    ensures forall i :: 0 < i < |Retained(log)| ==> Retained(log)[i].revisionId != Retained(log)[i - 1].revisionId
  {
    var events := Retained(log);
    var first := |log.history| - |events|;
    hide Render, ValidLog, Retained;
    forall i: nat | i < |events| ensures events[i].eventId == Render(first + 1 + i) {
      RetainedAt(log, i);
      EntryFollows(h, log, first + i);
    }
    forall i | 0 < i < |events| ensures events[i].revisionId != events[i - 1].revisionId {
      RetainedAt(log, i);
      RetainedAt(log, i - 1);
      EntryFollows(h, log, first + i);
    }
  }

  /** A cursor the buffer issued is reset exactly when `capacity` or more revisions came after it. */
  lemma IssuedCursorResets(h: Hashing, log: Log, k: nat, now: int)
    requires ValidLog(h, log) && 1 <= k <= |log.history|
    ensures AnswerTo(log, Some(Render(k)), now).Reset? <==> |log.history| - k >= log.capacity
    ensures AnswerTo(log, Some(Render(k)), now).Nothing? <==> k == |log.history|
    ensures AnswerTo(log, Some(Render(k)), now).Latest? <==> 1 <= |log.history| - k < log.capacity
  {
    assert ValidEntry(h, log.snapshots, k - 1, log.history[k - 1]);
    hide ValidEntry, ValidEventId, Render;
    RenderCanonical(k);
  }

  /** A cursor never issued by the buffer is malformed, unavailable or reset, never silently accepted. */
  lemma ForeignCursorResets(h: Hashing, log: Log, cursor: string, now: int)
    requires ValidLog(h, log) && forall k :: 1 <= k <= |log.history| ==> cursor != Render(k)
    ensures AnswerTo(log, Some(cursor), now).CursorMalformed? <==> !ValidEventId(cursor)
    ensures ValidEventId(cursor) && log.history == [] ==> AnswerTo(log, Some(cursor), now).SnapshotUnavailable?
    ensures ValidEventId(cursor) && log.history != [] ==> AnswerTo(log, Some(cursor), now).Reset?
  {
    if ValidEventId(cursor) {
      ValueRenders(cursor);
      hide Render, ValidEventId, ValidLog;
      var id := Value(cursor);
      assert Render(id) == cursor;
    }
  }

  /** A reader without a cursor is handed the newest revision: it is never told to reset. */
  lemma NewReaderGetsNewest(h: Hashing, log: Log, now: int)
    requires ValidLog(h, log) && log.history != []
    ensures AnswerTo(log, None, now) == Latest(log.history[|log.history| - 1])
    ensures log.history[|log.history| - 1].eventId == Render(|log.history|)
    ensures log.history[|log.history| - 1].revisionId == log.snapshots[|log.history| - 1].revisionId
  {
    hide Render, ValidEventId, DomainsOrdered, Changed;
    assert ValidEntry(h, log.snapshots, |log.history| - 1, log.history[|log.history| - 1]);
  }

  /** A reset answers a cursor, and names the newest publication by its ID, its content's revision and the time. */
  lemma ResetNamesNewest(h: Hashing, log: Log, cursor: Option<string>, now: int)
    requires ValidLog(h, log) && AnswerTo(log, cursor, now).Reset?
    ensures cursor.Some? && log.history != []
    ensures var newest := log.snapshots[|log.snapshots| - 1];
      AnswerTo(log, cursor, now) == Reset(Render(|log.history|), h.digest(newest.asOf, newest.content), now)
  {
    hide Render, ValidEventId, DomainsOrdered, Changed, Value;
    assert ValidEntry(h, log.snapshots, |log.history| - 1, log.history[|log.history| - 1]);
  }

  // ---------------------------------------------------------------- what publishing does

  /**
   * Publishing fails exactly on a snapshot that does not carry its own digest, on a closed buffer, or on a new
   * revision when the twenty-digit IDs are used up; and says unchanged exactly of the newest publication's revision.
   */
  lemma PublishOutcomes(h: Hashing, log: Log, snapshot: Snapshot, emittedAt: int)
    requires ValidLog(h, log)
    ensures var r := PublishTo(h, log, snapshot, emittedAt).1;
      var known := log.history != [] && log.snapshots[|log.snapshots| - 1].revisionId == snapshot.revisionId;
      && (r.Failed? <==>
            || snapshot.revisionId != h.digest(snapshot.asOf, snapshot.content)
            || log.closed
            || (!known && |log.history| + 1 >= PowerOfTen(20)))
      && (r.Unchanged? <==>
            known && snapshot.revisionId == h.digest(snapshot.asOf, snapshot.content) && !log.closed)
      && (r.Failed? && r.error == EventIdExhausted ==> !known && !log.closed)
      && (r.Failed? && r.error == BufferClosed ==> log.closed)
      && (r.Published? ==>
            && r.revision.eventId == Render(|log.history| + 1) && r.revision.emittedAt == emittedAt
            && r.revision.asOf == snapshot.asOf && r.revision.revisionId == snapshot.revisionId)
  {
    PublishedCarries(h, log, snapshot, emittedAt);
    RenderValid(|log.history| + 1);
    LatestIs(h, log);
    hide Render, ValidEventId, ValidLog, PowerOfTen, NextRevision, LatestRevisionId;
  }

  lemma LatestIs(h: Hashing, log: Log)
    requires ValidLog(h, log)
    ensures |log.snapshots| == |log.history|
    ensures LatestRevisionId(log)
         == if log.history == [] then None else Some(log.snapshots[|log.snapshots| - 1].revisionId)
  {
    hide Render, ValidEventId, DomainsOrdered, Changed;
    if log.history != [] {
      assert ValidEntry(h, log.snapshots, |log.history| - 1, log.history[|log.history| - 1]);
    }
  }

  lemma PublishedCarries(h: Hashing, log: Log, snapshot: Snapshot, emittedAt: int)
    ensures var r := NextRevision(h, log, snapshot, emittedAt);
      && r.eventId == Render(|log.history| + 1) && r.emittedAt == emittedAt
      && r.asOf == snapshot.asOf && r.revisionId == snapshot.revisionId
  {
    hide Render, ChangedDomains;
  }

  /** Publishing one snapshot twice publishes it once. */
  lemma RepublishingIsUnchanged(h: Hashing, log: Log, snapshot: Snapshot, first: int, second: int)
    requires ValidLog(h, log) && !PublishTo(h, log, snapshot, first).1.Failed?
    ensures var log' := PublishTo(h, log, snapshot, first).0;
      PublishTo(h, log', snapshot, second) == (log', Unchanged)
  {
    PublishKeepsLog(h, log, snapshot, first);
    var log' := PublishTo(h, log, snapshot, first).0;
    assert log'.closed == log.closed;
    LatestAfter(h, log, snapshot, first);
    hide ValidLog, ValidEventId, Render, NextRevision;
  }

  lemma LatestAfter(h: Hashing, log: Log, snapshot: Snapshot, emittedAt: int)
    requires !PublishTo(h, log, snapshot, emittedAt).1.Failed?
    ensures LatestRevisionId(PublishTo(h, log, snapshot, emittedAt).0) == Some(snapshot.revisionId)
    ensures snapshot.revisionId == h.digest(snapshot.asOf, snapshot.content) && !log.closed
  {
    hide ValidEventId, Render, ChangedDomains;
  }

  // ---------------------------------------------------------------- every run

  datatype Command = Publish(snapshot: Snapshot, emittedAt: int) | Close

  function Step(h: Hashing, log: Log, c: Command): Log {
    match c
    case Publish(snapshot, emittedAt) => PublishTo(h, log, snapshot, emittedAt).0
    case Close => log.(closed := true)
  }

  function Run(h: Hashing, log: Log, commands: seq<Command>): Log {
    if commands == [] then log else Step(h, Run(h, log, commands[..|commands| - 1]), commands[|commands| - 1])
  }

  /** After any run, the published sequence is numbered 1..n and every claim about it holds. */
  lemma {:induction false} EveryRunValid(h: Hashing, capacity: nat, commands: seq<Command>)
    requires capacity >= 1
    ensures ValidLog(h, Run(h, EmptyLog(capacity), commands))
    ensures Run(h, EmptyLog(capacity), commands).capacity == capacity
  {
    if commands != [] {
      var init := commands[..|commands| - 1];
      EveryRunValid(h, capacity, init);
      var log := Run(h, EmptyLog(capacity), init);
      var last := commands[|commands| - 1];
      hide ValidEntry;
      if last.Publish? {
        PublishKeepsLog(h, log, last.snapshot, last.emittedAt);
      }
    }
  }

  /** Publications are only ever added, and a closed buffer issues none. */
  lemma StepExtends(h: Hashing, log: Log, c: Command)
    ensures log.history <= Step(h, log, c).history && log.snapshots <= Step(h, log, c).snapshots
    ensures log.closed ==> Step(h, log, c) == log
    ensures |Step(h, log, c).history| <= |log.history| + 1
  {
    hide NextRevision, ValidEventId;
  }
}
