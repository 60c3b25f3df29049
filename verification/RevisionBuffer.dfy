/** The fixed-capacity ring of revision metadata behind the dashboard's event stream. */
module RevisionBuffer {
  import opened Numbers
  import opened EventIds
  import opened RevisionLog

  class Buffer {
    const capacity: nat
    const hashing: Hashing
    var events: seq<Revision>
    var nextEventId: nat
    var latestRevisionId: Option<string>
    var latestFingerprints: Option<map<Domain, string>>
    var closed: bool
    ghost var log: Log

    /** The ring, the counter and the caches are what the published sequence says they are. */
    ghost predicate Valid()
      reads this
    {
      && ValidLog(hashing, log)
      && log.capacity == capacity
      && events == Retained(log)
      && nextEventId == |log.history| + 1
      && latestRevisionId == LatestRevisionId(log)
      && latestFingerprints == FingerprintsBefore(hashing, log.snapshots, |log.snapshots|)
      && closed == log.closed
    }

    constructor (capacity: nat, hashing: Hashing)
      requires capacity >= 1
      ensures Valid() && log == EmptyLog(capacity) && this.hashing == hashing
    {
      this.capacity := capacity;
      this.hashing := hashing;
      events := [];
      nextEventId := 1;
      latestRevisionId := None;
      latestFingerprints := None;
      closed := false;
      log := EmptyLog(capacity);
    }

    /** Appends a revision to the ring unless it is the latest one already. */
    method Publish(snapshot: Snapshot, emittedAt: int) returns (r: PublishResult)
      requires Valid()
      modifies this
      ensures Valid()
      ensures (log, r) == PublishTo(hashing, old(log), snapshot, emittedAt)
    {
      hide ValidLog, ValidEventId, Retained;
      PublishKeepsLog(hashing, log, snapshot, emittedAt);
      ShapeOf(hashing, log);
      RingAppend(hashing, log, snapshot, emittedAt);
      if snapshot.revisionId != hashing.digest(snapshot.asOf, snapshot.content) {
        return Failed(RevisionMismatch);
      }
      var fingerprints := Fingerprints(hashing, snapshot.content);
      if closed {
        return Failed(BufferClosed);
      }
      if latestRevisionId == Some(snapshot.revisionId) {
        return Unchanged;
      }
      var domains := ChangedDomains(latestFingerprints, fingerprints);
      var revision := Revision(Render(nextEventId), snapshot.revisionId, snapshot.asOf, emittedAt, domains);
      if !ValidEventId(revision.eventId) {
        return Failed(EventIdExhausted);
      }
      events := PushBounded(events, capacity, revision);
      nextEventId := nextEventId + 1;
      latestRevisionId := Some(snapshot.revisionId);
      latestFingerprints := Some(fingerprints);
      log := PublishTo(hashing, log, snapshot, emittedAt).0;
      r := Published(revision);
    }

    /** What a follower reads after its cursor, found by scanning the ring. */
    method EventAfter(cursor: Option<string>, now: int) returns (a: Answer)
      requires Valid()
      ensures a == AnswerTo(log, cursor, now)
    {
      hide ValidLog, ValidEventId, Retained, Value, Render;
      RetainedConsecutive(hashing, log);
      RingEnds(hashing, log);
      if cursor.Some? && !ValidEventId(cursor.value) {
        return CursorMalformed;
      }
      if events == [] {
        return if cursor.Some? then SnapshotUnavailable else Nothing;
      }
      var latest := events[|events| - 1];
      if cursor.None? {
        return Latest(latest);
      }
      CursorScan(hashing, log, cursor.value);
      if cursor.value == latest.eventId {
        return Nothing;
      }
      if Holds(events, cursor.value) {
        return Latest(latest);
      }
      a := Reset(latest.eventId, latest.revisionId, now);
    }

    /** The first half of waiting: an answer now, or nothing yet and the lock is given up. */
    method BeginWait(cursor: Option<string>, timeout: Option<int>, now: int) returns (r: WaitStart)
      requires Valid()
      ensures r.NegativeTimeout? <==> timeout.Some? && timeout.value < 0
      ensures r.Answered? ==> r.answer == AnswerTo(log, cursor, now)
      ensures r.Waiting? <==>
        && (timeout.None? || timeout.value > 0)
        && AnswerTo(log, cursor, now) == Nothing && !closed
    {
      if timeout.Some? && timeout.value < 0 {
        return NegativeTimeout;
      }
      var available := EventAfter(cursor, now);
      if available != Nothing || closed || timeout == Some(0) {
        return Answered(available);
      }
      r := Waiting;
    }

    method Close()
      requires Valid()
      modifies this
      ensures Valid()
      ensures log == Step(hashing, old(log), Command.Close)
    {
      ClosePreserves(hashing, log);
      hide ValidLog;
      closed := true;
      log := log.(closed := true);
    }
  }

  datatype WaitStart = Answered(answer: Answer) | Waiting | NegativeTimeout

  /** The constructor's own check on the capacity. */
  method MakeBuffer(capacity: int, hashing: Hashing) returns (r: Outcome<Buffer>)
    ensures r.Ok? <==> capacity >= 1
    ensures r.Ok? ==> fresh(r.value) && r.value.Valid() && r.value.log == EmptyLog(capacity)
  {
    if capacity < 1 {
      return ValueError;
    }
    var buffer := new Buffer(capacity, hashing);
    r := Ok(buffer);
  }

  /** A deque with a maximum length drops its first element to make room. */
  function PushBounded(events: seq<Revision>, capacity: nat, revision: Revision): seq<Revision> {
    var pushed := events + [revision];
    if |pushed| > capacity then pushed[1..] else pushed
  }

  predicate Holds(events: seq<Revision>, id: string) {
    exists e :: e in events && e.eventId == id
  }

  lemma RingAppend(h: Hashing, log: Log, snapshot: Snapshot, emittedAt: int)
    requires log.capacity >= 1
    ensures var (log', r) := PublishTo(h, log, snapshot, emittedAt);
      r.Published? ==> Retained(log') == PushBounded(Retained(log), log.capacity, r.revision)
  {
    hide NextRevision, ValidEventId;
  }

  lemma ShapeOf(h: Hashing, log: Log)
    requires ValidLog(h, log)
    ensures log.capacity >= 1 && |log.snapshots| == |log.history|
  {
  }

  lemma RingEnds(h: Hashing, log: Log)
    requires ValidLog(h, log)
    ensures Retained(log) == [] <==> log.history == []
    ensures log.history != [] ==>
      && Retained(log)[|Retained(log)| - 1] == log.history[|log.history| - 1]
      && log.history[|log.history| - 1].eventId == Render(|log.history|)
  {
    hide Render, Changed, DomainsOrdered, ValidEventId;
    if log.history != [] {
      assert ValidEntry(h, log.snapshots, |log.history| - 1, log.history[|log.history| - 1]);
    }
  }

  /** Events numbered from `first` hold an ID exactly when its number is among theirs. */
  lemma HoldsNumber(events: seq<Revision>, first: nat, cursor: string)
    requires forall i :: 0 <= i < |events| ==> events[i].eventId == Render(first + i)
    requires Canonical(cursor)
    ensures Holds(events, cursor) <==> first <= Value(cursor) < first + |events|
  {
    hide Render, Value;
    var id := Value(cursor);
    if Holds(events, cursor) {
      var e :| e in events && e.eventId == cursor;
      var i :| 0 <= i < |events| && events[i] == e;
      RenderMatches(cursor, first + i);
    }
    if first <= id < first + |events| {
      RenderMatches(cursor, id);
      assert events[id - first].eventId == Render(first + (id - first));
      assert events[id - first] in events;
    }
  }

  /** Scanning the ring for an ID asks whether its number is among the retained ones. */
  lemma CursorScan(h: Hashing, log: Log, cursor: string)
    requires ValidLog(h, log) && ValidEventId(cursor) && log.history != []
    ensures cursor == log.history[|log.history| - 1].eventId <==> Value(cursor) == |log.history|
    ensures Holds(Retained(log), cursor) <==>
      1 <= Value(cursor) <= |log.history| && |log.history| - Value(cursor) < log.capacity
  {
    ShapeOf(h, log);
    RetainedConsecutive(h, log);
    RingEnds(h, log);
    RenderMatches(cursor, |log.history|);
    hide ValidLog, Retained, Render, Value, Canonical, Holds;
    HoldsNumber(Retained(log), |log.history| - |Retained(log)| + 1, cursor);
  }

  lemma ClosePreserves(h: Hashing, log: Log)
    requires ValidLog(h, log)
    ensures ValidLog(h, log.(closed := true)) && Retained(log.(closed := true)) == Retained(log)
  {
  }
}
