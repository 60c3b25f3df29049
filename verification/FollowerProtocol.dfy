/** Every interleaving of the publisher, its snapshot readers, waiting followers and close. */
module FollowerProtocol {
  import opened Numbers
  import opened EventIds
  import opened RevisionLog

  /** Where the one publication in progress stands; each transition holds the publication lock. */
  datatype Publisher = Free | Locked(thread: int) | Pushed(thread: int, snapshot: Snapshot)

  /**
   * A follower's cursor, the issued ID it resumed from (0 when it came with none), the IDs and the events
   * delivered to it since, how much was published when it began to wait, and whether it was notified since then.
   */
  datatype Follower = Follower(
    cursor: Option<string>,
    resumed: nat,
    seen: seq<nat>,
    events: seq<Answer>,
    waitingSince: Option<nat>,
    woken: bool)

  datatype State = State(log: Log, publisher: Publisher, latestSnapshot: Option<Snapshot>, followers: seq<Follower>)

  /** One critical section of one thread, or a client connecting with a cursor of its own choosing. */
  datatype Action =
    | AcquirePublication(thread: int)
    | PushRevision(thread: int, snapshot: Snapshot, emittedAt: int)
    | StoreSnapshot(thread: int)
    | CloseBuffer
    | Connect(cursor: Option<string>)
    | Read(follower: int, now: int)
    | BeginWait(follower: int, zeroTimeout: bool, now: int)
    | FinishWait(follower: int, timedOut: bool, now: int)

  function Initial(capacity: nat): State {
    State(EmptyLog(capacity), Free, None, [])
  }

  /** The number of an ID the log has issued, and 0 for anything else a client may send. */
  function IssuedNumber(log: Log, cursor: Option<string>): nat {
    if cursor.Some? && ValidEventId(cursor.value) && Value(cursor.value) <= |log.history| then
      Value(cursor.value) else 0
  }

  function Connected(log: Log, cursor: Option<string>): Follower {
    Follower(cursor, IssuedNumber(log, cursor), [], [], None, false)
  }

  function Returned(f: Follower): Follower {
    f.(waitingSince := None, woken := false)
  }

  /** notify_all wakes whoever waits at that moment, and nobody else. */
  function Notified(f: Follower): Follower {
    if f.waitingSince.Some? then f.(woken := true) else f
  }

  function NotifyAll(followers: seq<Follower>): (notified: seq<Follower>)
    ensures |notified| == |followers|
  {
    seq(|followers|, i requires 0 <= i < |followers| => Notified(followers[i]))
  }

  /** A delivered event becomes the cursor of the next request; no event leaves the cursor alone. */
  function Deliver(f: Follower, a: Answer, published: nat): Follower {
    match a
    case Latest(revision) =>
      Returned(f).(cursor := Some(revision.eventId), seen := f.seen + [published], events := f.events + [a])
    case Reset(eventId, _, _) =>
      Returned(f).(cursor := Some(eventId), seen := f.seen + [published], events := f.events + [a])
    case _ => Returned(f)
  }

  predicate Present(s: State, follower: int) {
    0 <= follower < |s.followers|
  }

  function DeliverTo(s: State, i: int, now: int): State
    requires Present(s, i)
  {
    var f := s.followers[i];
    s.(followers := s.followers[i := Deliver(f, AnswerTo(s.log, f.cursor, now), |s.log.history|)])
  }

  function Waiting(s: State, i: int): State
    requires Present(s, i)
  {
    s.(followers := s.followers[i := s.followers[i].(waitingSince := Some(|s.log.history|), woken := false)])
  }

  /** The publisher's step inside the lock: a new revision notifies, and an exception releases the lock. */
  function Push(h: Hashing, s: State, thread: int, snapshot: Snapshot, emittedAt: int): State {
    var (log, result) := PublishTo(h, s.log, snapshot, emittedAt);
    s.(log := log,
       publisher := if result.Failed? then Free else Pushed(thread, snapshot),
       followers := if result.Published? then NotifyAll(s.followers) else s.followers)
  }

  /** An action whose thread or follower is not in the right place does nothing. */
  function Apply(h: Hashing, s: State, a: Action): State {
    match a
    case AcquirePublication(thread) => if s.publisher.Free? then s.(publisher := Locked(thread)) else s
    case PushRevision(thread, snapshot, emittedAt) =>
      if s.publisher == Locked(thread) then Push(h, s, thread, snapshot, emittedAt) else s
    case StoreSnapshot(thread) =>
      if s.publisher.Pushed? && s.publisher.thread == thread then
        s.(latestSnapshot := Some(s.publisher.snapshot), publisher := Free)
      else s
    case CloseBuffer => s.(log := s.log.(closed := true), followers := NotifyAll(s.followers))
    case Connect(cursor) => s.(followers := s.followers + [Connected(s.log, cursor)])
    case Read(i, now) =>
      if Present(s, i) && s.followers[i].waitingSince.None? then DeliverTo(s, i, now) else s
    case BeginWait(i, zeroTimeout, now) =>
      if !Present(s, i) || s.followers[i].waitingSince.Some? then s
      else if AnswerTo(s.log, s.followers[i].cursor, now) == Nothing && !s.log.closed && !zeroTimeout then
        Waiting(s, i)
      else DeliverTo(s, i, now)
    case FinishWait(i, timedOut, now) =>
      if Present(s, i) && s.followers[i].waitingSince.Some? && (s.followers[i].woken || timedOut) then
        DeliverTo(s, i, now)
      else s
  }

  function Run(h: Hashing, s: State, actions: seq<Action>): State {
    if actions == [] then s else Apply(h, Run(h, s, actions[..|actions| - 1]), actions[|actions| - 1])
  }

  // ---------------------------------------------------------------- the invariant

  ghost predicate Rising(s: seq<nat>) {
    forall i, j :: 0 <= i < j < |s| ==> s[i] < s[j]
  }

  /** The newest issued ID the follower already has: its last delivery, or the one it resumed from. */
  function Has(f: Follower): nat {
    if f.seen == [] then f.resumed else f.seen[|f.seen| - 1]
  }

  /**
   * Deliveries rise, starting above the issued ID resumed from; the newest ID held is the cursor; and a
   * waiting follower had nothing left to read.
   */
  ghost predicate FollowerSafe(n: nat, f: Follower) {
    && Rising([f.resumed] + f.seen)
    && Has(f) <= n
    && (Has(f) > 0 ==> f.cursor == Some(Render(Has(f))))
    && (f.waitingSince.Some? ==>
          f.waitingSince.value <= n
          && if f.waitingSince.value == 0 then f.cursor == None else f.cursor == Some(Render(f.waitingSince.value)))
  }

  /** A waiter is notified exactly when something was published, or the buffer closed, since it began. */
  ghost predicate NoticeKept(log: Log, f: Follower) {
    f.waitingSince.Some? ==>
      && f.waitingSince.value <= |log.history|
      && (f.woken <==> f.waitingSince.value < |log.history| || log.closed)
  }

  /** Outside the two-step publication, the stored snapshot is the newest revision's. */
  ghost predicate PublisherSafe(s: State) {
    var latest := LatestRevisionId(s.log);
    if s.publisher.Pushed? then latest == Some(s.publisher.snapshot.revisionId)
    else latest == (if s.latestSnapshot.None? then None else Some(s.latestSnapshot.value.revisionId))
  }

  ghost predicate Safe(h: Hashing, s: State) {
    && ValidLog(h, s.log)
    && PublisherSafe(s)
    && (forall i :: 0 <= i < |s.followers| ==> FollowerSafe(|s.log.history|, s.followers[i]))
    && (forall i :: 0 <= i < |s.followers| ==> NoticeKept(s.log, s.followers[i]))
  }

  /** Every event a follower is handed carries the newest ID at that moment. */
  lemma AnswerCarriesNewest(h: Hashing, log: Log, cursor: Option<string>, now: int)
    requires ValidLog(h, log)
    ensures var a := AnswerTo(log, cursor, now);
      && (a.Latest? ==> log.history != [] && a.revision == log.history[|log.history| - 1])
      && (a.Latest? ==> a.revision.eventId == Render(|log.history|))
      && (a.Reset? ==> a.eventId == Render(|log.history|))
      && (a.Latest? || a.Reset? ==> log.history != [] && cursor != Some(Render(|log.history|)))
  {
    hide Render, Changed, DomainsOrdered;
    if log.history != [] {
      EntryFollows(h, log, |log.history| - 1);
      RenderCanonical(|log.history|);
    }
    hide ValidLog, ValidEventId, Value;
    CursorValue(cursor, |log.history|);
  }

  lemma CursorValue(cursor: Option<string>, n: nat)
    ensures cursor == Some(Render(n)) ==> Canonical(cursor.value) && Value(cursor.value) == n
  {
    RenderCanonical(n);
  }

  /** Nothing is read only from an empty log without a cursor, or at the newest ID. */
  lemma NothingMeansCurrent(h: Hashing, log: Log, cursor: Option<string>, now: int)
    requires ValidLog(h, log) && AnswerTo(log, cursor, now) == Nothing
    ensures if log.history == [] then cursor == None else cursor == Some(Render(|log.history|))
  {
    hide ValidLog, Render;
    if cursor.Some? && ValidEventId(cursor.value) {
      ValueRenders(cursor.value);
    }
  }

  lemma RisingAppend(s: seq<nat>, x: nat)
    requires Rising(s) && s != [] && s[|s| - 1] < x
    ensures Rising(s + [x])
  {
  }

  lemma DeliverSafe(h: Hashing, log: Log, f: Follower, now: int)
    requires ValidLog(h, log) && FollowerSafe(|log.history|, f)
    ensures FollowerSafe(|log.history|, Deliver(f, AnswerTo(log, f.cursor, now), |log.history|))
  {
    AnswerCarriesNewest(h, log, f.cursor, now);
    hide ValidLog, AnswerTo, Render;
    var n, held := |log.history|, [f.resumed] + f.seen;
    assert held[|held| - 1] == Has(f);
    if Has(f) < n {
      hide Rising;
      RisingAppend(held, n);
      assert [f.resumed] + (f.seen + [n]) == held + [n];
    }
  }

  lemma DeliverNotice(log: Log, f: Follower, a: Answer)
    ensures NoticeKept(log, Deliver(f, a, |log.history|))
  {
  }

  lemma FollowerLater(n: nat, m: nat, f: Follower)
    requires FollowerSafe(n, f) && n <= m
    ensures FollowerSafe(m, f) && FollowerSafe(m, Notified(f))
  {
    hide Render;
  }

  lemma NoticeGiven(log: Log, log': Log, f: Follower)
    requires NoticeKept(log, f) && |log.history| <= |log'.history|
    ensures |log.history| < |log'.history| || log'.closed ==> NoticeKept(log', Notified(f))
    ensures |log.history| == |log'.history| && log.closed == log'.closed ==> NoticeKept(log', f)
  {
  }

  lemma DeliverToSafe(h: Hashing, s: State, i: int, now: int)
    requires Safe(h, s) && Present(s, i)
    ensures Safe(h, DeliverTo(s, i, now))
  {
    DeliverSafe(h, s.log, s.followers[i], now);
    DeliverNotice(s.log, s.followers[i], AnswerTo(s.log, s.followers[i].cursor, now));
    hide ValidLog, FollowerSafe, NoticeKept, AnswerTo, Deliver;
  }

  lemma LogGrows(h: Hashing, log: Log, snapshot: Snapshot, emittedAt: int)
    ensures var (log', r) := PublishTo(h, log, snapshot, emittedAt);
      && |log.history| <= |log'.history|
      && (!r.Published? ==> log' == log)
      && (r.Published? ==> |log'.history| == |log.history| + 1)
      && log'.closed == log.closed
      && (!r.Failed? ==> LatestRevisionId(log') == Some(snapshot.revisionId))
  {
    hide NextRevision, ValidEventId;
    assert NextRevision(h, log, snapshot, emittedAt).revisionId == snapshot.revisionId by {
      NextCarries(h, log, snapshot, emittedAt);
    }
  }

  lemma NextCarries(h: Hashing, log: Log, snapshot: Snapshot, emittedAt: int)
    ensures NextRevision(h, log, snapshot, emittedAt).revisionId == snapshot.revisionId
  {
  }

  lemma PushSafe(h: Hashing, s: State, thread: int, snapshot: Snapshot, emittedAt: int)
    requires Safe(h, s) && s.publisher.Locked?
    ensures Safe(h, Push(h, s, thread, snapshot, emittedAt))
  {
    PublishKeepsLog(h, s.log, snapshot, emittedAt);
    LogGrows(h, s.log, snapshot, emittedAt);
    hide ValidLog, PublishTo, FollowerSafe, NoticeKept, Notified;
    var s' := Push(h, s, thread, snapshot, emittedAt);
    forall i | 0 <= i < |s'.followers|
      ensures FollowerSafe(|s'.log.history|, s'.followers[i]) && NoticeKept(s'.log, s'.followers[i])
    {
      FollowerLater(|s.log.history|, |s'.log.history|, s.followers[i]);
      NoticeGiven(s.log, s'.log, s.followers[i]);
    }
  }

  lemma WaitSafe(h: Hashing, s: State, i: int, now: int)
    requires Safe(h, s) && Present(s, i) && !s.log.closed && AnswerTo(s.log, s.followers[i].cursor, now) == Nothing
    ensures Safe(h, Waiting(s, i))
  {
    NothingMeansCurrent(h, s.log, s.followers[i].cursor, now);
    hide ValidLog, AnswerTo, Render, Rising;
    var f := Waiting(s, i).followers[i];
    assert FollowerSafe(|s.log.history|, s.followers[i]);
    assert FollowerSafe(|s.log.history|, f) && NoticeKept(s.log, f);
    hide FollowerSafe, NoticeKept;
  }

  lemma ConnectSafe(h: Hashing, s: State, cursor: Option<string>)
    requires Safe(h, s)
    ensures Safe(h, s.(followers := s.followers + [Connected(s.log, cursor)]))
  {
    ConnectedSafe(s.log, cursor);
    hide FollowerSafe, NoticeKept, ValidLog, Connected;
  }

  lemma ConnectedSafe(log: Log, cursor: Option<string>)
    ensures FollowerSafe(|log.history|, Connected(log, cursor)) && NoticeKept(log, Connected(log, cursor))
  {
    if cursor.Some? && ValidEventId(cursor.value) {
      ValueRenders(cursor.value);
    }
    hide Render, Value;
  }

  lemma CloseSafe(h: Hashing, s: State)
    requires Safe(h, s)
    ensures Safe(h, s.(log := s.log.(closed := true), followers := NotifyAll(s.followers)))
  {
    var log := s.log.(closed := true);
    hide FollowerSafe, NoticeKept, ValidEntry, Notified;
    forall i | 0 <= i < |s.followers|
      ensures FollowerSafe(|log.history|, Notified(s.followers[i])) && NoticeKept(log, Notified(s.followers[i]))
    {
      FollowerLater(|log.history|, |log.history|, s.followers[i]);
      NoticeGiven(s.log, log, s.followers[i]);
    }
  }

  lemma ApplySafe(h: Hashing, s: State, a: Action)
    requires Safe(h, s)
    ensures Safe(h, Apply(h, s, a))
  {
    match a {
      case AcquirePublication(thread) =>
        hide ValidLog, FollowerSafe, NoticeKept;
      case PushRevision(thread, snapshot, emittedAt) =>
        hide Safe, Push;
        if s.publisher == Locked(thread) {
          PushSafe(h, s, thread, snapshot, emittedAt);
        }
      case StoreSnapshot(thread) =>
        hide ValidLog, FollowerSafe, NoticeKept;
      case CloseBuffer =>
        hide Safe;
        CloseSafe(h, s);
      case Connect(cursor) =>
        hide Safe;
        ConnectSafe(h, s, cursor);
      case Read(i, now) =>
        hide Safe, DeliverTo;
        if Present(s, i) {
          DeliverToSafe(h, s, i, now);
        }
      case BeginWait(i, zeroTimeout, now) =>
        hide Safe, DeliverTo, AnswerTo, Waiting;
        if Present(s, i) {
          DeliverToSafe(h, s, i, now);
          if AnswerTo(s.log, s.followers[i].cursor, now) == Nothing && !s.log.closed {
            WaitSafe(h, s, i, now);
          }
        }
      case FinishWait(i, timedOut, now) =>
        hide Safe, DeliverTo;
        if Present(s, i) {
          DeliverToSafe(h, s, i, now);
        }
    }
  }

  /** Safety of every run: rising deliveries, honest waits, and a stored snapshot that is never stale. */
  lemma {:induction false} EveryRunSafe(h: Hashing, capacity: nat, actions: seq<Action>)
    requires capacity >= 1
    ensures Safe(h, Run(h, Initial(capacity), actions))
  {
    if actions != [] {
      EveryRunSafe(h, capacity, actions[..|actions| - 1]);
      hide Safe, Apply;
      ApplySafe(h, Run(h, Initial(capacity), actions[..|actions| - 1]), actions[|actions| - 1]);
    }
  }

  /** With the lock free, a snapshot reader sees exactly the buffer's latest revision. */
  lemma SnapshotMatchesBuffer(h: Hashing, capacity: nat, actions: seq<Action>)
    requires capacity >= 1
    ensures var s := Run(h, Initial(capacity), actions);
      s.publisher.Free? ==>
        if s.latestSnapshot.None? then s.log.history == []
        else s.log.history != [] && s.log.history[|s.log.history| - 1].revisionId == s.latestSnapshot.value.revisionId
  {
    EveryRunSafe(h, capacity, actions);
    hide ValidLog, FollowerSafe, Run;
  }

  // ---------------------------------------------------------------- what a follower can rely on

  /**
   * A follower holding an issued ID, by delivery or by resuming with it, reads nothing exactly when
   * nothing newer was published, and is told to reset exactly when `capacity` or more revisions were.
   */
  lemma ReadByHolder(h: Hashing, s: State, i: int, now: int)
    requires Safe(h, s) && Present(s, i) && Has(s.followers[i]) > 0
    ensures var f, n := s.followers[i], |s.log.history|;
      var a := AnswerTo(s.log, f.cursor, now);
      && Has(f) <= n
      && (a.Nothing? <==> Has(f) == n)
      && (a.Reset? <==> n - Has(f) >= s.log.capacity)
      && (a.Latest? <==> 1 <= n - Has(f) < s.log.capacity)
      && (!a.Nothing? ==> Deliver(f, a, n).seen == f.seen + [n])
  {
    assert FollowerSafe(|s.log.history|, s.followers[i]);
    hide ValidLog, AnswerTo, Rising;
    IssuedCursorResets(h, s.log, Has(s.followers[i]), now);
    hide Render, FollowerSafe;
  }

  /** A waiter that returns comes back with an event exactly when one was published since it began. */
  lemma WaitFindsEverything(h: Hashing, s: State, i: int, now: int)
    requires Safe(h, s) && Present(s, i) && s.followers[i].waitingSince.Some?
    ensures var a := AnswerTo(s.log, s.followers[i].cursor, now);
      && s.followers[i].waitingSince.value <= |s.log.history|
      && (a.Nothing? <==> s.followers[i].waitingSince.value == |s.log.history|)
      && (!a.Nothing? ==> a.Latest? || a.Reset?)
  {
    var f := s.followers[i];
    assert FollowerSafe(|s.log.history|, f);
    var since := f.waitingSince.value;
    if since > 0 {
      IssuedCursorResets(h, s.log, since, now);
    }
    hide ValidLog, Render, ValidEventId, Value;
  }

  /**
   * No wake-up is lost, and none is given for nothing: after every run a waiter has been notified if and
   * only if there is something for it to read or the buffer is closed.
   */
  lemma NoLostWakeUp(h: Hashing, capacity: nat, actions: seq<Action>, i: int, now: int)
    requires capacity >= 1
    ensures var s := Run(h, Initial(capacity), actions);
      Present(s, i) && s.followers[i].waitingSince.Some? ==>
        (s.followers[i].woken <==> AnswerTo(s.log, s.followers[i].cursor, now) != Nothing || s.log.closed)
  {
    EveryRunSafe(h, capacity, actions);
    var s := Run(h, Initial(capacity), actions);
    hide Run, AnswerTo, ValidLog, FollowerSafe;
    if Present(s, i) && s.followers[i].waitingSince.Some? {
      WaitFindsEverything(h, s, i, now);
      assert NoticeKept(s.log, s.followers[i]);
    }
  }

  /** A waiter with something to read need not time out: it returns, and the newest ID is delivered. */
  lemma NotifiedWaiterReturns(h: Hashing, s: State, i: int, now: int)
    requires Safe(h, s) && Present(s, i) && s.followers[i].waitingSince.Some?
    requires AnswerTo(s.log, s.followers[i].cursor, now) != Nothing
    ensures var f := Apply(h, s, FinishWait(i, false, now)).followers[i];
      f.waitingSince == None && f.seen == s.followers[i].seen + [|s.log.history|]
  {
    WaitFindsEverything(h, s, i, now);
    assert NoticeKept(s.log, s.followers[i]);
    hide ValidLog, AnswerTo, FollowerSafe;
  }

  // ---------------------------------------------------------------- what is delivered

  /** The event is the revision published under this ID, or a reset that names it. */
  ghost predicate Tells(h: Hashing, log: Log, a: Answer, id: nat) {
    && 1 <= id <= |log.history| && |log.snapshots| == |log.history|
    && match a
       case Latest(revision) => revision == log.history[id - 1]
       case Reset(eventId, latestRevisionId, _) =>
         eventId == Render(id) && latestRevisionId == log.snapshots[id - 1].revisionId
       case _ => false
  }

  /** Every delivered event tells of the publication whose ID was delivered with it. */
  ghost predicate Told(h: Hashing, log: Log, f: Follower) {
    && |f.events| == |f.seen|
    && forall k :: 0 <= k < |f.seen| ==> Tells(h, log, f.events[k], f.seen[k])
  }

  lemma AnswerTells(h: Hashing, log: Log, cursor: Option<string>, now: int)
    requires ValidLog(h, log)
    ensures var a := AnswerTo(log, cursor, now);
      a.Latest? || a.Reset? ==> Tells(h, log, a, |log.history|)
  {
    AnswerCarriesNewest(h, log, cursor, now);
    if AnswerTo(log, cursor, now).Reset? {
      ResetNamesNewest(h, log, cursor, now);
      assert ValidEntry(h, log.snapshots, |log.history| - 1, log.history[|log.history| - 1]);
    }
    hide AnswerTo, Render, ValidEntry;
  }

  lemma DeliverTold(h: Hashing, log: Log, f: Follower, now: int)
    requires ValidLog(h, log) && Told(h, log, f)
    ensures Told(h, log, Deliver(f, AnswerTo(log, f.cursor, now), |log.history|))
  {
    AnswerTells(h, log, f.cursor, now);
    hide ValidLog, AnswerTo, Tells;
  }

  lemma ToldLater(h: Hashing, log: Log, log': Log, f: Follower)
    requires Told(h, log, f) && log.history <= log'.history && log.snapshots <= log'.snapshots
    requires |log'.snapshots| == |log'.history|
    ensures Told(h, log', f) && Told(h, log', Notified(f))
  {
    hide Render;
  }

  ghost predicate AllTold(h: Hashing, s: State) {
    forall i :: 0 <= i < |s.followers| ==> Told(h, s.log, s.followers[i])
  }

  lemma LogKeeps(h: Hashing, s: State, a: Action)
    requires Safe(h, s)
    ensures var log' := Apply(h, s, a).log;
      s.log.history <= log'.history && s.log.snapshots <= log'.snapshots && |log'.snapshots| == |log'.history|
  {
    if a.PushRevision? {
      StepExtends(h, s.log, Publish(a.snapshot, a.emittedAt));
    }
    ApplySafe(h, s, a);
    hide PublishTo, AnswerTo, ValidEntry, FollowerSafe, NoticeKept, PublisherSafe;
  }

  /** An action leaves a follower as it was, notifies it, takes its wait up, or hands it what it reads. */
  lemma FollowerStep(h: Hashing, s: State, a: Action, i: int)
    requires Present(s, i)
    ensures Present(Apply(h, s, a), i)
    ensures var f, f' := s.followers[i], Apply(h, s, a).followers[i];
      || f' == f || f' == Notified(f)
      || f' == f.(waitingSince := Some(|s.log.history|), woken := false)
      || (&& Apply(h, s, a).log == s.log
          && exists now :: f' == Deliver(f, AnswerTo(s.log, f.cursor, now), |s.log.history|))
  {
    hide PublishTo, AnswerTo, Deliver, Connected, Notified;
  }

  lemma ApplyTold(h: Hashing, s: State, a: Action)
    requires Safe(h, s) && AllTold(h, s)
    ensures AllTold(h, Apply(h, s, a))
  {
    var s' := Apply(h, s, a);
    LogKeeps(h, s, a);
    assert ValidLog(h, s.log);
    hide Safe, Told, ValidLog, AnswerTo, Deliver;
    forall i | 0 <= i < |s'.followers| ensures Told(h, s'.log, s'.followers[i]) {
      if i < |s.followers| {
        FollowerStep(h, s, a, i);
        ToldLater(h, s.log, s'.log, s.followers[i]);
        StillTold(h, s.log, s'.log, s.followers[i], s'.followers[i]);
      } else {
        JoinedTold(h, s, a, i);
      }
    }
  }

  lemma StillTold(h: Hashing, log: Log, log': Log, f: Follower, f': Follower)
    requires ValidLog(h, log) && Told(h, log, f) && Told(h, log', f) && Told(h, log', Notified(f))
    requires || f' == f || f' == Notified(f) || f' == f.(waitingSince := Some(|log.history|), woken := false)
             || (log' == log && exists now :: f' == Deliver(f, AnswerTo(log, f.cursor, now), |log.history|))
    ensures Told(h, log', f')
  {
    hide ValidLog, AnswerTo, Deliver, Tells;
    if log' == log && exists now :: f' == Deliver(f, AnswerTo(log, f.cursor, now), |log.history|) {
      var now :| f' == Deliver(f, AnswerTo(log, f.cursor, now), |log.history|);
      DeliverTold(h, log, f, now);
    }
  }

  lemma JoinedTold(h: Hashing, s: State, a: Action, i: int)
    requires |s.followers| <= i < |Apply(h, s, a).followers|
    ensures Told(h, Apply(h, s, a).log, Apply(h, s, a).followers[i])
  {
    hide PublishTo, AnswerTo, Tells;
  }

  /** In every run, every event handed out is the revision of the ID it carries, or a reset naming that revision. */
  lemma {:induction false} EveryRunTold(h: Hashing, capacity: nat, actions: seq<Action>)
    requires capacity >= 1
    ensures AllTold(h, Run(h, Initial(capacity), actions))
  {
    if actions != [] {
      var init := actions[..|actions| - 1];
      EveryRunTold(h, capacity, init);
      EveryRunSafe(h, capacity, init);
      hide Safe, Apply, AllTold;
      ApplyTold(h, Run(h, Initial(capacity), init), actions[|actions| - 1]);
    }
  }

  // ---------------------------------------------------------------- joining without a cursor

  /** Nothing was delivered yet and there is no cursor, or the first event was a revision. */
  predicate StartsWithRevision(f: Follower) {
    if f.events == [] then f.cursor == None else f.events[0].Latest?
  }

  lemma ApplyStarts(h: Hashing, s: State, a: Action, i: int)
    requires Present(s, i) && StartsWithRevision(s.followers[i])
    ensures Present(Apply(h, s, a), i) && StartsWithRevision(Apply(h, s, a).followers[i])
  {
    FollowerStep(h, s, a, i);
    hide Apply;
  }

  /** A client that joins without a cursor is, in every later run, handed a revision first, never a reset. */
  lemma {:induction false} JoiningStartsWithRevision(h: Hashing, s: State, actions: seq<Action>)
    ensures var later, i := Run(h, Apply(h, s, Connect(None)), actions), |s.followers|;
      Present(later, i) && StartsWithRevision(later.followers[i])
  {
    if actions != [] {
      var init := actions[..|actions| - 1];
      JoiningStartsWithRevision(h, s, init);
      hide Apply, StartsWithRevision;
      ApplyStarts(h, Run(h, Apply(h, s, Connect(None)), init), actions[|actions| - 1], |s.followers|);
    }
  }

  /** And if it reads at once, with something published, it is handed the newest revision. */
  lemma JoiningReadsNewest(h: Hashing, s: State, now: int)
    requires Safe(h, s) && s.log.history != []
    ensures var i := |s.followers|;
      var joined := Apply(h, s, Connect(None));
      Apply(h, joined, Read(i, now)).followers[i].events == [Latest(s.log.history[|s.log.history| - 1])]
  {
    NewReaderGetsNewest(h, s.log, now);
    hide Safe, ValidLog, AnswerTo;
  }

  // ---------------------------------------------------------------- resuming

  lemma ApplyGrows(h: Hashing, s: State, a: Action)
    ensures |s.log.history| <= |Apply(h, s, a).log.history|
    ensures |s.followers| <= |Apply(h, s, a).followers|
    ensures forall i :: Present(s, i) ==> Apply(h, s, a).followers[i].resumed == s.followers[i].resumed
  {
    if a.PushRevision? {
      LogGrows(h, s.log, a.snapshot, a.emittedAt);
    }
    hide PublishTo, AnswerTo, Connected;
  }

  /** Along a run the log and the followers only grow, and what a follower resumed from is never forgotten. */
  lemma {:induction false} RunGrows(h: Hashing, s: State, actions: seq<Action>)
    ensures |s.log.history| <= |Run(h, s, actions).log.history|
    ensures |s.followers| <= |Run(h, s, actions).followers|
    ensures forall i :: Present(s, i) ==> Run(h, s, actions).followers[i].resumed == s.followers[i].resumed
  {
    if actions != [] {
      hide Apply;
      RunGrows(h, s, actions[..|actions| - 1]);
      ApplyGrows(h, Run(h, s, actions[..|actions| - 1]), actions[|actions| - 1]);
    }
  }

  lemma {:induction false} RunSafe(h: Hashing, s: State, actions: seq<Action>)
    requires Safe(h, s)
    ensures Safe(h, Run(h, s, actions))
  {
    if actions != [] {
      RunSafe(h, s, actions[..|actions| - 1]);
      hide Safe, Apply;
      ApplySafe(h, Run(h, s, actions[..|actions| - 1]), actions[|actions| - 1]);
    }
  }

  lemma SafeDeliveriesRise(n: nat, f: Follower)
    requires FollowerSafe(n, f)
    ensures forall i :: 0 <= i < |f.seen| ==> f.resumed < f.seen[i] <= n
    ensures forall i, j :: 0 <= i < j < |f.seen| ==> f.seen[i] < f.seen[j]
  {
    hide Render;
    var held := [f.resumed] + f.seen;
    forall i | 0 <= i < |f.seen| ensures held[i + 1] == f.seen[i] && f.resumed < f.seen[i] <= Has(f) {
      assert held[0] == f.resumed && held[|held| - 1] == Has(f);
    }
  }

  /**
   * Deliveries rise across reconnects: a client that comes back with an issued ID k is, in every later
   * state of every run, only ever handed IDs above k, in increasing order.
   */
  lemma ResumedDeliveriesRise(h: Hashing, s: State, k: nat, actions: seq<Action>)
    requires Safe(h, s) && 1 <= k <= |s.log.history|
    ensures var later := Run(h, Apply(h, s, Connect(Some(Render(k)))), actions);
      var i := |s.followers|;
      && Present(later, i)
      && later.followers[i].resumed == k
      && (forall m :: 0 <= m < |later.followers[i].seen| ==> k < later.followers[i].seen[m] <= |later.log.history|)
      && Rising(later.followers[i].seen)
  {
    var i := |s.followers|;
    var joined := Apply(h, s, Connect(Some(Render(k))));
    IssuedIsItself(h, s.log, k);
    assert joined.followers[i].resumed == k;
    var later := Run(h, joined, actions);
    hide Apply, Run, Connected, IssuedNumber, Render;
    ApplySafe(h, s, Connect(Some(Render(k))));
    RunSafe(h, joined, actions);
    RunGrows(h, joined, actions);
    assert Present(joined, i);
    assert FollowerSafe(|later.log.history|, later.followers[i]);
    hide FollowerSafe, Safe;
    SafeDeliveriesRise(|later.log.history|, later.followers[i]);
  }

  lemma IssuedIsItself(h: Hashing, log: Log, k: nat)
    requires ValidLog(h, log) && 1 <= k <= |log.history|
    ensures IssuedNumber(log, Some(Render(k))) == k
  {
    assert ValidEntry(h, log.snapshots, k - 1, log.history[k - 1]);
    hide ValidEntry, ValidEventId, Render;
    RenderCanonical(k);
  }

  // ---------------------------------------------------------------- quiet runs

  /** An up-to-date follower: its cursor is the newest ID, however it came by it, or there is none at all. */
  ghost predicate UpToDate(s: State, i: int) {
    && Present(s, i)
    && s.followers[i].cursor == if s.log.history == [] then None else Some(Render(|s.log.history|))
  }

  /** Reading nothing and being up to date are the same. */
  lemma NothingIffUpToDate(h: Hashing, s: State, i: int, now: int)
    requires ValidLog(h, s.log) && Present(s, i)
    ensures AnswerTo(s.log, s.followers[i].cursor, now) == Nothing <==> UpToDate(s, i)
  {
    if AnswerTo(s.log, s.followers[i].cursor, now) == Nothing {
      NothingMeansCurrent(h, s.log, s.followers[i].cursor, now);
    }
    if UpToDate(s, i) && s.log.history != [] {
      IssuedCursorResets(h, s.log, |s.log.history|, now);
    }
    hide ValidLog, Render, Value, ValidEventId;
  }

  /** Handing follower j whatever it may read leaves an up-to-date follower i as it was. */
  lemma QuietDelivery(h: Hashing, s: State, j: int, now: int, i: int)
    requires ValidLog(h, s.log) && Present(s, j) && UpToDate(s, i)
    ensures UpToDate(DeliverTo(s, j, now), i) && DeliverTo(s, j, now).followers[i].seen == s.followers[i].seen
  {
    NothingIffUpToDate(h, s, i, now);
    hide ValidLog, AnswerTo, Render;
  }

  lemma QuietNotice(s: State, s': State, i: int)
    requires UpToDate(s, i) && |s'.log.history| == |s.log.history|
    requires s'.followers == s.followers || s'.followers == NotifyAll(s.followers)
    ensures UpToDate(s', i) && s'.followers[i].seen == s.followers[i].seen
  {
    hide Render;
  }

  lemma QuietStep(h: Hashing, s: State, a: Action, i: int)
    requires Safe(h, s) && UpToDate(s, i) && |Apply(h, s, a).log.history| == |s.log.history|
    ensures UpToDate(Apply(h, s, a), i) && Apply(h, s, a).followers[i].seen == s.followers[i].seen
  {
    assert ValidLog(h, s.log);
    if a.Connect? {
      hide Safe, Render, Connected;
    } else if a.Read? || a.BeginWait? || a.FinishWait? {
      hide Safe, AnswerTo, DeliverTo, Render;
      if Present(s, a.follower) {
        QuietDelivery(h, s, a.follower, a.now, i);
      }
    } else {
      hide Safe, PublishTo, Render, UpToDate, NotifyAll;
      QuietNotice(s, Apply(h, s, a), i);
    }
  }

  /** Until the next publication, an up-to-date follower is delivered nothing, whatever else happens. */
  lemma {:induction false} QuietUntilNextPublication(h: Hashing, s: State, actions: seq<Action>, i: int)
    requires Safe(h, s) && UpToDate(s, i)
    requires |Run(h, s, actions).log.history| == |s.log.history|
    ensures Present(Run(h, s, actions), i) && Run(h, s, actions).followers[i].seen == s.followers[i].seen
    ensures UpToDate(Run(h, s, actions), i) && Safe(h, Run(h, s, actions))
  {
    if actions != [] {
      var init, last := actions[..|actions| - 1], actions[|actions| - 1];
      hide Apply, Safe, UpToDate;
      RunGrows(h, s, init);
      ApplyGrows(h, Run(h, s, init), last);
      QuietUntilNextPublication(h, s, init, i);
      QuietStep(h, Run(h, s, init), last, i);
      ApplySafe(h, Run(h, s, init), last);
    }
  }
}
