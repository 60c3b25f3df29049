/** Paging a public market source: cursor loops, limits, truncation and the ordered output. */
module Acquisition {
  import opened Numbers
  import opened StringOrder
  import opened Deduplication

  /** A parsed page, or any failure of the request or of parsing. */
  datatype Response = Page(candidates: seq<Candidate>, returnedCursor: Option<string>) | Broken

  datatype Request = Request(maxCandidates: int, maxPages: int)

  predicate ValidRequest(q: Request) {
    1 <= q.maxCandidates <= 5000 && 1 <= q.maxPages <= 100
  }

  // ---------------------------------------------------------------- paging

  datatype Stop = CandidateLimit | NoCursor | PageLimit

  /** The loop's state after some pages; `followed` lists the cursors requested so far. */
  datatype Run = Run(intake: Intake, received: nat, pages: nat, followed: seq<string>, stop: Option<Stop>)

  const NOT_STARTED := Run(NOTHING_TAKEN, 0, 0, [], None)

  /** After one page: where the loop goes. */
  function Turn(q: Request, followed: seq<string>, ordinal: nat, kept: nat,
                cursor: Option<string>): Outcome<(seq<string>, Option<Stop>)> {
    if kept >= q.maxCandidates then Ok((followed, Some(CandidateLimit)))
    else if cursor.None? then Ok((followed, Some(NoCursor)))
    else if cursor.value in followed then ValueError
    else Ok((followed + [cursor.value], if ordinal == q.maxPages then Some(PageLimit) else None))
  }

  function NextPage(q: Request, run: Run, response: Response): Outcome<Run> {
    if run.stop.Some? then Ok(run)
    else if response.Broken? then ValueError
    else
      var absorbed := AbsorbAll(run.intake, response.candidates);
      if absorbed.ValueError? then ValueError
      else
        var turn := Turn(q, run.followed, run.pages + 1, |absorbed.value.kept|, response.returnedCursor);
        if turn.ValueError? then ValueError
        else Ok(Run(absorbed.value, run.received + |response.candidates|, run.pages + 1, turn.value.0, turn.value.1))
  }

  /** The loop over the first n answers of the source. */
  function Pages(q: Request, responses: seq<Response>, n: nat): Outcome<Run>
    requires n <= |responses|
  {
    if n == 0 then Ok(NOT_STARTED)
    else
      var before := Pages(q, responses, n - 1);
      if before.ValueError? then ValueError else NextPage(q, before.value, responses[n - 1])
  }

  ghost function Received(responses: seq<Response>, n: nat): seq<Candidate>
    requires n <= |responses|
  {
    if n == 0 then []
    else Received(responses, n - 1) + (if responses[n - 1].Page? then responses[n - 1].candidates else [])
  }

  ghost predicate Distinct(s: seq<string>) {
    forall i, j :: 0 <= i < j < |s| ==> s[i] != s[j]
  }

  /** Page k of the run returned this cursor. */
  ghost predicate Returned(responses: seq<Response>, k: int, cursor: string) {
    0 <= k < |responses| && responses[k].Page? && responses[k].returnedCursor == Some(cursor)
  }

  /** The pages read so far, what was taken from them, and how many there may be. */
  ghost predicate PagesTaken(q: Request, responses: seq<Response>, run: Run) {
    && run.pages <= |responses| && run.pages <= q.maxPages
    && (forall k :: 0 <= k < run.pages ==> responses[k].Page?)
    && Conserved(Received(responses, run.pages), run.intake)
    && run.received == |Received(responses, run.pages)|
  }

  /** The followed cursors are those of the pages before the last turn, all different. */
  ghost predicate CursorsFollowed(responses: seq<Response>, run: Run) {
    && Distinct(run.followed)
    && |run.followed| == (if run.stop.None? || run.stop.value.PageLimit? then run.pages else run.pages - 1)
    && (forall k :: 0 <= k < |run.followed| ==> Returned(responses, k, run.followed[k]))
  }

  /** Why the loop stopped. */
  ghost predicate StopExplained(q: Request, responses: seq<Response>, run: Run) {
    && (run.stop.Some? ==> 0 < run.pages <= |responses| && responses[run.pages - 1].Page?)
    && (run.stop == Some(NoCursor) ==> responses[run.pages - 1].returnedCursor == None)
    && (run.stop == Some(CandidateLimit) <==> |run.intake.kept| >= q.maxCandidates)
    && (run.stop == Some(PageLimit) ==> run.pages == q.maxPages && responses[run.pages - 1].returnedCursor.Some?)
  }

  /** What is kept up by every turn of the page loop. */
  ghost predicate Paged(q: Request, responses: seq<Response>, run: Run) {
    PagesTaken(q, responses, run) && CursorsFollowed(responses, run) && StopExplained(q, responses, run)
  }

  lemma PagedStart(q: Request, responses: seq<Response>)
    requires ValidRequest(q)
    ensures Paged(q, responses, NOT_STARTED)
  {
  }

  lemma NextPageParts(q: Request, run: Run, response: Response)
    requires run.stop.None? && NextPage(q, run, response).Ok?
    ensures var run' := NextPage(q, run, response).value;
      && response.Page?
      && AbsorbAll(run.intake, response.candidates) == Ok(run'.intake)
      && run'.pages == run.pages + 1 && run'.received == run.received + |response.candidates|
      && Turn(q, run.followed, run.pages + 1, |run'.intake.kept|, response.returnedCursor)
           == Ok((run'.followed, run'.stop))
  {
    hide AbsorbAll, Turn;
  }

  lemma ReceivedNext(responses: seq<Response>, n: nat)
    requires n < |responses| && responses[n].Page?
    ensures Received(responses, n + 1) == Received(responses, n) + responses[n].candidates
  {
  }

  lemma PagesTakenNext(q: Request, responses: seq<Response>, run: Run, run': Run)
    requires PagesTaken(q, responses, run)
    requires run.pages < |responses| && run.pages < q.maxPages && responses[run.pages].Page?
    requires AbsorbAll(run.intake, responses[run.pages].candidates) == Ok(run'.intake)
    requires run'.pages == run.pages + 1 && run'.received == run.received + |responses[run.pages].candidates|
    ensures PagesTaken(q, responses, run')
  {
    hide Conserved, AbsorbAll, Received;
    var n := run.pages;
    AbsorbAllConserves(Received(responses, n), run.intake, responses[n].candidates);
    ReceivedNext(responses, n);
  }

  lemma TurnFollows(q: Request, responses: seq<Response>, run: Run, run': Run, kept: nat)
    requires CursorsFollowed(responses, run) && run.stop.None?
    requires run.pages < |responses| && responses[run.pages].Page?
    requires Turn(q, run.followed, run.pages + 1, kept, responses[run.pages].returnedCursor)
      == Ok((run'.followed, run'.stop))
    requires run'.pages == run.pages + 1
    ensures CursorsFollowed(responses, run')
  {
  }

  lemma PagedNext(q: Request, responses: seq<Response>, run: Run)
    requires ValidRequest(q) && Paged(q, responses, run) && run.stop.None?
    requires run.pages < |responses| && run.pages < q.maxPages && NextPage(q, run, responses[run.pages]).Ok?
    ensures Paged(q, responses, NextPage(q, run, responses[run.pages]).value)
  {
    var response := responses[run.pages];
    var run' := NextPage(q, run, response).value;
    hide AbsorbAll, Received, PagesTaken, CursorsFollowed, NextPage;
    NextPageParts(q, run, response);
    PagesTakenNext(q, responses, run, run');
    TurnFollows(q, responses, run, run', |run'.intake.kept|);
    hide Turn, StopExplained;
    TurnStops(q, responses, run, run');
  }

  lemma TurnStops(q: Request, responses: seq<Response>, run: Run, run': Run)
    requires run.pages < |responses| && responses[run.pages].Page? && run'.pages == run.pages + 1
    requires Turn(q, run.followed, run.pages + 1, |run'.intake.kept|, responses[run.pages].returnedCursor)
          == Ok((run'.followed, run'.stop))
    ensures StopExplained(q, responses, run')
  {
  }

  /** The state after n answers: what every turn keeps, and it has not stopped only if it read them all. */
  lemma {:induction false} PagesPaged(q: Request, responses: seq<Response>, n: nat)
    requires ValidRequest(q) && n <= |responses| && n <= q.maxPages && Pages(q, responses, n).Ok?
    ensures var run := Pages(q, responses, n).value;
      && Paged(q, responses, run)
      && run.pages <= n
      && (run.stop.None? ==> run.pages == n && n < q.maxPages)
  {
    hide Paged, NextPage;
    if n == 0 {
      PagedStart(q, responses);
    } else {
      PagesPaged(q, responses, n - 1);
      var before := Pages(q, responses, n - 1).value;
      StoppedStays(q, before, responses[n - 1]);
      if before.stop.None? {
        PagedNext(q, responses, before);
      }
    }
  }

  lemma StoppedStays(q: Request, run: Run, response: Response)
    ensures run.stop.Some? ==> NextPage(q, run, response) == Ok(run)
    ensures run.stop.None? && NextPage(q, run, response).Ok? ==>
      NextPage(q, run, response).value.pages == run.pages + 1
    ensures run.stop.None? && NextPage(q, run, response).Ok? && NextPage(q, run, response).value.stop.None? ==>
      run.pages + 1 != q.maxPages
  {
    hide AbsorbAll;
  }

  // ---------------------------------------------------------------- the result

  /** Output order: family, then market ID (every market has the same source). */
  predicate Precedes(c: Candidate, d: Candidate) {
    Less(c.familyId, d.familyId) || (c.familyId == d.familyId && Less(c.marketId, d.marketId))
  }

  ghost predicate InOrder(cs: seq<Candidate>) {
    forall i, j :: 0 <= i < j < |cs| ==> Precedes(cs[i], cs[j])
  }

  /** The first `limit` of the candidates in output order. */
  ghost predicate IsFirstOf(output: seq<Candidate>, kept: set<Candidate>, limit: int) {
    && InOrder(output)
    && |output| == (if |kept| <= limit then |kept| else limit)
    && (forall c :: c in output ==> c in kept)
    && (forall c, d :: c in output && d in kept && d !in output ==> Precedes(c, d))
  }

  datatype Diagnostics = Diagnostics(
    pageCount: nat,
    receivedMarkets: nat,
    exactDuplicates: nat,
    canonicalDuplicates: nat,
    truncatedAtCandidateLimit: bool,
    truncatedAtPageLimit: bool)

  datatype AcquisitionResult = AcquisitionResult(candidates: seq<Candidate>, diagnostics: Diagnostics)

  /** The result reported for a finished run. */
  ghost predicate Reports(a: AcquisitionResult, q: Request, responses: seq<Response>, run: Run) {
    && run.stop.Some? && 0 < run.pages <= |responses| && responses[run.pages - 1].Page?
    && IsFirstOf(a.candidates, run.intake.kept.Values, q.maxCandidates)
    && a.diagnostics == Diagnostics(run.pages, run.received, run.intake.exactDuplicates, run.intake.canonicalDuplicates,
         |run.intake.kept| > q.maxCandidates
           || (run.stop == Some(CandidateLimit) && responses[run.pages - 1].returnedCursor.Some?),
         run.stop == Some(PageLimit))
  }

  // ---------------------------------------------------------------- the output order

  ghost predicate OnePerId(kept: set<Candidate>) {
    forall c, d :: c in kept && d in kept && c.marketId == d.marketId ==> c == d
  }

  lemma PrecedesTotal(c: Candidate, d: Candidate)
    ensures Precedes(c, d) || Precedes(d, c) || c.marketId == d.marketId
  {
    LessTotal(c.familyId, d.familyId);
    LessTotal(c.marketId, d.marketId);
  }

  lemma PrecedesTransitive(c: Candidate, d: Candidate, e: Candidate)
    requires Precedes(c, d) && Precedes(d, e)
    ensures Precedes(c, e)
  {
    if Less(c.familyId, d.familyId) && Less(d.familyId, e.familyId) {
      LessTransitive(c.familyId, d.familyId, e.familyId);
    }
    if Less(c.marketId, d.marketId) && Less(d.marketId, e.marketId) {
      LessTransitive(c.marketId, d.marketId, e.marketId);
    }
  }

  lemma PrecedesIrreflexive(c: Candidate)
    ensures !Precedes(c, c)
  {
    if Less(c.familyId, c.familyId) {
      LessAsymmetric(c.familyId, c.familyId);
    }
    if Less(c.marketId, c.marketId) {
      LessAsymmetric(c.marketId, c.marketId);
    }
  }

  ghost predicate IsFirst(c: Candidate, pending: set<Candidate>) {
    c in pending && forall d :: d in pending && d != c ==> Precedes(c, d)
  }

  lemma {:induction false} FirstExists(pending: set<Candidate>)
    requires pending != {} && OnePerId(pending)
    ensures exists c :: IsFirst(c, pending)
  {
    var c :| c in pending;
    var rest := pending - {c};
    assert forall d :: d in pending <==> d == c || d in rest;
    if rest == {} {
      assert IsFirst(c, pending);
    } else {
      FirstExists(rest);
      var first :| IsFirst(first, rest);
      hide Precedes;
      PrecedesTotal(c, first);
      if Precedes(c, first) {
        forall d | d in pending && d != c ensures Precedes(c, d) {
          if d != first {
            PrecedesTransitive(c, first, d);
          }
        }
        assert IsFirst(c, pending);
      } else {
        assert IsFirst(first, pending);
      }
    }
  }

  method First(pending: set<Candidate>) returns (c: Candidate)
    requires pending != {} && OnePerId(pending)
    ensures IsFirst(c, pending)
  {
    FirstExists(pending);
    c :| c in pending && forall d :: d in pending && d != c ==> Precedes(c, d);
  }

  /** Everything before the pending candidates, in order. */
  ghost predicate SortedBefore(output: seq<Candidate>, kept: set<Candidate>, pending: set<Candidate>) {
    && InOrder(output)
    && pending <= kept
    && |output| + |pending| == |kept|
    && (forall c :: c in output <==> c in kept && c !in pending)
    && (forall c, d :: c in output && d in pending ==> Precedes(c, d))
  }

  lemma SortStep(output: seq<Candidate>, kept: set<Candidate>, pending: set<Candidate>, c: Candidate)
    requires SortedBefore(output, kept, pending) && IsFirst(c, pending)
    ensures SortedBefore(output + [c], kept, pending - {c})
  {
    hide Precedes;
    var output' := output + [c];
    assert forall d :: d in output' <==> d in output || d == c;
    forall i, j | 0 <= i < j < |output'| ensures Precedes(output'[i], output'[j]) {
      assert output[i] in output;
    }
  }

  method SortCandidates(kept: set<Candidate>) returns (output: seq<Candidate>)
    requires OnePerId(kept)
    ensures SortedBefore(output, kept, {})
  {
    output := [];
    var pending := kept;
    hide SortedBefore, IsFirst, Precedes;
    SortNothing(kept);
    while pending != {}
      invariant pending <= kept && SortedBefore(output, kept, pending)
      decreases |pending|
    {
      var c := First(pending);
      SortStep(output, kept, pending, c);
      FirstIn(c, pending);
      output := output + [c];
      pending := pending - {c};
    }
  }

  lemma FirstIn(c: Candidate, pending: set<Candidate>)
    requires IsFirst(c, pending)
    ensures c in pending
  {
  }

  lemma SortNothing(kept: set<Candidate>)
    ensures SortedBefore([], kept, kept)
  {
  }

  /** A prefix of the sorted candidates is the first of them. */
  lemma PrefixIsFirst(output: seq<Candidate>, kept: set<Candidate>, limit: nat)
    requires SortedBefore(output, kept, {})
    ensures IsFirstOf(output[..if |output| <= limit then |output| else limit], kept, limit)
  {
    hide Precedes;
    var n := if |output| <= limit then |output| else limit;
    var prefix := output[..n];
    assert forall c :: c in prefix ==> c in output;
    forall c, d | c in prefix && d in kept && d !in prefix ensures Precedes(c, d) {
      assert d in output;
      var i :| 0 <= i < |prefix| && prefix[i] == c;
      var j :| 0 <= j < |output| && output[j] == d;
      assert forall m :: 0 <= m < n ==> output[m] in prefix;
    }
  }

  ghost predicate FiledById(kept: map<string, Candidate>) {
    forall id :: id in kept ==> kept[id].marketId == id
  }

  lemma ValuesWithout(kept: map<string, Candidate>, id: string, rest: map<string, Candidate>)
    requires id in kept && FiledById(kept) && rest == kept - {id}
    ensures FiledById(rest) && kept.Values == rest.Values + {kept[id]} && kept[id] !in rest.Values
    ensures |kept| == |rest| + 1
  {
    assert kept.Keys == rest.Keys + {id};
    forall c ensures c in kept.Values <==> c in rest.Values + {kept[id]} {
      if c in kept.Values {
        var other :| other in kept && kept[other] == c;
        assert other != id ==> other in rest.Keys;
      }
    }
    assert forall other :: other in rest ==> rest[other].marketId == other != id;
  }

  lemma {:induction false} ValuesCount(kept: map<string, Candidate>)
    requires FiledById(kept)
    ensures |kept.Values| == |kept|
    decreases |kept|
  {
    if |kept| > 0 {
      var id :| id in kept;
      ValuesWithout(kept, id, kept - {id});
      hide FiledById;
      ValuesCount(kept - {id});
    } else {
      assert kept == map[];
    }
  }

  lemma KeptOnePerId(kept: map<string, Candidate>)
    requires FiledById(kept)
    ensures OnePerId(kept.Values)
  {
  }

  // ---------------------------------------------------------------- the acquirer

  lemma {:induction false} StoppedPages(q: Request, responses: seq<Response>, n: nat, m: nat)
    requires n <= m <= |responses|
    ensures Pages(q, responses, n).ValueError? ==> Pages(q, responses, m).ValueError?
    ensures Pages(q, responses, n).Ok? && Pages(q, responses, n).value.stop.Some? ==>
      Pages(q, responses, m) == Pages(q, responses, n)
    decreases m
  {
    hide NextPage;
    if n < m {
      StoppedPages(q, responses, n, m - 1);
      if Pages(q, responses, m - 1).Ok? {
        StoppedStays(q, Pages(q, responses, m - 1).value, responses[m - 1]);
      }
    }
  }

  /** Reads answers until a limit, the last page or a failure; one answer is ready for every allowed page. */
  method ReadPages(q: Request, responses: seq<Response>) returns (r: Outcome<Run>)
    requires ValidRequest(q) && |responses| >= q.maxPages
    ensures r == Pages(q, responses, q.maxPages)
  {
    hide AbsorbAll, Turn, Paged;
    var run := NOT_STARTED;
    for n := 0 to q.maxPages
      invariant Pages(q, responses, n) == Ok(run) && run.stop.None? && run.pages == n
    {
      StoppedPages(q, responses, n + 1, q.maxPages);
      if responses[n].Broken? {
        return ValueError;
      }
      var absorbed := AbsorbPage(run.intake, responses[n].candidates);
      if absorbed.ValueError? {
        return ValueError;
      }
      var turn := Turn(q, run.followed, n + 1, |absorbed.value.kept|, responses[n].returnedCursor);
      if turn.ValueError? {
        return ValueError;
      }
      run := Run(absorbed.value, run.received + |responses[n].candidates|, n + 1, turn.value.0, turn.value.1);
      if run.stop.Some? {
        return Ok(run);
      }
    }
    PagesPaged(q, responses, q.maxPages);
    assert false;
  }

  /** Succeeds exactly when the page loop does, and reports the run it ended in. */
  method Acquire(q: Request, responses: seq<Response>) returns (r: Outcome<AcquisitionResult>)
    requires ValidRequest(q) && |responses| >= q.maxPages
    ensures r.Ok? <==> Pages(q, responses, q.maxPages).Ok?
    ensures r.ValueError? <==> SomeFails(q, responses, q.maxPages)
    ensures r.Ok? ==> Reports(r.value, q, responses, Pages(q, responses, q.maxPages).value)
  {
    hide Pages, Paged, IsFirstOf, SortedBefore, OnePerId, SomeFails;
    PagesFailIff(q, responses, q.maxPages);
    var read := ReadPages(q, responses);
    if read.ValueError? {
      return ValueError;
    }
    var run := read.value;
    PagesPaged(q, responses, q.maxPages);
    FinishedRun(q, responses, run);
    var output := SortCandidates(run.intake.kept.Values);
    PrefixIsFirst(output, run.intake.kept.Values, q.maxCandidates);
    var limited := run.stop == Some(CandidateLimit) && responses[run.pages - 1].returnedCursor.Some?;
    r := Ok(AcquisitionResult(
      output[..if |output| <= q.maxCandidates then |output| else q.maxCandidates],
      Diagnostics(run.pages, run.received, run.intake.exactDuplicates, run.intake.canonicalDuplicates,
        |run.intake.kept| > q.maxCandidates || limited, run.stop == Some(PageLimit))));
  }

  lemma FinishedRun(q: Request, responses: seq<Response>, run: Run)
    requires Paged(q, responses, run) && run.stop.Some?
    ensures 0 < run.pages <= |responses| && responses[run.pages - 1].Page?
    ensures |run.intake.kept.Values| == |run.intake.kept| && OnePerId(run.intake.kept.Values)
  {
    hide CursorsFollowed, DistinctContent, FingerprintsKept, Represented, Received;
    assert FiledById(run.intake.kept);
    hide FiledById;
    ValuesCount(run.intake.kept);
    KeptOnePerId(run.intake.kept);
  }

  // ---------------------------------------------------------------- what a result promises

  /** Received markets are kept or counted as duplicates; kept ones differ in ID and content; pages stay in bounds. */
  lemma AcquisitionConserves(a: AcquisitionResult, q: Request, responses: seq<Response>)
    requires ValidRequest(q) && |responses| >= q.maxPages && Pages(q, responses, q.maxPages).Ok?
    requires Reports(a, q, responses, Pages(q, responses, q.maxPages).value)
    ensures var d := a.diagnostics;
      var kept := Pages(q, responses, q.maxPages).value.intake.kept;
      && 1 <= d.pageCount <= q.maxPages
      && d.receivedMarkets == |Received(responses, d.pageCount)|
      && d.receivedMarkets == |kept| + d.exactDuplicates + d.canonicalDuplicates
      && |a.candidates| == (if |kept| <= q.maxCandidates then |kept| else q.maxCandidates)
    ensures forall i, j :: 0 <= i < j < |a.candidates| ==>
      a.candidates[i].marketId != a.candidates[j].marketId && a.candidates[i].content != a.candidates[j].content
    ensures InOrder(a.candidates) && forall c :: c in a.candidates ==> c in Received(responses, a.diagnostics.pageCount)
  {
    var run := Pages(q, responses, q.maxPages).value;
    PagesPaged(q, responses, q.maxPages);
    FinishedRun(q, responses, run);
    hide Pages, CursorsFollowed, Precedes, Represented, FingerprintsKept, Received;
    forall i, j | 0 <= i < j < |a.candidates|
      ensures a.candidates[i].marketId != a.candidates[j].marketId && a.candidates[i].content != a.candidates[j].content
    {
      var c, d := a.candidates[i], a.candidates[j];
      KeptUnderId(run, c);
      KeptUnderId(run, d);
      assert Precedes(c, d);
      PrecedesIrreflexive(c);
      PrecedesIrreflexive(d);
    }
  }

  lemma KeptUnderId(run: Run, c: Candidate)
    requires c in run.intake.kept.Values && forall id :: id in run.intake.kept ==> run.intake.kept[id].marketId == id
    ensures c.marketId in run.intake.kept && run.intake.kept[c.marketId] == c
  {
    var id :| id in run.intake.kept && run.intake.kept[id] == c;
  }

  /** With neither truncation flag, the source was read to its end and every received content is in the output. */
  lemma UntruncatedIsComplete(a: AcquisitionResult, q: Request, responses: seq<Response>)
    requires ValidRequest(q) && |responses| >= q.maxPages && Pages(q, responses, q.maxPages).Ok?
    requires Reports(a, q, responses, Pages(q, responses, q.maxPages).value)
    requires !a.diagnostics.truncatedAtCandidateLimit && !a.diagnostics.truncatedAtPageLimit
    ensures var n := a.diagnostics.pageCount;
      && 0 < n <= |responses| && responses[n - 1].Page? && responses[n - 1].returnedCursor == None
      && forall c :: c in Received(responses, n) ==> exists o :: o in a.candidates && o.content == c.content
  {
    var run := Pages(q, responses, q.maxPages).value;
    PagesPaged(q, responses, q.maxPages);
    FinishedRun(q, responses, run);
    hide Pages, CursorsFollowed, DistinctContent, Filed, Received, InOrder, Precedes;
    AllOutput(a.candidates, run.intake.kept.Values, q.maxCandidates);
    forall c | c in Received(responses, run.pages) ensures exists o :: o in a.candidates && o.content == c.content {
      assert c.content in run.intake.fingerprints;
      var id :| id in run.intake.kept && run.intake.kept[id].content == c.content;
      assert run.intake.kept[id] in run.intake.kept.Values;
    }
  }

  /**
   * The flags say why the output may be short: more contents than the limit, or as many with a further cursor;
   * and the page limit reached with a further cursor while there was room.
   */
  lemma TruncationMeaning(a: AcquisitionResult, q: Request, responses: seq<Response>)
    requires ValidRequest(q) && |responses| >= q.maxPages && Pages(q, responses, q.maxPages).Ok?
    requires Reports(a, q, responses, Pages(q, responses, q.maxPages).value)
    ensures var n := a.diagnostics.pageCount;
      && 0 < n <= |responses| && responses[n - 1].Page?
      && var further, contents := responses[n - 1].returnedCursor.Some?, |Contents(Received(responses, n))|;
      && (a.diagnostics.truncatedAtCandidateLimit <==>
            contents > q.maxCandidates || (contents == q.maxCandidates && further))
      && (a.diagnostics.truncatedAtPageLimit <==> n == q.maxPages && further && contents < q.maxCandidates)
  {
    var run := Pages(q, responses, q.maxPages).value;
    PagesPaged(q, responses, q.maxPages);
    KeptIsContents(q, responses, q.maxPages);
    hide Pages, CursorsFollowed, PagesTaken, IsFirstOf, Received, Contents;
  }

  /** In the output families never fall, members of one family stand together, and IDs rise within it. */
  lemma OutputGrouped(output: seq<Candidate>, i: int, k: int, j: int)
    requires InOrder(output) && 0 <= i < k < j < |output|
    ensures !Less(output[j].familyId, output[i].familyId)
    ensures output[i].familyId == output[j].familyId ==>
      output[k].familyId == output[i].familyId && Less(output[i].marketId, output[k].marketId)
  {
    assert Precedes(output[i], output[k]) && Precedes(output[k], output[j]) && Precedes(output[i], output[j]);
    var x, y, z := output[i].familyId, output[k].familyId, output[j].familyId;
    if Less(z, x) {
      LessAsymmetric(z, x);
      if Less(x, z) { LessAsymmetric(x, z); }
    }
    if x == z {
      if Less(x, y) { LessAsymmetric(x, y); }
      if Less(y, z) { LessAsymmetric(y, z); }
    }
  }

  /** When everything fits, nothing kept is cut off. */
  lemma AllOutput(output: seq<Candidate>, kept: set<Candidate>, limit: int)
    requires IsFirstOf(output, kept, limit) && |kept| <= limit
    ensures forall c :: c in kept ==> c in output
  {
    var listed := set c | c in output;
    OrderedCount(output);
    hide InOrder, Precedes;
    assert listed <= kept;
    SubsetEqual(listed, kept);
  }

  lemma {:induction false} OrderedCount(output: seq<Candidate>)
    requires InOrder(output)
    ensures |set c | c in output| == |output|
  {
    if output != [] {
      var init, last := output[..|output| - 1], output[|output| - 1];
      assert output == init + [last];
      OrderedCount(init);
      assert last !in init by {
        if last in init {
          var i :| 0 <= i < |init| && init[i] == last;
          assert Precedes(output[i], output[|output| - 1]);
          PrecedesIrreflexive(last);
        }
      }
      assert (set c | c in output) == (set c | c in init) + {last};
    }
  }

  lemma SubsetEqual(a: set<Candidate>, b: set<Candidate>)
    requires a <= b && |a| == |b|
    ensures a == b
  {
    assert |b - a| == |b| - |a|;
  }

  lemma FollowedAt(responses: seq<Response>, run: Run, k: nat, cursor: string)
    requires CursorsFollowed(responses, run) && Returned(responses, k, cursor)
    ensures k < |run.followed| ==> run.followed[k] == cursor
  {
    hide Distinct;
  }

  lemma TwoTaken(c: Candidate, d: Candidate) returns (one: Intake, two: Intake)
    requires c.marketId != d.marketId && c.content != d.content
    ensures AbsorbAll(NOTHING_TAKEN, [c]) == Ok(one) && AbsorbAll(one, [d]) == Ok(two)
    ensures |one.kept| == 1 && |two.kept| == 2
  {
    one := Absorb(NOTHING_TAKEN, c).value;
    two := Absorb(one, d).value;
    AbsorbNext(NOTHING_TAKEN, [], c);
    AbsorbNext(one, [], d);
    assert [] + [c] == [c] && [] + [d] == [d];
    assert AbsorbAll(NOTHING_TAKEN, []) == Ok(NOTHING_TAKEN) && AbsorbAll(one, []) == Ok(one);
    assert one.kept.Keys == {c.marketId} && two.kept.Keys == {c.marketId, d.marketId};
    hide AbsorbAll;
  }

  lemma NextPageTakes(q: Request, run: Run, response: Response, intake: Intake)
    requires run.stop.None? && response.Page? && AbsorbAll(run.intake, response.candidates) == Ok(intake)
    ensures var turn := Turn(q, run.followed, run.pages + 1, |intake.kept|, response.returnedCursor);
      var next := NextPage(q, run, response);
      if turn.ValueError? then next.ValueError?
      else next == Ok(Run(intake, run.received + |response.candidates|, run.pages + 1, turn.value.0, turn.value.1))
  {
    hide AbsorbAll, Turn;
  }

  // ---------------------------------------------------------------- which pages are asked for

  /** Page j has a cursor, and leaves fewer contents than the limit. */
  ghost predicate GoesOn(q: Request, responses: seq<Response>, j: nat) {
    && j < |responses|
    && responses[j].Page? && responses[j].returnedCursor.Some?
    && |Contents(Received(responses, j + 1))| < q.maxCandidates
  }

  /** The loop asks for page k (counting from 0): every earlier page goes on, and the page limit allows it. */
  ghost predicate AsksFor(q: Request, responses: seq<Response>, k: nat) {
    k < q.maxPages && k < |responses| && forall j: nat :: j < k ==> GoesOn(q, responses, j)
  }

  lemma AsksForNext(q: Request, responses: seq<Response>, k: nat)
    requires k + 1 < q.maxPages && k + 1 < |responses|
    ensures AsksFor(q, responses, k + 1) <==> AsksFor(q, responses, k) && GoesOn(q, responses, k)
  {
    hide GoesOn;
  }

  lemma KeptIsContents(q: Request, responses: seq<Response>, n: nat)
    requires ValidRequest(q) && n <= |responses| && n <= q.maxPages && Pages(q, responses, n).Ok?
    ensures var run := Pages(q, responses, n).value;
      run.pages <= |responses| && |run.intake.kept| == |Contents(Received(responses, run.pages))|
  {
    PagesPaged(q, responses, n);
    hide Pages, CursorsFollowed, StopExplained, Filed, DistinctContent, FingerprintsKept, Contents, Received;
  }

  /** A run that has not failed is still going at page k exactly when it asks for page k. */
  lemma {:induction false} GoingIffAsked(q: Request, responses: seq<Response>, k: nat)
    requires ValidRequest(q) && k < |responses| && k < q.maxPages && Pages(q, responses, k).Ok?
    ensures Pages(q, responses, k).value.stop.None? <==> AsksFor(q, responses, k)
  {
    if k > 0 {
      GoingIffAsked(q, responses, k - 1);
      PagesPaged(q, responses, k - 1);
      AsksForNext(q, responses, k - 1);
      KeptIsContents(q, responses, k);
      var before, response := Pages(q, responses, k - 1).value, responses[k - 1];
      hide AsksFor, Paged, AbsorbAll, Contents, Received;
      if before.stop.None? {
        hide NextPage;
        NextPageParts(q, before, response);
      }
    }
  }

  /** The intake after some pages is what absorbing everything received gives. */
  lemma {:induction false} IntakeOfReceived(q: Request, responses: seq<Response>, n: nat)
    requires n <= |responses| && Pages(q, responses, n).Ok?
    ensures var run := Pages(q, responses, n).value;
      && run.pages <= n && (run.stop.None? ==> run.pages == n)
      && AbsorbAll(NOTHING_TAKEN, Received(responses, run.pages)) == Ok(run.intake)
  {
    if n > 0 {
      IntakeOfReceived(q, responses, n - 1);
      var before := Pages(q, responses, n - 1).value;
      hide AbsorbAll, Turn, NextPage;
      if before.stop.None? {
        NextPageParts(q, before, responses[n - 1]);
        ReceivedNext(responses, n - 1);
        AbsorbConcat(NOTHING_TAKEN, Received(responses, n - 1), responses[n - 1].candidates);
      } else {
        StoppedStays(q, before, responses[n - 1]);
      }
    }
  }

  lemma FollowedIsReturned(q: Request, responses: seq<Response>, k: nat, cursor: string)
    requires ValidRequest(q) && k <= |responses| && k <= q.maxPages
    requires Pages(q, responses, k).Ok? && Pages(q, responses, k).value.stop.None?
    ensures cursor in Pages(q, responses, k).value.followed <==>
      exists j: nat :: j < k && Returned(responses, j, cursor)
  {
    PagesPaged(q, responses, k);
    var run := Pages(q, responses, k).value;
    hide Pages, PagesTaken, StopExplained, Distinct;
    if cursor in run.followed {
      var j: nat :| j < |run.followed| && run.followed[j] == cursor;
      assert Returned(responses, j, run.followed[j]);
    }
    if exists j: nat :: j < k && Returned(responses, j, cursor) {
      var j: nat :| j < k && Returned(responses, j, cursor);
      FollowedAt(responses, run, j, cursor);
    }
  }

  /** Page k returned a cursor that an earlier page had returned. */
  ghost predicate RepeatsAt(responses: seq<Response>, k: nat) {
    exists j: nat, cursor :: j < k && Returned(responses, j, cursor) && Returned(responses, k, cursor)
  }

  // ---------------------------------------------------------------- what failure means

  /** The loop asks for page k and cannot go on from it; said of the answers alone. */
  ghost predicate FailsAt(q: Request, responses: seq<Response>, k: nat) {
    && AsksFor(q, responses, k)
    && (|| responses[k].Broken?
        || Conflicts(Received(responses, k + 1))
        || (|Contents(Received(responses, k + 1))| < q.maxCandidates && RepeatsAt(responses, k)))
  }

  lemma FollowedIffRepeats(q: Request, responses: seq<Response>, k: nat)
    requires ValidRequest(q) && k < |responses| && k <= q.maxPages
    requires Pages(q, responses, k).Ok? && Pages(q, responses, k).value.stop.None? && responses[k].Page?
    ensures RepeatsAt(responses, k) <==>
      responses[k].returnedCursor.Some? && responses[k].returnedCursor.value in Pages(q, responses, k).value.followed
  {
    hide Pages;
    if responses[k].returnedCursor.Some? {
      FollowedIsReturned(q, responses, k, responses[k].returnedCursor.value);
    }
  }

  /** One page fails for one of three reasons: a broken answer, a conflict, or a cursor already returned. */
  lemma PageFailsIff(q: Request, responses: seq<Response>, k: nat)
    requires ValidRequest(q) && k < |responses| && k < q.maxPages
    requires Pages(q, responses, k).Ok? && Pages(q, responses, k).value.stop.None?
    ensures NextPage(q, Pages(q, responses, k).value, responses[k]).ValueError? <==> FailsAt(q, responses, k)
  {
    var run, response := Pages(q, responses, k).value, responses[k];
    GoingIffAsked(q, responses, k);
    IntakeOfReceived(q, responses, k);
    AbsorbFailsIffConflict(Received(responses, k + 1));
    if response.Page? {
      ReceivedNext(responses, k);
      AbsorbConcat(NOTHING_TAKEN, Received(responses, k), response.candidates);
      FollowedIffRepeats(q, responses, k);
      if AbsorbAll(NOTHING_TAKEN, Received(responses, k + 1)).Ok? {
        KeptCount(Received(responses, k + 1));
      }
    }
    hide Pages, AbsorbAll, Conflicts, Received, Contents, AsksFor, RepeatsAt;
  }

  ghost predicate SomeFails(q: Request, responses: seq<Response>, n: nat) {
    exists k: nat :: k < n && FailsAt(q, responses, k)
  }

  lemma SomeFailsNext(q: Request, responses: seq<Response>, n: nat)
    ensures SomeFails(q, responses, n + 1) <==> SomeFails(q, responses, n) || FailsAt(q, responses, n)
  {
    hide FailsAt;
    if SomeFails(q, responses, n) {
      var k: nat :| k < n && FailsAt(q, responses, k);
      assert k < n + 1;
    }
  }

  lemma NoneFails(q: Request, responses: seq<Response>)
    ensures !SomeFails(q, responses, 0)
  {
  }

  lemma FailsOnlyWhenAsked(q: Request, responses: seq<Response>, k: nat)
    requires FailsAt(q, responses, k)
    ensures AsksFor(q, responses, k)
  {
    hide AsksFor, Conflicts, Contents, Received, RepeatsAt;
  }

  /**
   * The page loop fails exactly when it asks for a page that is broken, that brings two differing
   * markets of one ID the earlier of which was the first with its content, or that returns a cursor
   * an earlier page returned while fewer contents than the limit have been received.
   */
  lemma {:induction false} PagesFailIff(q: Request, responses: seq<Response>, n: nat)
    requires ValidRequest(q) && n <= |responses| && n <= q.maxPages
    ensures Pages(q, responses, n).ValueError? <==> SomeFails(q, responses, n)
  {
    hide FailsAt, NextPage, SomeFails, AsksFor;
    if n == 0 {
      NoneFails(q, responses);
    } else {
      PagesFailIff(q, responses, n - 1);
      SomeFailsNext(q, responses, n - 1);
      if Pages(q, responses, n - 1).Ok? {
        var before := Pages(q, responses, n - 1).value;
        StoppedStays(q, before, responses[n - 1]);
        GoingIffAsked(q, responses, n - 1);
        if before.stop.None? {
          PageFailsIff(q, responses, n - 1);
        } else if FailsAt(q, responses, n - 1) {
          FailsOnlyWhenAsked(q, responses, n - 1);
          assert false;
        }
      }
    }
  }

  // ---------------------------------------------------------------- when cursors repeat

  /** The pages of a successful run are exactly those asked for. */
  lemma PagesReadAreAskedFor(q: Request, responses: seq<Response>, k: nat)
    requires ValidRequest(q) && |responses| >= q.maxPages && Pages(q, responses, q.maxPages).Ok?
    ensures k < Pages(q, responses, q.maxPages).value.pages <==> AsksFor(q, responses, k)
  {
    hide AsksFor, Paged, NextPage;
    PagesPaged(q, responses, q.maxPages);
    if k < q.maxPages {
      StoppedPages(q, responses, k, q.maxPages);
      GoingIffAsked(q, responses, k);
      PagesPaged(q, responses, k);
      if Pages(q, responses, k).value.stop.None? {
        StoppedPages(q, responses, k + 1, q.maxPages);
        PageCountGrows(q, responses, k, q.maxPages);
      }
    } else {
      AskedWithinLimit(q, responses, k);
    }
  }

  lemma AskedWithinLimit(q: Request, responses: seq<Response>, k: nat)
    ensures k >= q.maxPages ==> !AsksFor(q, responses, k)
  {
  }

  lemma {:induction false} PageCountGrows(q: Request, responses: seq<Response>, k: nat, n: nat)
    requires k < n <= |responses| && Pages(q, responses, n).Ok?
    requires Pages(q, responses, k).Ok? && Pages(q, responses, k).value.stop.None?
    requires Pages(q, responses, k).value.pages == k
    ensures Pages(q, responses, n).value.pages > k
    decreases n
  {
    hide NextPage;
    var before := Pages(q, responses, n - 1).value;
    StoppedStays(q, before, responses[n - 1]);
    if k < n - 1 {
      PageCountGrows(q, responses, k, n - 1);
    }
  }

  /** Page k is asked for and brings the received contents to the limit. */
  ghost predicate FillsAt(q: Request, responses: seq<Response>, k: nat) {
    AsksFor(q, responses, k) && |Contents(Received(responses, k + 1))| >= q.maxCandidates
  }

  /** Some page read returned a cursor that an earlier page had returned. */
  ghost predicate RepeatsCursor(responses: seq<Response>, pages: nat) {
    exists k: nat :: k < pages && RepeatsAt(responses, k)
  }

  /**
   * Returned cursors are checked only when they are about to be followed. In a successful run they
   * repeat exactly when the page that brings the received contents to the limit returns a cursor an
   * earlier page returned.
   */
  lemma CursorsRepeatOnlyAtLimit(q: Request, responses: seq<Response>)
    requires ValidRequest(q) && |responses| >= q.maxPages && Pages(q, responses, q.maxPages).Ok?
    ensures RepeatsCursor(responses, Pages(q, responses, q.maxPages).value.pages) <==>
      exists k: nat :: FillsAt(q, responses, k) && RepeatsAt(responses, k)
  {
    var pages := Pages(q, responses, q.maxPages).value.pages;
    PagesPaged(q, responses, q.maxPages);
    PagesFailIff(q, responses, q.maxPages);
    hide Pages, Paged, AsksFor, RepeatsAt, Conflicts, Contents, Received;
    if RepeatsCursor(responses, pages) {
      var k: nat :| k < pages && RepeatsAt(responses, k);
      PagesReadAreAskedFor(q, responses, k);
      assert k < q.maxPages;
      assert !FailsAt(q, responses, k);
      assert FillsAt(q, responses, k);
    }
    if exists k: nat :: FillsAt(q, responses, k) && RepeatsAt(responses, k) {
      var k: nat :| FillsAt(q, responses, k) && RepeatsAt(responses, k);
      PagesReadAreAskedFor(q, responses, k);
    }
  }

  /** Followed cursors never repeat. */
  lemma FollowedCursorsDistinct(q: Request, responses: seq<Response>)
    requires ValidRequest(q) && |responses| >= q.maxPages && Pages(q, responses, q.maxPages).Ok?
    ensures Distinct(Pages(q, responses, q.maxPages).value.followed)
  {
    PagesPaged(q, responses, q.maxPages);
    hide Pages, PagesTaken, StopExplained, Distinct;
  }

  /** Such a run exists: two one-market pages with the same cursor and a limit of two. */
  lemma CursorCanRepeat(c: Candidate, d: Candidate, cursor: string)
    requires c.marketId != d.marketId && c.content != d.content
    ensures var q := Request(2, 2);
      var responses := [Page([c], Some(cursor)), Page([d], Some(cursor))];
      Pages(q, responses, 2).Ok? && RepeatsCursor(responses, Pages(q, responses, 2).value.pages)
  {
    var q := Request(2, 2);
    var responses := [Page([c], Some(cursor)), Page([d], Some(cursor))];
    var one, two := TwoTaken(c, d);
    hide AbsorbAll;
    assert [] + [cursor] == [cursor];
    var first, second := Run(one, 1, 1, [cursor], None), Run(two, 2, 2, [cursor], Some(CandidateLimit));
    hide NextPage;
    NextPageTakes(q, NOT_STARTED, responses[0], one);
    NextPageTakes(q, first, responses[1], two);
    assert Pages(q, responses, 1) == Ok(first);
    assert Returned(responses, 0, cursor) && Returned(responses, 1, cursor);
    assert RepeatsAt(responses, 1);
  }
}
