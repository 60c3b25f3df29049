/** Budgeted artifact import: every session stays within budget and charges an artifact once. */
module ImporterHistory {
  import opened Numbers

  /** An artifact's hash stands for its content; `admissible` is every check on the artifact itself. */
  datatype Envelope = Envelope(
    artifactId: int,
    artifactHash: string,
    declaredCost: real,
    ruleCost: Option<real>,
    admissible: bool)

  datatype Disposition = Accepted | DuplicateExact

  datatype ImportResult = ImportResult(
    artifactId: int,
    disposition: Disposition,
    artifactHash: string,
    chargedCost: real,
    cumulativeCost: real,
    remainingBudget: real)

  datatype Refusal =
    | CostInconsistent
    | SpendNegative
    | NotAdmissible
    | ConflictingArtifact
    | EquityNegative
    | BudgetExceeded

  datatype Import = Imported(result: ImportResult) | Refused(refusal: Refusal)

  predicate CostConsistent(e: Envelope) {
    e.declaredCost >= 0.0 && (e.ruleCost.Some? ==> e.ruleCost.value == e.declaredCost)
  }

  /** Twenty-five dollars, or less for an account small enough. */
  function MonthlyBudget(equity: real): (budget: real)
    requires equity >= 0.0
    ensures 0.0 <= budget <= 25.0 && budget <= equity * 0.003125
    ensures budget == 25.0 || budget == equity * 0.003125
  {
    Min(25.0, equity * 0.003125)
  }

  function ResultOf(e: Envelope, disposition: Disposition, charged: real, spent: real, budget: real): ImportResult {
    ImportResult(e.artifactId, disposition, e.artifactHash, charged, spent + charged, budget - (spent + charged))
  }

  /** What the registry holds, and the hashes one importer has accepted. */
  datatype Books = Books(recorded: map<int, string>, accepted: map<int, string>)

  /** An importer only remembers artifacts the registry holds. */
  ghost predicate Agree(b: Books) {
    forall id :: id in b.accepted ==> id in b.recorded && b.recorded[id] == b.accepted[id]
  }

  /** One import: its outcome and what it leaves in the books. */
  function ImportOne(b: Books, e: Envelope, equity: real, spent: real): (Books, Import) {
    if !CostConsistent(e) then (b, Refused(CostInconsistent))
    else if spent < 0.0 then (b, Refused(SpendNegative))
    else if !e.admissible then (b, Refused(NotAdmissible))
    else if e.artifactId in b.accepted && b.accepted[e.artifactId] != e.artifactHash then
      (b, Refused(ConflictingArtifact))
    else if equity < 0.0 then (b, Refused(EquityNegative))
    else if e.artifactId in b.accepted then
      (b, Imported(ResultOf(e, DuplicateExact, 0.0, spent, MonthlyBudget(equity))))
    else if spent + e.declaredCost > MonthlyBudget(equity) then (b, Refused(BudgetExceeded))
    else if e.artifactId in b.recorded && b.recorded[e.artifactId] != e.artifactHash then
      (b, Refused(ConflictingArtifact))
    else
      var remembered := b.accepted[e.artifactId := e.artifactHash];
      if e.artifactId in b.recorded then
        (b.(accepted := remembered), Imported(ResultOf(e, DuplicateExact, 0.0, spent, MonthlyBudget(equity))))
      else
        (Books(b.recorded[e.artifactId := e.artifactHash], remembered),
         Imported(ResultOf(e, Accepted, e.declaredCost, spent, MonthlyBudget(equity))))
  }

  // ---------------------------------------------------------------- the importer

  /** The registry's append: true the first time, false on an exact repeat, and an error on a conflict. */
  class Registry {
    var recorded: map<int, string>

    constructor ()
      ensures recorded == map[]
    {
      recorded := map[];
    }

    method RecordArtifact(id: int, hash: string) returns (appended: Outcome<bool>)
      modifies this
      ensures appended
        == (if id !in old(recorded) then Ok(true) else if old(recorded)[id] == hash then Ok(false) else ValueError)
      ensures recorded == if appended == Ok(true) then old(recorded)[id := hash] else old(recorded)
    {
      if id !in recorded {
        recorded := recorded[id := hash];
        return Ok(true);
      }
      appended := if recorded[id] == hash then Ok(false) else ValueError;
    }
  }

  class Importer {
    const registry: Registry
    var acceptedHashes: map<int, string>

    function View(): Books
      reads this, registry
    {
      Books(registry.recorded, acceptedHashes)
    }

    constructor (registry: Registry)
      ensures this.registry == registry && acceptedHashes == map[]
    {
      this.registry := registry;
      acceptedHashes := map[];
    }

    method ImportJson(e: Envelope, equity: real, spent: real) returns (r: Import)
      modifies this, registry
      ensures (View(), r) == ImportOne(old(View()), e, equity, spent)
    {
      if !CostConsistent(e) {
        return Refused(CostInconsistent);
      }
      if spent < 0.0 {
        return Refused(SpendNegative);
      }
      if !e.admissible {
        return Refused(NotAdmissible);
      }
      if e.artifactId in acceptedHashes {
        if acceptedHashes[e.artifactId] != e.artifactHash {
          return Refused(ConflictingArtifact);
        }
        if equity < 0.0 {
          return Refused(EquityNegative);
        }
        return Imported(ResultOf(e, DuplicateExact, 0.0, spent, MonthlyBudget(equity)));
      }
      if equity < 0.0 {
        return Refused(EquityNegative);
      }
      var budget := MonthlyBudget(equity);
      if spent + e.declaredCost > budget {
        return Refused(BudgetExceeded);
      }
      var appended := registry.RecordArtifact(e.artifactId, e.artifactHash);
      if appended.ValueError? {
        return Refused(ConflictingArtifact);
      }
      acceptedHashes := acceptedHashes[e.artifactId := e.artifactHash];
      if !appended.value {
        return Imported(ResultOf(e, DuplicateExact, 0.0, spent, budget));
      }
      r := Imported(ResultOf(e, Accepted, e.declaredCost, spent, budget));
    }
  }

  // ---------------------------------------------------------------- one session

  /** A session's books, its running spend, and the results until a refusal ended it. */
  datatype Session = Session(books: Books, spent: real, results: seq<ImportResult>, refused: Option<Refusal>)

  function SessionStep(s: Session, e: Envelope, equity: real): Session {
    if s.refused.Some? then s
    else
      var (books, outcome) := ImportOne(s.books, e, equity, s.spent);
      match outcome
      case Refused(refusal) => s.(books := books, refused := Some(refusal))
      case Imported(result) => Session(books, result.cumulativeCost, s.results + [result], None)
  }

  function SessionOver(start: Session, lines: seq<Envelope>, equity: real): Session {
    if lines == [] then start
    else SessionStep(SessionOver(start, lines[..|lines| - 1], equity), lines[|lines| - 1], equity)
  }

  function OpenSession(recorded: map<int, string>, spent: real): Session {
    Session(Books(recorded, map[]), spent, [], None)
  }

  lemma {:induction false} SessionSticks(start: Session, lines: seq<Envelope>, n: nat, equity: real)
    requires n <= |lines| && SessionOver(start, lines[..n], equity).refused.Some?
    ensures SessionOver(start, lines, equity) == SessionOver(start, lines[..n], equity)
    decreases |lines|
  {
    hide ImportOne;
    if n == |lines| {
      assert lines[..n] == lines;
    } else {
      assert lines[..|lines| - 1][..n] == lines[..n];
      SessionSticks(start, lines[..|lines| - 1], n, equity);
    }
  }

  /** The command's loop: each result's cumulative cost is the next line's spend. */
  method ImportAll(importer: Importer, lines: seq<Envelope>, equity: real, spent: real) returns (session: Session)
    requires importer.acceptedHashes == map[]
    modifies importer, importer.registry
    ensures session == SessionOver(OpenSession(old(importer.registry.recorded), spent), lines, equity)
    ensures importer.View() == session.books
  {
    hide ImportOne;
    ghost var start := OpenSession(importer.registry.recorded, spent);
    var cumulative := spent;
    var results: seq<ImportResult> := [];
    for n := 0 to |lines|
      invariant SessionOver(start, lines[..n], equity) == Session(importer.View(), cumulative, results, None)
    {
      assert lines[..n + 1][..n] == lines[..n];
      var outcome := importer.ImportJson(lines[n], equity, cumulative);
      if outcome.Refused? {
        session := Session(importer.View(), cumulative, results, Some(outcome.refusal));
        SessionSticks(start, lines, n + 1, equity);
        return;
      }
      results := results + [outcome.result];
      cumulative := outcome.result.cumulativeCost;
    }
    assert lines[..|lines|] == lines;
    session := Session(importer.View(), cumulative, results, None);
  }

  // ---------------------------------------------------------------- what every session keeps

  function Charges(results: seq<ImportResult>): (r: seq<real>)
    ensures |r| == |results|
  {
    seq(|results|, i requires 0 <= i < |results| => results[i].chargedCost)
  }

  /** An artifact is charged where it is accepted. */
  ghost predicate ChargedAt(results: seq<ImportResult>, i: int, id: int) {
    0 <= i < |results| && results[i].artifactId == id && results[i].disposition == Accepted
  }

  /** The most a session can have spent: what it started with, or the budget. */
  function SpendCeiling(spent: real, equity: real): real {
    if equity >= 0.0 then Max(spent, MonthlyBudget(equity)) else spent
  }

  /** Every result is consistent with its neighbours, and new charges are for new artifacts. */
  ghost predicate Accounted(start: Session, s: Session, equity: real) {
    && Agree(s.books)
    && start.spent <= s.spent <= SpendCeiling(start.spent, equity)
    && s.spent == start.spent + Sum(Charges(s.results))
    && (forall i :: 0 <= i < |s.results| ==>
          && s.results[i].chargedCost >= 0.0
          && (s.results[i].disposition == DuplicateExact ==> s.results[i].chargedCost == 0.0)
          && s.results[i].cumulativeCost <= SpendCeiling(start.spent, equity))
    && (forall i, id :: ChargedAt(s.results, i, id) ==> id in s.books.recorded && id !in start.books.recorded)
    && (forall i, j, id :: ChargedAt(s.results, i, id) && ChargedAt(s.results, j, id) ==> i == j)
    && (forall id :: id in start.books.recorded ==>
         id in s.books.recorded && s.books.recorded[id] == start.books.recorded[id])
  }

  lemma ChargesAppend(results: seq<ImportResult>, r: ImportResult)
    ensures Sum(Charges(results + [r])) == Sum(Charges(results)) + r.chargedCost
  {
    SumConcat(Charges(results), [r.chargedCost]);
    assert Charges(results + [r]) == Charges(results) + [r.chargedCost];
    assert SumRange([r.chargedCost], 0, 0) == 0.0;
  }

  lemma ChargedAppend(results: seq<ImportResult>, r: ImportResult, i: int, id: int)
    ensures ChargedAt(results + [r], i, id) <==>
      ChargedAt(results, i, id) || (i == |results| && r.artifactId == id && r.disposition == Accepted)
  {
  }

  /** One import, as the accounting sees it. */
  lemma ImportEffect(b: Books, e: Envelope, equity: real, spent: real)
    requires Agree(b)
    ensures var (b', r) := ImportOne(b, e, equity, spent);
      && Agree(b')
      && (r.Refused? ==> b' == b)
      && (r.Imported? ==> equity >= 0.0 && r.result.artifactId == e.artifactId && r.result.chargedCost >= 0.0)
      && (r.Imported? ==> r.result.cumulativeCost == spent + r.result.chargedCost)
      && (r.Imported? && r.result.disposition == DuplicateExact ==>
           r.result.chargedCost == 0.0 && b'.recorded == b.recorded)
      && (r.Imported? && r.result.disposition == Accepted ==>
            && e.artifactId !in b.recorded && b'.recorded == b.recorded[e.artifactId := e.artifactHash]
            && r.result.cumulativeCost <= MonthlyBudget(equity))
  {
  }

  lemma StepAccounted(start: Session, s: Session, e: Envelope, equity: real)
    requires Accounted(start, s, equity)
    ensures Accounted(start, SessionStep(s, e, equity), equity)
  {
    if s.refused.None? {
      ImportEffect(s.books, e, equity, s.spent);
      var (books, outcome) := ImportOne(s.books, e, equity, s.spent);
      hide ImportOne, Agree, MonthlyBudget, Charges, Sum, ChargedAt;
      if outcome.Imported? {
        var r := outcome.result;
        var results := s.results + [r];
        ChargesAppend(s.results, r);
        forall i, id ensures ChargedAt(results, i, id) <==>
          ChargedAt(s.results, i, id) || (i == |s.results| && r.artifactId == id && r.disposition == Accepted)
        {
          ChargedAppend(s.results, r, i, id);
        }
      }
    }
  }

  lemma {:induction false} SessionAccounted(start: Session, lines: seq<Envelope>, equity: real)
    requires Agree(start.books) && start.results == []
    ensures Accounted(start, SessionOver(start, lines, equity), equity)
  {
    if lines == [] {
      assert Charges([]) == [];
    } else {
      SessionAccounted(start, lines[..|lines| - 1], equity);
      hide Accounted, SessionStep;
      StepAccounted(start, SessionOver(start, lines[..|lines| - 1], equity), lines[|lines| - 1], equity);
    }
  }

  /** A run that starts within budget stays within it, and what it adds to the spend is what it charged. */
  lemma SessionWithinBudget(recorded: map<int, string>, lines: seq<Envelope>, equity: real, spent: real)
    requires equity >= 0.0 && spent <= MonthlyBudget(equity)
    ensures var s := SessionOver(OpenSession(recorded, spent), lines, equity);
      && spent <= s.spent <= MonthlyBudget(equity)
      && s.spent - spent == Sum(Charges(s.results))
      && forall i :: 0 <= i < |s.results| ==> s.results[i].cumulativeCost <= MonthlyBudget(equity)
  {
    SessionAccounted(OpenSession(recorded, spent), lines, equity);
    hide SessionOver, MonthlyBudget, ChargedAt;
  }

  // ---------------------------------------------------------------- sessions sharing a registry

  datatype Invocation = Invocation(lines: seq<Envelope>, equity: real, spent: real)

  /** The sessions of successive commands over one registry. */
  function Sessions(recorded: map<int, string>, runs: seq<Invocation>): seq<Session> {
    if runs == [] then []
    else
      var earlier := Sessions(recorded, runs[..|runs| - 1]);
      var last := runs[|runs| - 1];
      earlier + [SessionOver(OpenSession(Final(recorded, earlier), last.spent), last.lines, last.equity)]
  }

  /** What the registry holds after these sessions. */
  function Final(recorded: map<int, string>, sessions: seq<Session>): map<int, string> {
    if sessions == [] then recorded else sessions[|sessions| - 1].books.recorded
  }

  /** Charges across sessions: session k charged artifact id at its line i. */
  ghost predicate ChargedIn(sessions: seq<Session>, k: int, i: int, id: int) {
    0 <= k < |sessions| && ChargedAt(sessions[k].results, i, id)
  }

  /** Everything charged is in the registry, was not there at the start, and was charged once. */
  ghost predicate ChargedOnce(recorded: map<int, string>, sessions: seq<Session>) {
    && (forall k, i, id :: ChargedIn(sessions, k, i, id) ==> id in Final(recorded, sessions) && id !in recorded)
    && (forall k, i, l, j, id :: ChargedIn(sessions, k, i, id) && ChargedIn(sessions, l, j, id) ==> k == l && i == j)
    && (forall id :: id in recorded ==>
         id in Final(recorded, sessions) && Final(recorded, sessions)[id] == recorded[id])
  }

  lemma SessionAppended(recorded: map<int, string>, sessions: seq<Session>, s: Session, equity: real, spent: real)
    requires ChargedOnce(recorded, sessions)
    requires Accounted(OpenSession(Final(recorded, sessions), spent), s, equity)
    ensures ChargedOnce(recorded, sessions + [s])
  {
    var sessions' := sessions + [s];
    hide Agree, Charges, Sum, SpendCeiling, ChargedAt;
    forall k, i, id
      ensures ChargedIn(sessions', k, i, id) <==>
        ChargedIn(sessions, k, i, id) || (k == |sessions| && ChargedAt(s.results, i, id))
    {
    }
    hide ChargedIn;
  }

  /** However many sessions share a registry, no artifact is charged twice. */
  lemma {:induction false} ArtifactsChargedOnce(recorded: map<int, string>, runs: seq<Invocation>)
    ensures ChargedOnce(recorded, Sessions(recorded, runs))
  {
    if runs != [] {
      var earlier, last := Sessions(recorded, runs[..|runs| - 1]), runs[|runs| - 1];
      ArtifactsChargedOnce(recorded, runs[..|runs| - 1]);
      var start := OpenSession(Final(recorded, earlier), last.spent);
      SessionAccounted(start, last.lines, last.equity);
      hide ChargedOnce, Accounted, SessionOver, Final;
      SessionAppended(recorded, earlier, SessionOver(start, last.lines, last.equity), last.equity, last.spent);
    }
  }

  /**
   * Repeating an import is free only where the budget check lets it be: an artifact the registry
   * already holds unchanged comes back as an exact duplicate if and only if this importer has seen
   * it or its cost would still fit.
   */
  lemma RepeatAcceptedIffSeenOrAffordable(b: Books, e: Envelope, equity: real, spent: real)
    requires Agree(b) && CostConsistent(e) && e.admissible && spent >= 0.0 && equity >= 0.0
    requires e.artifactId in b.recorded && b.recorded[e.artifactId] == e.artifactHash
    ensures var r := ImportOne(b, e, equity, spent).1;
      && (r == Imported(ResultOf(e, DuplicateExact, 0.0, spent, MonthlyBudget(equity)))
          <==> e.artifactId in b.accepted || spent + e.declaredCost <= MonthlyBudget(equity))
      && (r.Imported? || r == Refused(BudgetExceeded))
  {
  }

  /** A fresh session at a spent-out budget refuses an artifact that was charged before. */
  lemma SpentOutRepeatRefused(e: Envelope, equity: real)
    requires CostConsistent(e) && e.admissible && e.declaredCost > 0.0 && equity >= 0.0
    ensures ImportOne(Books(map[e.artifactId := e.artifactHash], map[]), e, equity, MonthlyBudget(equity)).1
         == Refused(BudgetExceeded)
  {
    hide MonthlyBudget;
  }

  // ---------------------------------------------------------------- the budget that remains

  /** Either book holds a different artifact under this ID. */
  predicate Contradicted(b: Books, e: Envelope) {
    || (e.artifactId in b.accepted && b.accepted[e.artifactId] != e.artifactHash)
    || (e.artifactId in b.recorded && b.recorded[e.artifactId] != e.artifactHash)
  }

  ghost predicate Amiss(b: Books, e: Envelope, equity: real, spent: real, x: Refusal) {
    match x
    case CostInconsistent => e.declaredCost < 0.0 || (e.ruleCost.Some? && e.ruleCost.value != e.declaredCost)
    case SpendNegative => spent < 0.0
    case NotAdmissible => !e.admissible
    case ConflictingArtifact => Contradicted(b, e)
    case EquityNegative => equity < 0.0
    case BudgetExceeded =>
      equity >= 0.0 && e.artifactId !in b.accepted && spent + e.declaredCost > MonthlyBudget(equity)
  }

  /**
   * An import succeeds exactly when its cost and the account are in order, no book contradicts it, and it was seen
   * by this importer or still fits; a first import is charged its declared cost, and a repeat nothing. A refusal
   * names something that is amiss.
   */
  lemma ImportedIff(b: Books, e: Envelope, equity: real, spent: real)
    requires Agree(b)
    ensures var r := ImportOne(b, e, equity, spent).1;
      && (r.Imported? <==>
            && e.declaredCost >= 0.0 && (e.ruleCost == None || e.ruleCost == Some(e.declaredCost)) && e.admissible
            && spent >= 0.0 && equity >= 0.0 && !Contradicted(b, e)
            && (e.artifactId in b.accepted || spent + e.declaredCost <= MonthlyBudget(equity)))
      && (r.Imported? ==>
            && (r.result.disposition == Accepted <==> e.artifactId !in b.recorded)
            && r.result.chargedCost == (if e.artifactId in b.recorded then 0.0 else e.declaredCost)
            && r.result.artifactId == e.artifactId && r.result.artifactHash == e.artifactHash)
      && (r.Refused? ==> Amiss(b, e, equity, spent, r.refusal))
  {
    hide MonthlyBudget;
  }

  /** Every result reports what its spend leaves of the budget, and that is never more than the one before it left. */
  ghost predicate BudgetReported(s: Session, equity: real) {
    && (s.results != [] ==> equity >= 0.0 && s.spent == s.results[|s.results| - 1].cumulativeCost)
    && (equity >= 0.0 ==> forall i :: 0 <= i < |s.results| ==>
          s.results[i].remainingBudget + s.results[i].cumulativeCost == MonthlyBudget(equity))
    && (forall i :: 0 < i < |s.results| ==>
          && s.results[i].cumulativeCost == s.results[i - 1].cumulativeCost + s.results[i].chargedCost
          && s.results[i].remainingBudget <= s.results[i - 1].remainingBudget)
  }

  lemma ImportReports(b: Books, e: Envelope, equity: real, spent: real)
    ensures var r := ImportOne(b, e, equity, spent).1;
      r.Imported? ==>
        && equity >= 0.0 && r.result.chargedCost >= 0.0
        && r.result.cumulativeCost == spent + r.result.chargedCost
        && r.result.remainingBudget + r.result.cumulativeCost == MonthlyBudget(equity)
  {
    hide MonthlyBudget;
  }

  /** Along a session the reported budget runs down by exactly what is charged. */
  lemma {:induction false} RemainingBudgetRunsDown(recorded: map<int, string>, lines: seq<Envelope>, equity: real,
                                                   spent: real)
    ensures BudgetReported(SessionOver(OpenSession(recorded, spent), lines, equity), equity)
  {
    if lines != [] {
      var init, last := lines[..|lines| - 1], lines[|lines| - 1];
      RemainingBudgetRunsDown(recorded, init, equity, spent);
      var s := SessionOver(OpenSession(recorded, spent), init, equity);
      ImportReports(s.books, last, equity, s.spent);
      hide ImportOne, MonthlyBudget;
    }
  }

  /** A session that starts within budget never reports a negative remainder. */
  lemma RemainderNeverNegative(recorded: map<int, string>, lines: seq<Envelope>, equity: real, spent: real, i: nat)
    requires equity >= 0.0 && spent <= MonthlyBudget(equity)
    requires i < |SessionOver(OpenSession(recorded, spent), lines, equity).results|
    ensures var r := SessionOver(OpenSession(recorded, spent), lines, equity).results[i];
      0.0 <= r.remainingBudget == MonthlyBudget(equity) - r.cumulativeCost
  {
    RemainingBudgetRunsDown(recorded, lines, equity, spent);
    SessionWithinBudget(recorded, lines, equity, spent);
    hide SessionOver, MonthlyBudget;
  }
}
