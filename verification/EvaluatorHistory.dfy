/** Guarded evaluation runs: every attempt is recorded, and the test split is touched once. */
module EvaluatorHistory {
  import opened Numbers

  datatype Split = Train | Validation | Test

  datatype Experiment = Experiment(familyId: string, codeRevision: string, dataCutoff: int)

  datatype Card = Card(featureVersion: string, promptVersion: Option<string>, validated: bool,
    validationDataset: Option<string>)

  datatype ModelKey = ModelKey(modelId: string, version: string)

  datatype ModelReference = ModelReference(key: ModelKey, featureVersion: string, promptVersion: Option<string>)

  datatype Families<T> = Families(train: T, validation: T, test: T)

  /** A corpus manifest; the hash of a split's families stands for the set it hashes. */
  datatype Manifest = Manifest(
    frozen: bool,
    informationCutoff: int,
    contracts: Option<int>,
    familySets: Families<set<string>>,
    datasetId: string)

  datatype Request = Request(
    requestHash: string,
    experimentId: int,
    familyId: string,
    split: Split,
    codeRevision: string,
    manifest: Manifest,
    families: Families<seq<string>>,
    counts: Families<int>,
    models: seq<ModelReference>,
    measurable: bool)

  datatype Refusal =
    | ExperimentNotRegistered
    | FamilyNotRegistered
    | CodeRevisionChanged
    | ManifestNotFrozen
    | CutoffExceeded
    | TrainTestOverlap
    | CountsMismatch
    | FamiliesMismatch
    | TrainMustRunFirst
    | ValidationMustRunFirst
    | TestAlreadyEvaluated
    | ModelNotRegistered
    | FeatureVersionChanged
    | PromptVersionChanged
    | ValidatedOnTest
    | MetricsFailed

  datatype Attempt = Attempt(
    sequence: int,
    requestHash: string,
    experimentId: int,
    familyId: string,
    split: Split,
    accepted: bool,
    refusal: Option<Refusal>)

  /** What the evaluator was registered with. */
  datatype Registered = Registered(experiments: map<int, Experiment>, cards: map<ModelKey, Card>)

  // ---------------------------------------------------------------- one request

  function Members(s: seq<string>): set<string> {
    set x | x in s
  }

  predicate Unique(s: seq<string>) {
    |Members(s)| == |s|
  }

  predicate FamiliesMatch(families: seq<string>, frozen: set<string>) {
    Unique(families) && Members(families) == frozen
  }

  /** The checks before the split order. */
  function IdentityRefusal(env: Registered, r: Request): Option<Refusal> {
    if r.experimentId !in env.experiments then Some(ExperimentNotRegistered)
    else
      var e := env.experiments[r.experimentId];
      if e.familyId != r.familyId then Some(FamilyNotRegistered)
      else if e.codeRevision != r.codeRevision then Some(CodeRevisionChanged)
      else if !r.manifest.frozen then Some(ManifestNotFrozen)
      else if r.manifest.informationCutoff > e.dataCutoff then Some(CutoffExceeded)
      else if Members(r.families.train) * Members(r.families.test) != {} then Some(TrainTestOverlap)
      else if Some(r.counts.train + r.counts.validation + r.counts.test) != r.manifest.contracts then
        Some(CountsMismatch)
      else if !FamiliesMatch(r.families.train, r.manifest.familySets.train)
              || !FamiliesMatch(r.families.validation, r.manifest.familySets.validation)
              || !FamiliesMatch(r.families.test, r.manifest.familySets.test) then Some(FamiliesMismatch)
      else None
  }

  /** The split order, against the splits completed for the experiment. */
  function OrderRefusal(completed: set<Split>, split: Split): Option<Refusal> {
    if split == Validation && Train !in completed then Some(TrainMustRunFirst)
    else if split == Test && Validation !in completed then Some(ValidationMustRunFirst)
    else if split == Test && Test in completed then Some(TestAlreadyEvaluated)
    else None
  }

  /** The card's validation claims rest on this very dataset. */
  predicate ValidatedOn(card: Card, datasetId: string) {
    card.validated && card.validationDataset == Some(datasetId)
  }

  function ModelRefusal(env: Registered, r: Request, m: ModelReference): Option<Refusal> {
    if m.key !in env.cards then Some(ModelNotRegistered)
    else
      var card := env.cards[m.key];
      if card.featureVersion != m.featureVersion then Some(FeatureVersionChanged)
      else if card.promptVersion != m.promptVersion then Some(PromptVersionChanged)
      else if r.split == Test && ValidatedOn(card, r.manifest.datasetId) then Some(ValidatedOnTest)
      else None
  }

  /** The first refusal among the model references. */
  function ModelsRefusal(env: Registered, r: Request, models: seq<ModelReference>): Option<Refusal> {
    if models == [] then None
    else
      var earlier := ModelsRefusal(env, r, models[..|models| - 1]);
      if earlier.Some? then earlier else ModelRefusal(env, r, models[|models| - 1])
  }

  /** The reason a request is refused, if it is, given the splits its experiment has completed. */
  function RefusalOf(env: Registered, completed: set<Split>, r: Request): Option<Refusal> {
    var identity := IdentityRefusal(env, r);
    if identity.Some? then identity
    else
      var order := OrderRefusal(completed, r.split);
      if order.Some? then order
      else
        var models := ModelsRefusal(env, r, r.models);
        if models.Some? then models else if r.measurable then None else Some(MetricsFailed)
  }

  // ---------------------------------------------------------------- the history of attempts

  /** The splits an experiment completed, read off the attempts alone. */
  function Completed(attempts: seq<Attempt>, experimentId: int): set<Split> {
    set a | a in attempts && a.accepted && a.experimentId == experimentId :: a.split
  }

  function NextAttempt(env: Registered, attempts: seq<Attempt>, r: Request): Attempt {
    var refusal := RefusalOf(env, Completed(attempts, r.experimentId), r);
    Attempt(|attempts| + 1, r.requestHash, r.experimentId, r.familyId, r.split, refusal.None?, refusal)
  }

  /** The attempts recorded by a sequence of runs on a fresh evaluator. */
  function History(env: Registered, requests: seq<Request>): seq<Attempt> {
    if requests == [] then []
    else
      var earlier := History(env, requests[..|requests| - 1]);
      earlier + [NextAttempt(env, earlier, requests[|requests| - 1])]
  }

  class Evaluator {
    const env: Registered
    var attempts: seq<Attempt>
    var completedSplits: map<int, set<Split>>

    /** The completed splits are those of the accepted attempts. */
    ghost predicate Valid()
      reads this
    {
      forall id :: CompletedOf(completedSplits, id) == Completed(attempts, id)
    }

    constructor (env: Registered)
      ensures Valid() && attempts == [] && this.env == env
    {
      this.env := env;
      attempts := [];
      completedSplits := map[];
    }

    /** Evaluates or refuses a request, and records the attempt either way. */
    method Run(r: Request) returns (refusal: Option<Refusal>)
      requires Valid()
      modifies this
      ensures Valid()
      ensures attempts == old(attempts) + [NextAttempt(env, old(attempts), r)]
      ensures refusal == NextAttempt(env, old(attempts), r).refusal
    {
      hide IdentityRefusal, OrderRefusal, ModelsRefusal;
      ghost var before := attempts;
      refusal := ValidateRequest(r);
      if refusal.None? && !r.measurable {
        refusal := Some(MetricsFailed);
      }
      var sequence := |attempts| + 1;
      var attempt := Attempt(sequence, r.requestHash, r.experimentId, r.familyId, r.split, refusal.None?, refusal);
      attempts := attempts + [attempt];
      CompletedNext(before, attempts[|attempts| - 1]);
      if refusal.None? {
        completedSplits := completedSplits[r.experimentId := CompletedOf(completedSplits, r.experimentId) + {r.split}];
      }
    }

    method ValidateRequest(r: Request) returns (refusal: Option<Refusal>)
      requires Valid()
      ensures RefusalOf(env, Completed(attempts, r.experimentId), r)
           == if refusal.None? && !r.measurable then Some(MetricsFailed) else refusal
    {
      hide IdentityRefusal, OrderRefusal, ModelRefusal;
      var identity := IdentityRefusal(env, r);
      if identity.Some? {
        return identity;
      }
      var order := OrderRefusal(CompletedOf(completedSplits, r.experimentId), r.split);
      if order.Some? {
        return order;
      }
      for n := 0 to |r.models|
        invariant ModelsRefusal(env, r, r.models[..n]) == None
      {
        assert r.models[..n + 1][..n] == r.models[..n];
        var refused := ModelRefusal(env, r, r.models[n]);
        if refused.Some? {
          RefusalSticks(env, r, r.models, n + 1);
          return refused;
        }
      }
      assert r.models[..|r.models|] == r.models;
      refusal := None;
    }
  }

  /** Python's completed.get(id, set()). */
  function CompletedOf(completed: map<int, set<Split>>, id: int): set<Split> {
    if id in completed then completed[id] else {}
  }

  lemma {:induction false} RefusalSticks(env: Registered, r: Request, models: seq<ModelReference>, n: nat)
    requires n <= |models| && ModelsRefusal(env, r, models[..n]).Some?
    ensures ModelsRefusal(env, r, models) == ModelsRefusal(env, r, models[..n])
    decreases |models|
  {
    hide ModelRefusal;
    if n == |models| {
      assert models[..n] == models;
    } else {
      assert models[..|models| - 1][..n] == models[..n];
      RefusalSticks(env, r, models[..|models| - 1], n);
    }
  }

  lemma CompletedNext(attempts: seq<Attempt>, a: Attempt)
    ensures forall id ::
      Completed(attempts + [a], id)
      == Completed(attempts, id) + (if a.accepted && a.experimentId == id then {a.split} else {})
  {
    forall id
      ensures Completed(attempts + [a], id)
           == Completed(attempts, id) + (if a.accepted && a.experimentId == id then {a.split} else {})
    {
      assert forall b :: b in attempts + [a] <==> b in attempts || b == a;
    }
  }

  // ---------------------------------------------------------------- what every history satisfies

  /** Attempt i was accepted for this experiment and split. */
  ghost predicate AcceptedAt(attempts: seq<Attempt>, i: int, experimentId: int, split: Split) {
    && 0 <= i < |attempts|
    && attempts[i].accepted && attempts[i].experimentId == experimentId && attempts[i].split == split
  }

  lemma CompletedMeaning(attempts: seq<Attempt>, experimentId: int, split: Split)
    ensures split in Completed(attempts, experimentId) <==> exists i :: AcceptedAt(attempts, i, experimentId, split)
  {
    if split in Completed(attempts, experimentId) {
      var a :| a in attempts && a.accepted && a.experimentId == experimentId && a.split == split;
      var i :| 0 <= i < |attempts| && attempts[i] == a;
      assert AcceptedAt(attempts, i, experimentId, split);
    }
    if exists i :: AcceptedAt(attempts, i, experimentId, split) {
      var i :| AcceptedAt(attempts, i, experimentId, split);
      assert attempts[i] in attempts;
    }
  }

  lemma {:induction false} HistoryLength(env: Registered, requests: seq<Request>)
    ensures |History(env, requests)| == |requests|
  {
    if requests != [] {
      HistoryLength(env, requests[..|requests| - 1]);
    }
  }

  /** The n-th attempt answers the n-th request against the attempts before it. */
  lemma {:induction false} HistoryAt(env: Registered, requests: seq<Request>, i: nat)
    requires i < |requests|
    ensures |History(env, requests)| == |requests|
    ensures History(env, requests)[..i] == History(env, requests[..i])
    ensures History(env, requests)[i] == NextAttempt(env, History(env, requests[..i]), requests[i])
    decreases |requests|
  {
    HistoryLength(env, requests);
    var init := requests[..|requests| - 1];
    HistoryLength(env, init);
    hide NextAttempt;
    if i < |init| {
      HistoryAt(env, init, i);
      assert init[..i] == requests[..i];
      assert History(env, requests)[..i] == History(env, init)[..i];
    } else {
      assert requests[..i] == init;
      assert History(env, requests)[..i] == History(env, init);
    }
  }

  /** Attempts are numbered 1 to n without a gap, one for each run. */
  lemma AttemptsNumbered(env: Registered, requests: seq<Request>)
    ensures |History(env, requests)| == |requests|
    ensures forall i :: 0 <= i < |requests| ==> History(env, requests)[i].sequence == i + 1
  {
    HistoryLength(env, requests);
    forall i: nat | i < |requests| ensures History(env, requests)[i].sequence == i + 1 {
      HistoryAt(env, requests, i);
      HistoryLength(env, requests[..i]);
    }
  }

  /** An accepted attempt met the split order when it was made. */
  lemma AcceptedInOrder(env: Registered, requests: seq<Request>, i: nat, experimentId: int, split: Split)
    requires AcceptedAt(History(env, requests), i, experimentId, split)
    ensures split == Validation ==> exists k :: k < i && AcceptedAt(History(env, requests), k, experimentId, Train)
    ensures split == Test ==> exists j :: j < i && AcceptedAt(History(env, requests), j, experimentId, Validation)
    ensures split == Test ==> forall j :: j < i ==> !AcceptedAt(History(env, requests), j, experimentId, Test)
  {
    var attempts := History(env, requests);
    HistoryLength(env, requests);
    HistoryAt(env, requests, i);
    var before := attempts[..i];
    assert OrderRefusal(Completed(before, experimentId), split).None?;
    hide History, RefusalOf, NextAttempt, Completed;
    forall j, s ensures AcceptedAt(before, j, experimentId, s) <==> j < i && AcceptedAt(attempts, j, experimentId, s) {
    }
    CompletedMeaning(before, experimentId, Train);
    CompletedMeaning(before, experimentId, Validation);
    CompletedMeaning(before, experimentId, Test);
  }

  /** In every run, an accepted test follows an accepted validation that follows an accepted train. */
  lemma TestFollowsValidationFollowsTrain(env: Registered, requests: seq<Request>, i: nat, experimentId: int)
    requires AcceptedAt(History(env, requests), i, experimentId, Test)
    ensures exists j, k ::
      && k < j < i
      && AcceptedAt(History(env, requests), j, experimentId, Validation)
      && AcceptedAt(History(env, requests), k, experimentId, Train)
  {
    hide History, AcceptedAt;
    AcceptedInOrder(env, requests, i, experimentId, Test);
    var j :| j < i && AcceptedAt(History(env, requests), j, experimentId, Validation);
    assert j >= 0 by {
      AcceptedInRange(History(env, requests), j, experimentId, Validation);
    }
    AcceptedInOrder(env, requests, j, experimentId, Validation);
    var k :| k < j && AcceptedAt(History(env, requests), k, experimentId, Train);
  }

  lemma AcceptedInRange(attempts: seq<Attempt>, i: int, experimentId: int, split: Split)
    requires AcceptedAt(attempts, i, experimentId, split)
    ensures 0 <= i < |attempts|
  {
  }

  /** No experiment has two accepted tests, however often it is asked for. */
  lemma TestTouchedOnce(env: Registered, requests: seq<Request>, i: int, j: int, experimentId: int)
    requires AcceptedAt(History(env, requests), i, experimentId, Test)
    requires AcceptedAt(History(env, requests), j, experimentId, Test)
    ensures i == j
  {
    AcceptedInRange(History(env, requests), i, experimentId, Test);
    AcceptedInRange(History(env, requests), j, experimentId, Test);
    hide History, AcceptedAt;
    AcceptedInOrder(env, requests, i, experimentId, Test);
    AcceptedInOrder(env, requests, j, experimentId, Test);
  }

  lemma {:induction false} ModelsAccepted(env: Registered, r: Request, models: seq<ModelReference>)
    requires ModelsRefusal(env, r, models).None?
    ensures forall m :: m in models ==> ModelRefusal(env, r, m).None?
  {
    hide ModelRefusal;
    if models != [] {
      ModelsAccepted(env, r, models[..|models| - 1]);
      assert models == models[..|models| - 1] + [models[|models| - 1]];
    }
  }

  /** An accepted test never uses a card validated on the dataset it tests, nor trains on its families. */
  lemma AcceptedTestIsUntouched(env: Registered, requests: seq<Request>, i: nat)
    requires i < |requests| && |History(env, requests)| == |requests|
    requires AcceptedAt(History(env, requests), i, requests[i].experimentId, Test) && requests[i].split == Test
    ensures Members(requests[i].families.train) * Members(requests[i].families.test) == {}
    ensures forall m :: m in requests[i].models ==>
      m.key in env.cards && !ValidatedOn(env.cards[m.key], requests[i].manifest.datasetId)
  {
    HistoryAt(env, requests, i);
    ModelsAccepted(env, requests[i], requests[i].models);
    hide History, ModelsRefusal, Completed;
  }

  // ---------------------------------------------------------------- what a refusal says

  ghost predicate Distinct(s: seq<string>) {
    forall i, j :: 0 <= i < j < |s| ==> s[i] != s[j]
  }

  lemma {:induction false} UniqueIffDistinct(s: seq<string>)
    ensures Unique(s) <==> Distinct(s)
    ensures |Members(s)| <= |s|
  {
    if s != [] {
      var init, last := s[..|s| - 1], s[|s| - 1];
      UniqueIffDistinct(init);
      assert s == init + [last];
      assert Members(s) == Members(init) + {last};
      if last in Members(init) {
        var i :| 0 <= i < |init| && init[i] == last;
        assert s[i] == s[|s| - 1];
        assert Members(s) == Members(init);
      } else {
        assert forall i :: 0 <= i < |init| ==> init[i] in Members(init);
      }
    }
  }

  /** The families are those frozen in the manifest, each listed once. */
  ghost predicate ListsFrozen(families: seq<string>, frozen: set<string>) {
    Distinct(families) && forall f :: f in families <==> f in frozen
  }

  ghost predicate SplitAccepted(attempts: seq<Attempt>, experimentId: int, split: Split) {
    exists i :: AcceptedAt(attempts, i, experimentId, split)
  }

  /** The request uses a model that is registered. */
  predicate Cites(env: Registered, r: Request, m: ModelReference) {
    m in r.models && m.key in env.cards
  }

  predicate ClaimsDataset(card: Card, datasetId: string) {
    card.validated && card.validationDataset.Some? && card.validationDataset.value == datasetId
  }

  /** What a request was refused for is the case, given the attempts before it. */
  ghost predicate Violated(env: Registered, before: seq<Attempt>, r: Request, x: Refusal) {
    match x
    case ExperimentNotRegistered => r.experimentId !in env.experiments
    case FamilyNotRegistered =>
      r.experimentId in env.experiments && env.experiments[r.experimentId].familyId != r.familyId
    case CodeRevisionChanged =>
      r.experimentId in env.experiments && env.experiments[r.experimentId].codeRevision != r.codeRevision
    case ManifestNotFrozen => !r.manifest.frozen
    case CutoffExceeded =>
      r.experimentId in env.experiments && env.experiments[r.experimentId].dataCutoff < r.manifest.informationCutoff
    case TrainTestOverlap => exists f :: f in r.families.train && f in r.families.test
    case CountsMismatch =>
      || r.manifest.contracts.None?
      || r.counts.train + r.counts.validation + r.counts.test != r.manifest.contracts.value
    case FamiliesMismatch =>
      || !ListsFrozen(r.families.train, r.manifest.familySets.train)
      || !ListsFrozen(r.families.validation, r.manifest.familySets.validation)
      || !ListsFrozen(r.families.test, r.manifest.familySets.test)
    case TrainMustRunFirst => r.split == Validation && !SplitAccepted(before, r.experimentId, Train)
    case ValidationMustRunFirst => r.split == Test && !SplitAccepted(before, r.experimentId, Validation)
    case TestAlreadyEvaluated => r.split == Test && SplitAccepted(before, r.experimentId, Test)
    case ModelNotRegistered => exists m :: m in r.models && m.key !in env.cards
    case FeatureVersionChanged =>
      exists m :: Cites(env, r, m) && env.cards[m.key].featureVersion != m.featureVersion
    case PromptVersionChanged =>
      exists m :: Cites(env, r, m) && env.cards[m.key].promptVersion != m.promptVersion
    case ValidatedOnTest =>
      r.split == Test && exists m :: Cites(env, r, m) && ClaimsDataset(env.cards[m.key], r.manifest.datasetId)
    case MetricsFailed => !r.measurable
  }

  /** The refusals of the identity checks, of the split order, and of the models. */
  predicate IdentityKind(x: Refusal) {
    || x.ExperimentNotRegistered? || x.FamilyNotRegistered? || x.CodeRevisionChanged? || x.ManifestNotFrozen?
    || x.CutoffExceeded? || x.TrainTestOverlap? || x.CountsMismatch? || x.FamiliesMismatch?
  }

  predicate OrderKind(x: Refusal) {
    x.TrainMustRunFirst? || x.ValidationMustRunFirst? || x.TestAlreadyEvaluated?
  }

  predicate ModelKind(x: Refusal) {
    x.ModelNotRegistered? || x.FeatureVersionChanged? || x.PromptVersionChanged? || x.ValidatedOnTest?
  }

  lemma FamiliesAre(families: seq<string>, frozen: set<string>)
    ensures FamiliesMatch(families, frozen) <==> ListsFrozen(families, frozen)
  {
    UniqueIffDistinct(families);
    hide Unique, Distinct;
    assert forall f :: f in families <==> f in Members(families);
  }

  lemma OverlapIs(a: seq<string>, b: seq<string>)
    ensures Members(a) * Members(b) != {} <==> exists f :: f in a && f in b
  {
    if Members(a) * Members(b) != {} {
      var f :| f in Members(a) * Members(b);
      assert f in a && f in b;
    }
    if exists f :: f in a && f in b {
      var f :| f in a && f in b;
      assert f in Members(a) * Members(b);
    }
  }

  lemma IdentityMeaning(env: Registered, before: seq<Attempt>, r: Request)
    ensures IdentityRefusal(env, r).Some? ==>
      IdentityKind(IdentityRefusal(env, r).value) && Violated(env, before, r, IdentityRefusal(env, r).value)
    ensures IdentityRefusal(env, r).None? ==> forall x :: IdentityKind(x) ==> !Violated(env, before, r, x)
  {
    FamiliesAre(r.families.train, r.manifest.familySets.train);
    FamiliesAre(r.families.validation, r.manifest.familySets.validation);
    FamiliesAre(r.families.test, r.manifest.familySets.test);
    OverlapIs(r.families.train, r.families.test);
    hide FamiliesMatch, ListsFrozen, Members, SplitAccepted;
  }

  lemma OrderMeaning(env: Registered, before: seq<Attempt>, r: Request)
    ensures var o := OrderRefusal(Completed(before, r.experimentId), r.split);
      && (o.Some? ==> OrderKind(o.value) && Violated(env, before, r, o.value))
      && (o.None? ==> forall x :: OrderKind(x) ==> !Violated(env, before, r, x))
  {
    CompletedMeaning(before, r.experimentId, Train);
    CompletedMeaning(before, r.experimentId, Validation);
    CompletedMeaning(before, r.experimentId, Test);
    hide Completed, AcceptedAt;
  }

  lemma {:induction false} ModelsRefused(env: Registered, r: Request, models: seq<ModelReference>)
    requires ModelsRefusal(env, r, models).Some?
    ensures exists m :: m in models && ModelRefusal(env, r, m) == ModelsRefusal(env, r, models)
  {
    hide ModelRefusal;
    var init, last := models[..|models| - 1], models[|models| - 1];
    assert models == init + [last];
    if ModelsRefusal(env, r, init).Some? {
      ModelsRefused(env, r, init);
    } else {
      assert last in models;
    }
  }

  lemma ModelsMeaning(env: Registered, before: seq<Attempt>, r: Request)
    ensures var o := ModelsRefusal(env, r, r.models);
      && (o.Some? ==> ModelKind(o.value) && Violated(env, before, r, o.value))
      && (o.None? ==> forall x :: ModelKind(x) ==> !Violated(env, before, r, x))
  {
    if ModelsRefusal(env, r, r.models).Some? {
      ModelsRefused(env, r, r.models);
    } else {
      ModelsAccepted(env, r, r.models);
    }
    hide ModelsRefusal, SplitAccepted, ListsFrozen;
  }

  /** A refusal names something that is violated, and a request is accepted exactly when nothing is. */
  lemma RefusalMeaning(env: Registered, before: seq<Attempt>, r: Request)
    ensures var a := NextAttempt(env, before, r);
      && (a.refusal.Some? ==> Violated(env, before, r, a.refusal.value))
      && (a.accepted <==> forall x :: !Violated(env, before, r, x))
  {
    IdentityMeaning(env, before, r);
    OrderMeaning(env, before, r);
    ModelsMeaning(env, before, r);
    assert Violated(env, before, r, MetricsFailed) <==> !r.measurable;
    hide IdentityRefusal, OrderRefusal, ModelsRefusal, Violated, Completed;
    forall x ensures IdentityKind(x) || OrderKind(x) || ModelKind(x) || x == MetricsFailed {
    }
  }

  /** In every history an attempt is accepted exactly when nothing is violated, and refused for what is. */
  lemma AttemptsExplained(env: Registered, requests: seq<Request>, i: nat)
    requires i < |requests|
    ensures |History(env, requests)| == |requests|
    ensures var attempts := History(env, requests);
      && (attempts[i].accepted <==> forall x :: !Violated(env, attempts[..i], requests[i], x))
      && (attempts[i].refusal.Some? ==> Violated(env, attempts[..i], requests[i], attempts[i].refusal.value))
      && (attempts[i].refusal.None? <==> attempts[i].accepted)
      && attempts[i].requestHash == requests[i].requestHash && attempts[i].experimentId == requests[i].experimentId
      && attempts[i].familyId == requests[i].familyId && attempts[i].split == requests[i].split
  {
    HistoryAt(env, requests, i);
    hide History, Violated;
    RefusalMeaning(env, History(env, requests[..i]), requests[i]);
  }
}
