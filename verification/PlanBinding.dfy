/** Scenario steps are numbered, then assertions are bound to the requests they
    judge, and template names are checked against captures. */
module PlanBinding {
  import opened Walks
  import opened ExecutionPlan
  import opened Scenario
  import opened Bitset
  import opened Iteration
  import opened Freshness
  import opened TemplateRuns
  import opened PlanDefinition

  // ----- numbering the scenario

  const MAX_SCENARIO_STEPS: nat := 512

  datatype StepDraft =
    | RequestDraft(id: string, captures: seq<Capture>, templateNames: seq<string>)
    | DelayDraft(id: string, delay: int)
    | AssertDraft(id: string, failureMode: FailureMode)
    | UnsupportedDraft(id: string)

  function RequestsBefore(drafts: seq<StepDraft>, n: nat): nat
    requires n <= |drafts|
  {
    if n == 0 then 0 else RequestsBefore(drafts, n - 1) + if drafts[n - 1].RequestDraft? then 1 else 0
  }

  function AssertionsBefore(drafts: seq<StepDraft>, n: nat): nat
    requires n <= |drafts|
  {
    if n == 0 then 0 else AssertionsBefore(drafts, n - 1) + if drafts[n - 1].AssertDraft? then 1 else 0
  }

  function NumberedStep(drafts: seq<StepDraft>, i: nat): ScenarioStep
    requires i < |drafts|
  {
    match drafts[i]
    case RequestDraft(id, captures, templateNames) =>
      RequestKind(id, RequestStep(RequestsBefore(drafts, i), captures, templateNames, []))
    case DelayDraft(id, _) => DelayKind(id)
    case AssertDraft(id, failureMode) => AssertKind(id, Assertion(AssertionsBefore(drafts, i), failureMode, 0))
    case UnsupportedDraft(id) => DelayKind(id)
  }

  predicate Captures(drafts: seq<StepDraft>, i: int, c: int) {
    0 <= i < |drafts| && drafts[i].RequestDraft? && 0 <= c < |drafts[i].captures|
  }

  /** One scope for each captured name, and no capture of a runtime variable. */
  ghost predicate ScopesConsistent(drafts: seq<StepDraft>, runtimeNames: set<string>) {
    && (forall i, c | Captures(drafts, i, c) :: drafts[i].captures[c].name !in runtimeNames)
    && (forall i, c, j, e | Captures(drafts, i, c) && Captures(drafts, j, e)
          && drafts[i].captures[c].name == drafts[j].captures[e].name ::
          drafts[i].captures[c].scope == drafts[j].captures[e].scope)
  }

  predicate DraftSupported(draft: StepDraft) {
    !draft.UnsupportedDraft? && (draft.DelayDraft? ==> draft.delay >= 0)
  }

  ghost predicate DraftsAccepted(drafts: seq<StepDraft>, runtimeNames: set<string>) {
    && 1 <= |drafts| <= MAX_SCENARIO_STEPS
    && (forall i, j | 0 <= i < j < |drafts| :: drafts[i].id != drafts[j].id)
    && (forall i | 0 <= i < |drafts| :: DraftSupported(drafts[i]))
    && ScopesConsistent(drafts, runtimeNames)
  }

  /** The scopes seen in the first i drafts and the first c captures after. */
  ghost predicate ScopesSeen(drafts: seq<StepDraft>, scopes: map<string, VariableScope>, i: nat, c: nat) {
    && (forall j, e | Captures(drafts, j, e) && (j < i || (j == i && e < c)) ::
          drafts[j].captures[e].name in scopes && scopes[drafts[j].captures[e].name] == drafts[j].captures[e].scope)
    && (forall name | name in scopes :: exists j, e :: Captures(drafts, j, e) && (j < i || (j == i && e < c))
                                                       && drafts[j].captures[e].name == name)
  }

  lemma ScopeSeen(drafts: seq<StepDraft>, scopes: map<string, VariableScope>, i: nat, c: nat)
    requires Captures(drafts, i, c) && ScopesSeen(drafts, scopes, i, c)
    requires var capture := drafts[i].captures[c];
             capture.name in scopes ==> scopes[capture.name] == capture.scope
    ensures var capture := drafts[i].captures[c];
            ScopesSeen(drafts, scopes[capture.name := capture.scope], i, c + 1)
  {
  }

  lemma ScopeChanges(drafts: seq<StepDraft>, scopes: map<string, VariableScope>, runtimeNames: set<string>, i: nat,
                     c: nat)
    requires Captures(drafts, i, c) && ScopesSeen(drafts, scopes, i, c)
    requires var capture := drafts[i].captures[c];
             capture.name in scopes && scopes[capture.name] != capture.scope
    ensures !ScopesConsistent(drafts, runtimeNames)
  {
    var name := drafts[i].captures[c].name;
    var j, e :| Captures(drafts, j, e) && (j < i || (j == i && e < c)) && drafts[j].captures[e].name == name;
  }

  lemma AllSeen(drafts: seq<StepDraft>, scopes: map<string, VariableScope>, i: nat)
    requires i < |drafts| && drafts[i].RequestDraft? && ScopesSeen(drafts, scopes, i, |drafts[i].captures|)
    ensures ScopesSeen(drafts, scopes, i + 1, 0)
  {
  }

  method RecordScopes(drafts: seq<StepDraft>, runtimeNames: set<string>, scopes: map<string, VariableScope>, i: nat)
    returns (ok: bool, more: map<string, VariableScope>)
    requires i < |drafts| && drafts[i].RequestDraft?
    requires ScopesSeen(drafts, scopes, i, 0) && forall name | name in scopes :: name !in runtimeNames
    ensures ok ==> ScopesSeen(drafts, more, i + 1, 0) && forall name | name in more :: name !in runtimeNames
    ensures !ok ==> !ScopesConsistent(drafts, runtimeNames)
  {
    hide ScopesSeen;
    more := scopes;
    var captures := drafts[i].captures;
    for c := 0 to |captures|
      invariant ScopesSeen(drafts, more, i, c) && forall name | name in more :: name !in runtimeNames
    {
      var capture := captures[c];
      assert Captures(drafts, i, c);
      if capture.name in runtimeNames {
        return false, more;
      }
      if capture.name in more && more[capture.name] != capture.scope {
        ScopeChanges(drafts, more, runtimeNames, i, c);
        return false, more;
      }
      ScopeSeen(drafts, more, i, c);
      more := more[capture.name := capture.scope];
    }
    AllSeen(drafts, more, i);
    return true, more;
  }

  ghost predicate Numbered(drafts: seq<StepDraft>, scenario: seq<ScenarioStep>, n: nat)
    requires n <= |drafts|
  {
    |scenario| == n && forall i: nat | i < n :: scenario[i] == NumberedStep(drafts, i)
  }

  ghost predicate HasID(drafts: seq<StepDraft>, n: nat, id: string)
    requires n <= |drafts|
  {
    exists i :: 0 <= i < n && drafts[i].id == id
  }

  ghost predicate DistinctIDs(drafts: seq<StepDraft>, ids: set<string>, n: nat)
    requires n <= |drafts|
  {
    && (forall i | 0 <= i < n :: drafts[i].id in ids)
    && (forall id {:trigger HasID(drafts, n, id)} | id in ids :: HasID(drafts, n, id))
    && (forall i, j | 0 <= i < j < n :: drafts[i].id != drafts[j].id)
  }

  lemma RepeatedID(drafts: seq<StepDraft>, ids: set<string>, i: nat, runtimeNames: set<string>)
    requires i < |drafts| && DistinctIDs(drafts, ids, i) && drafts[i].id in ids
    ensures !DraftsAccepted(drafts, runtimeNames)
  {
    assert HasID(drafts, i, drafts[i].id);
    var j :| 0 <= j < i && drafts[j].id == drafts[i].id;
  }

  lemma NewID(drafts: seq<StepDraft>, ids: set<string>, i: nat)
    requires i < |drafts| && DistinctIDs(drafts, ids, i) && drafts[i].id !in ids
    ensures DistinctIDs(drafts, ids + {drafts[i].id}, i + 1)
  {
    forall id | id in ids + {drafts[i].id}
      ensures HasID(drafts, i + 1, id)
    {
      if id in ids {
        assert HasID(drafts, i, id);
        var j :| 0 <= j < i && drafts[j].id == id;
        assert 0 <= j < i + 1 && drafts[j].id == id;
      }
    }
  }

  lemma NothingSeen(drafts: seq<StepDraft>)
    ensures ScopesSeen(drafts, map[], 0, 0) && DistinctIDs(drafts, {}, 0)
  {
  }

  lemma AllDistinct(drafts: seq<StepDraft>, ids: set<string>)
    requires DistinctIDs(drafts, ids, |drafts|)
    ensures forall i, j | 0 <= i < j < |drafts| :: drafts[i].id != drafts[j].id
  {
  }

  lemma {:induction false} AssertionNumbersIncrease(drafts: seq<StepDraft>, i: nat, j: nat)
    requires i < j <= |drafts| && drafts[i].AssertDraft?
    ensures AssertionsBefore(drafts, i) < AssertionsBefore(drafts, j)
  {
    if i < j - 1 {
      AssertionNumbersIncrease(drafts, i, j - 1);
    }
  }

  /** A scenario before any assertion is bound: every assertion has a slot of
      its own, and requests judge nothing yet. */
  ghost predicate Unbound(scenario: seq<ScenarioStep>, count: nat) {
    && (forall s | 0 <= s < |scenario| && scenario[s].RequestKind? :: scenario[s].request.assertions == [])
    && (forall s | 0 <= s < |scenario| && scenario[s].AssertKind? :: scenario[s].assertion.resultIndex < count)
    && (forall s, t | 0 <= s < t < |scenario| && scenario[s].AssertKind? && scenario[t].AssertKind? ::
          scenario[s].assertion.resultIndex != scenario[t].assertion.resultIndex)
  }

  lemma NumberedIsUnbound(drafts: seq<StepDraft>, scenario: seq<ScenarioStep>)
    requires Numbered(drafts, scenario, |drafts|)
    ensures Unbound(scenario, AssertionsBefore(drafts, |drafts|))
  {
    forall s: nat | s < |scenario| && scenario[s].AssertKind?
      ensures scenario[s].assertion.resultIndex < AssertionsBefore(drafts, |drafts|)
    {
      AssertionNumbersIncrease(drafts, s, |drafts|);
    }
    forall s: nat, t: nat | s < t < |scenario| && scenario[s].AssertKind? && scenario[t].AssertKind?
      ensures scenario[s].assertion.resultIndex != scenario[t].assertion.resultIndex
    {
      AssertionNumbersIncrease(drafts, s, t);
    }
  }

  predicate IsOf(draft: StepDraft, assertions: bool) {
    if assertions then draft.AssertDraft? else draft.RequestDraft?
  }

  /** The assertions, or the requests, before draft i. */
  ghost function Earlier(drafts: seq<StepDraft>, i: nat, assertions: bool): set<nat>
    requires i <= |drafts|
  {
    set j: nat | j < i && IsOf(drafts[j], assertions)
  }

  lemma EarlierNext(drafts: seq<StepDraft>, i: nat, assertions: bool)
    requires i < |drafts|
    ensures |Earlier(drafts, i + 1, assertions)|
         == |Earlier(drafts, i, assertions)| + if IsOf(drafts[i], assertions) then 1 else 0
  {
    hide IsOf;
    if IsOf(drafts[i], assertions) {
      assert Earlier(drafts, i + 1, assertions) == Earlier(drafts, i, assertions) + {i};
    } else {
      assert Earlier(drafts, i + 1, assertions) == Earlier(drafts, i, assertions);
    }
  }

  lemma {:induction false} NumbersCount(drafts: seq<StepDraft>, i: nat)
    requires i <= |drafts|
    ensures RequestsBefore(drafts, i) == |Earlier(drafts, i, false)|
    ensures AssertionsBefore(drafts, i) == |Earlier(drafts, i, true)|
  {
    if i == 0 {
      assert Earlier(drafts, i, false) == {} && Earlier(drafts, i, true) == {};
    } else {
      NumbersCount(drafts, i - 1);
      EarlierNext(drafts, i - 1, false);
      EarlierNext(drafts, i - 1, true);
    }
  }

  /** The step says what its draft says, and is numbered by how many of its
      kind came before. */
  ghost predicate DraftedAs(drafts: seq<StepDraft>, i: nat, step: ScenarioStep)
    requires i < |drafts|
  {
    match drafts[i]
    case RequestDraft(id, captures, templateNames) =>
      && step.RequestKind? && step.id == id
      && step.request.captures == captures && step.request.templateNames == templateNames
      && step.request.metricsIndex == |Earlier(drafts, i, false)|
    case DelayDraft(id, _) => step.DelayKind? && step.id == id
    case AssertDraft(id, failureMode) =>
      && step.AssertKind? && step.id == id && step.assertion.failureMode == failureMode
      && step.assertion.resultIndex == |Earlier(drafts, i, true)|
    case UnsupportedDraft(_) => true
  }

  lemma NumberedIsDrafted(drafts: seq<StepDraft>, scenario: seq<ScenarioStep>)
    requires Numbered(drafts, scenario, |drafts|)
    ensures forall i: nat | i < |drafts| :: DraftedAs(drafts, i, scenario[i])
    ensures AssertionsBefore(drafts, |drafts|) == |Earlier(drafts, |drafts|, true)|
  {
    hide Earlier;
    forall i: nat | i < |drafts|
      ensures DraftedAs(drafts, i, scenario[i])
    {
      NumbersCount(drafts, i);
    }
    NumbersCount(drafts, |drafts|);
  }

  ghost predicate ScenarioIDsDistinct(scenario: seq<ScenarioStep>) {
    forall i, j | 0 <= i < j < |scenario| :: scenario[i].id != scenario[j].id
  }

  method CompilePlannedScenarioSteps(drafts: seq<StepDraft>, runtimeNames: set<string>)
    returns (ok: bool, scenario: seq<ScenarioStep>, assertionCount: nat)
    ensures ok <==> DraftsAccepted(drafts, runtimeNames)
    ensures ok ==> Numbered(drafts, scenario, |drafts|) && assertionCount == AssertionsBefore(drafts, |drafts|)
    ensures ok ==> forall i: nat | i < |drafts| :: DraftedAs(drafts, i, scenario[i])
    ensures ok ==> assertionCount == |Earlier(drafts, |drafts|, true)|
    ensures ok ==> Unbound(scenario, assertionCount) && ScenarioIDsDistinct(scenario)
  {
    hide ScopesSeen, DistinctIDs, DraftedAs, Earlier;
    NothingSeen(drafts);
    scenario, assertionCount := [], 0;
    if |drafts| == 0 || |drafts| > MAX_SCENARIO_STEPS {
      return false, scenario, assertionCount;
    }
    var scopes: map<string, VariableScope> := map[];
    var requestIndex: nat, ids: set<string> := 0, {};
    for i := 0 to |drafts|
      invariant Numbered(drafts, scenario, i) && DistinctIDs(drafts, ids, i)
      invariant requestIndex == RequestsBefore(drafts, i) && assertionCount == AssertionsBefore(drafts, i)
      invariant forall j | 0 <= j < i :: DraftSupported(drafts[j])
      invariant ScopesSeen(drafts, scopes, i, 0) && forall name | name in scopes :: name !in runtimeNames
    {
      if drafts[i].id in ids {
        RepeatedID(drafts, ids, i, runtimeNames);
        return false, scenario, assertionCount;
      }
      NewID(drafts, ids, i);
      ids := ids + {drafts[i].id};
      match drafts[i] {
        case RequestDraft(id, captures, templateNames) =>
          ok, scopes := RecordScopes(drafts, runtimeNames, scopes, i);
          if !ok {
            return;
          }
          scenario := scenario + [RequestKind(id, RequestStep(requestIndex, captures, templateNames, []))];
          requestIndex := requestIndex + 1;
        case DelayDraft(id, delay) =>
          if delay < 0 {
            return false, scenario, assertionCount;
          }
          SkipDraft(drafts, scopes, i);
          scenario := scenario + [DelayKind(id)];
        case AssertDraft(id, failureMode) =>
          SkipDraft(drafts, scopes, i);
          scenario := scenario + [AssertKind(id, Assertion(assertionCount, failureMode, 0))];
          assertionCount := assertionCount + 1;
        case UnsupportedDraft(_) =>
          return false, scenario, assertionCount;
      }
    }
    ScopesAgree(drafts, scopes, runtimeNames);
    AllDistinct(drafts, ids);
    NumberedIsUnbound(drafts, scenario);
    NumberedIsDrafted(drafts, scenario);
    return true, scenario, assertionCount;
  }

  lemma SkipDraft(drafts: seq<StepDraft>, scopes: map<string, VariableScope>, i: nat)
    requires i < |drafts| && !drafts[i].RequestDraft? && ScopesSeen(drafts, scopes, i, 0)
    ensures ScopesSeen(drafts, scopes, i + 1, 0)
  {
  }

  lemma ScopesAgree(drafts: seq<StepDraft>, scopes: map<string, VariableScope>, runtimeNames: set<string>)
    requires ScopesSeen(drafts, scopes, |drafts|, 0) && forall name | name in scopes :: name !in runtimeNames
    ensures ScopesConsistent(drafts, runtimeNames)
  {
  }

  // ----- binding assertions

  /** Each scenario step stands in the plan exactly once. */
  ghost predicate PlannedOnce(steps: seq<Step>, scenario: seq<ScenarioStep>) {
    && (forall i: nat | i < |steps| && steps[i].Scenario? :: steps[i].scenarioIndex < |scenario|)
    && (forall i: nat, j: nat | i < |steps| && j < |steps| && steps[i].Scenario? && steps[j].Scenario?
          && steps[i].scenarioIndex == steps[j].scenarioIndex :: i == j)
  }

  /** A definition names the request that its assertion judges; the request
      must run on every path to the assertion. */
  ghost predicate AssertionAccepted(p: Program, definitions: seq<StepDefinition>, index: Index, a: nat)
    requires Sound(p) && |definitions| == |p.steps| && IsAssertion(p, a)
  {
    && TargetExists(definitions[a].requestStepID, index)
    && var r := index[definitions[a].requestStepID];
       IsRequest(p, r) && r != a && Dominates(Full(p.steps), p.entry, r, a)
  }

  ghost predicate AssertionsAccepted(p: Program, definitions: seq<StepDefinition>, index: Index, n: nat)
    requires Sound(p) && |definitions| == |p.steps|
  {
    forall a: nat | a < n && IsAssertion(p, a) :: AssertionAccepted(p, definitions, index, a)
  }

  ghost predicate JudgedBy(p: Program, definitions: seq<StepDefinition>, index: Index, a: nat, r: nat)
    requires Sound(p) && |definitions| == |p.steps|
  {
    IsAssertion(p, a) && AssertionAccepted(p, definitions, index, a) && index[definitions[a].requestStepID] == r
  }

  ghost function BoundAssertion(p: Program, a: nat, r: nat): Assertion
    requires Sound(p) && IsAssertion(p, a) && IsRequest(p, r)
  {
    AssertionAt(p, a).(requestMetricsIndex := RequestAt(p, r).metricsIndex)
  }

  /** The assertions among the first n plan steps that request r judges. */
  ghost function Judged(p: Program, definitions: seq<StepDefinition>, index: Index, r: nat, n: nat): seq<Assertion>
    requires Sound(p) && |definitions| == |p.steps| && IsRequest(p, r)
  {
    if n == 0 then []
    else Judged(p, definitions, index, r, n - 1)
         + if JudgedBy(p, definitions, index, n - 1, r) then [BoundAssertion(p, n - 1, r)] else []
  }

  /** The scenario step of plan step x once the first n plan steps are bound. */
  ghost function BoundStep(p: Program, definitions: seq<StepDefinition>, index: Index, x: nat, n: nat): ScenarioStep
    requires Sound(p) && |definitions| == |p.steps| && x < |p.steps| && p.steps[x].Scenario?
    requires AssertionsAccepted(p, definitions, index, n)
  {
    var step := p.scenario[p.steps[x].scenarioIndex];
    match step
    case RequestKind(id, request) => RequestKind(id, request.(assertions := Judged(p, definitions, index, x, n)))
    case AssertKind(id, assertion) =>
      if x < n then
        assert AssertionAccepted(p, definitions, index, x);
        AssertKind(id, BoundAssertion(p, x, index[definitions[x].requestStepID]))
      else step
    case DelayKind(_) => step
  }

  ghost predicate BoundThrough(p: Program, definitions: seq<StepDefinition>, index: Index,
                               scenario: seq<ScenarioStep>, n: nat)
    requires Sound(p) && |definitions| == |p.steps|
  {
    && |scenario| == |p.scenario|
    && AssertionsAccepted(p, definitions, index, n)
    && forall x: nat | x < |p.steps| && p.steps[x].Scenario? ::
         scenario[p.steps[x].scenarioIndex] == BoundStep(p, definitions, index, x, n)
  }

  lemma BindOne(p: Program, definitions: seq<StepDefinition>, index: Index,
                before: seq<ScenarioStep>, after: seq<ScenarioStep>, a: nat, r: nat)
    requires Sound(p) && |definitions| == |p.steps| && PlannedOnce(p.steps, p.scenario)
    requires BoundThrough(p, definitions, index, before, a)
    requires IsAssertion(p, a) && JudgedBy(p, definitions, index, a, r)
    requires |after| == |before|
    requires after[p.steps[a].scenarioIndex]
          == AssertKind(before[p.steps[a].scenarioIndex].id, BoundAssertion(p, a, r))
    requires var s := p.steps[r].scenarioIndex;
             && before[s].RequestKind?
             && after[s] == RequestKind(before[s].id, before[s].request.(
                              assertions := before[s].request.assertions + [BoundAssertion(p, a, r)]))
    requires forall s | 0 <= s < |after| && s != p.steps[a].scenarioIndex && s != p.steps[r].scenarioIndex ::
               after[s] == before[s]
    ensures BoundThrough(p, definitions, index, after, a + 1)
  {
    forall x: nat | x < |p.steps| && p.steps[x].Scenario?
      ensures after[p.steps[x].scenarioIndex] == BoundStep(p, definitions, index, x, a + 1)
    {
      assert before[p.steps[x].scenarioIndex] == BoundStep(p, definitions, index, x, a);
    }
  }

  lemma BindNone(p: Program, definitions: seq<StepDefinition>, index: Index, scenario: seq<ScenarioStep>, a: nat)
    requires Sound(p) && |definitions| == |p.steps|
    requires BoundThrough(p, definitions, index, scenario, a) && !IsAssertion(p, a)
    ensures BoundThrough(p, definitions, index, scenario, a + 1)
  {
    forall x: nat | x < |p.steps| && p.steps[x].Scenario?
      ensures scenario[p.steps[x].scenarioIndex] == BoundStep(p, definitions, index, x, a + 1)
    {
      assert scenario[p.steps[x].scenarioIndex] == BoundStep(p, definitions, index, x, a);
    }
  }

  ghost predicate DominatorRows(p: Program, dominators: seq<seq<bv64>>)
    requires Sound(p)
  {
    && |dominators| == |p.steps|
    && (forall v | 0 <= v < |dominators| :: |p.steps| <= 64 * |dominators[v]|)
    && (forall v: nat, d: nat | v < |p.steps| && d < |p.steps| ::
          HasBit(dominators[v], d) <==> Dominates(Full(p.steps), p.entry, d, v))
  }

  /** Append each assertion to the request it judges, in place. */
  method AttachPlannedAssertions(p: Program, scenario: array<ScenarioStep>, definitions: seq<StepDefinition>,
                                 index: Index, dominators: seq<seq<bv64>>)
    returns (ok: bool)
    requires Sound(p) && |definitions| == |p.steps| && PlannedOnce(p.steps, p.scenario)
    requires Indexes(definitions, index, |definitions|) && DominatorRows(p, dominators)
    requires scenario[..] == p.scenario && BoundThrough(p, definitions, index, p.scenario, 0)
    modifies scenario
    ensures ok <==> AssertionsAccepted(p, definitions, index, |p.steps|)
    ensures ok ==> BoundThrough(p, definitions, index, scenario[..], |p.steps|)
  {
    for planIndex := 0 to |p.steps|
      invariant BoundThrough(p, definitions, index, scenario[..], planIndex)
    {
      if !IsAssertion(p, planIndex) {
        BindNone(p, definitions, index, scenario[..], planIndex);
        continue;
      }
      var requestID := definitions[planIndex].requestStepID;
      if !TargetExists(requestID, index) {
        assert !AssertionAccepted(p, definitions, index, planIndex);
        return false;
      }
      var request := index[requestID];
      if !IsRequest(p, request) || request == planIndex || !HasBit(dominators[planIndex], request) {
        assert !AssertionAccepted(p, definitions, index, planIndex);
        return false;
      }
      assert JudgedBy(p, definitions, index, planIndex, request);
      ghost var before := scenario[..];
      var own, judge := p.steps[planIndex].scenarioIndex, p.steps[request].scenarioIndex;
      assert before[own] == BoundStep(p, definitions, index, planIndex, planIndex);
      assert before[judge] == BoundStep(p, definitions, index, request, planIndex);
      var bound := scenario[own].assertion.(requestMetricsIndex := scenario[judge].request.metricsIndex);
      scenario[own] := AssertKind(scenario[own].id, bound);
      scenario[judge] := RequestKind(scenario[judge].id, scenario[judge].request.(
                           assertions := scenario[judge].request.assertions + [bound]));
      BindOne(p, definitions, index, before, scenario[..], planIndex, request);
    }
    return true;
  }

  // ----- template names

  ghost predicate ProducersOf(p: Program, producers: map<string, seq<nat>>, n: nat)
    requires Sound(p) && n <= |p.steps|
  {
    && (forall name, r | name in producers && r in producers[name] :: r < n && Produces(p, r, name))
    && (forall name, r: nat | r < n && Produces(p, r, name) :: name in producers && r in producers[name])
  }

  method CollectProducers(p: Program) returns (producers: map<string, seq<nat>>)
    requires Sound(p)
    ensures ProducersOf(p, producers, |p.steps|)
  {
    producers := map[];
    for planIndex := 0 to |p.steps|
      invariant ProducersOf(p, producers, planIndex)
    {
      if !IsRequest(p, planIndex) {
        continue;
      }
      var captures := RequestAt(p, planIndex).captures;
      for c := 0 to |captures|
        invariant forall name, r | name in producers && r in producers[name] :: r <= planIndex && Produces(p, r, name)
        invariant forall name, r: nat | r < planIndex && Produces(p, r, name) ::
                    name in producers && r in producers[name]
        invariant forall e | 0 <= e < c :: captures[e].name in producers && planIndex in producers[captures[e].name]
      {
        var name := captures[c].name;
        assert Produces(p, planIndex, name);
        producers := producers[name := (if name in producers then producers[name] else []) + [planIndex]];
      }
    }
  }

  method NameCovered(p: Program, runtimeNames: set<string>, producers: map<string, seq<nat>>,
                     dominators: seq<seq<bv64>>, x: nat, name: string)
    returns (covered: bool)
    requires Sound(p) && x < |p.steps| && ProducersOf(p, producers, |p.steps|) && DominatorRows(p, dominators)
    ensures covered <==> TemplateCovered(p, runtimeNames, x, name)
  {
    if name in runtimeNames {
      return true;
    }
    var candidates := if name in producers then producers[name] else [];
    for k := 0 to |candidates|
      invariant forall j | 0 <= j < k :: candidates[j] == x || !Dominates(Full(p.steps), p.entry, candidates[j], x)
    {
      var producer := candidates[k];
      assert producer in producers[name];
      if producer != x && HasBit(dominators[x], producer) {
        return true;
      }
    }
    return false;
  }

  method ValidatePlannedTemplates(p: Program, runtimeNames: set<string>, dominators: seq<seq<bv64>>)
    returns (ok: bool)
    requires Sound(p) && DominatorRows(p, dominators)
    ensures ok <==> TemplatesCovered(p, runtimeNames)
  {
    var producers := CollectProducers(p);
    for x := 0 to |p.steps|
      invariant forall y: nat, i: nat | y < x && IsRequest(p, y) && i < |RequestAt(p, y).templateNames| ::
                  TemplateCovered(p, runtimeNames, y, RequestAt(p, y).templateNames[i])
    {
      if !IsRequest(p, x) {
        continue;
      }
      var names := RequestAt(p, x).templateNames;
      for k := 0 to |names|
        invariant forall i: nat | i < k :: TemplateCovered(p, runtimeNames, x, names[i])
      {
        var covered := NameCovered(p, runtimeNames, producers, dominators, x, names[k]);
        if !covered {
          return false;
        }
      }
    }
    return true;
  }
}
