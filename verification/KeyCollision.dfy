/** A plan that compiles although two nested routes share a scope key, because
    ids may contain the colon that separates branch and route in a key. */
module KeyCollision {
  import opened Walks
  import opened ExecutionPlan
  import opened Regions
  import opened Scenario
  import opened Options
  import opened Variables
  import opened Machine
  import opened Iteration
  import opened Freshness
  import opened TemplateScope
  import opened TemplateRuns
  import opened PlanDefinition
  import opened PlanBinding
  import opened PlanCompiler
  import opened SimplePlans

  // ----- the plan

  /** The ids of the steps and of the routes, the key of two of the routes, and
      the name of the captured variable. */
  datatype Ids = Ids(start: string, outer: string, login: string, inner: string, use: string, innerJoin: string,
                     outerJoin: string, around: string, skip: string, within: string, pass: string, key: string,
                     token: string)
  {
    function Steps(): seq<string> {
      [start, outer, login, inner, use, innerJoin, outerJoin]
    }

    function Routes(): seq<string> {
      [around, skip, within, pass]
    }
  }

  /** Ids that a plan may have, with routes of the two branches whose keys are
      equal. */
  predicate Collides(ids: Ids) {
    && (forall i | 0 <= i < 7 :: Plain(ids.Steps()[i]) && 1 <= |ids.Steps()[i]| <= 16)
    && (forall i | 0 <= i < 4 :: Plain(ids.Routes()[i]) && 1 <= |ids.Routes()[i]| <= 16)
    && (forall i, j | 0 <= i < j < 7 :: ids.Steps()[i] != ids.Steps()[j])
    && ids.around != ids.skip && ids.within != ids.pass
    && ids.key == ScopeKey(ids.outer, ids.around) == ScopeKey(ids.inner, ids.within)
  }

  /** The route `around` of the outer branch logs in and comes to the inner
      branch, whose route `within` uses what the login captured. */
  function Nested(ids: Ids): seq<Step> {
    [ Scenario(ids.start, 0, 1),
      Branch(ids.outer, [Route(ids.around, ids.around, 2, 1, 0, ids.key),
                         Route(ids.skip, ids.skip, 6, 1, 1, ScopeKey(ids.outer, ids.skip))], 2, 6),
      Scenario(ids.login, 1, 3),
      Branch(ids.inner, [Route(ids.within, ids.within, 4, 1, 2, ids.key),
                         Route(ids.pass, ids.pass, 5, 1, 3, ScopeKey(ids.inner, ids.pass))], 2, 5),
      Scenario(ids.use, 2, 5),
      Join(ids.innerJoin, 6),
      Join(ids.outerJoin, -1) ]
  }

  function Requests(ids: Ids): seq<ScenarioStep> {
    [ RequestKind(ids.start, RequestStep(0, [], [], [])),
      RequestKind(ids.login, RequestStep(1, [Capture(ids.token, IterationScope)], [], [])),
      RequestKind(ids.use, RequestStep(2, [], [ids.token], [])) ]
  }

  function Request(id: string, next: string): StepDefinition {
    StepDefinition(id, ScenarioKind, next, "", [], "", "", "", 0)
  }

  function Fork(id: string, left: string, leftTarget: string, right: string, rightTarget: string,
                join: string): StepDefinition {
    StepDefinition(id, BranchKind, "", "", [RouteDefinition(left, left, leftTarget, 1),
                                            RouteDefinition(right, right, rightTarget, 1)], join, "", "", 0)
  }

  function Meet(id: string, next: string): StepDefinition {
    StepDefinition(id, JoinKind, next, "", [], "", "", "", 0)
  }

  function Definition(ids: Ids): PlanDefinition {
    PlanDefinition(1, ids.start,
      [ Request(ids.start, ids.outer),
        Fork(ids.outer, ids.around, ids.login, ids.skip, ids.outerJoin, ids.outerJoin),
        Request(ids.login, ids.inner),
        Fork(ids.inner, ids.within, ids.use, ids.pass, ids.innerJoin, ids.innerJoin),
        Request(ids.use, ids.innerJoin),
        Meet(ids.innerJoin, ids.outerJoin),
        Meet(ids.outerJoin, "") ])
  }

  function StepIndex(ids: Ids): Index {
    map[ids.start := 0, ids.outer := 1, ids.login := 2, ids.inner := 3, ids.use := 4, ids.innerJoin := 5,
        ids.outerJoin := 6]
  }

  function RequestIndex(ids: Ids): Index {
    map[ids.start := 0, ids.login := 1, ids.use := 2]
  }

  // ----- its graph

  predicate IsNestedEdge(u: nat, v: nat) {
    (u, v) in {(0, 1), (1, 2), (1, 6), (2, 3), (3, 4), (3, 5), (4, 5), (5, 6)}
  }

  lemma TwoRoutesSum(routes: seq<Route>)
    requires |routes| == 2 && routes[0].weight == 1 && routes[1].weight == 1
    ensures SumsTo(routes, 2)
    ensures RouteTargets(routes) == [routes[0].target, routes[1].target]
  {
    assert routes[..1] == [routes[0]] && routes[..1][..0] == [];
    assert SumsTo(routes[..1], 1);
  }

  lemma NestedEdges(ids: Ids)
    ensures Resolved(Nested(ids))
    ensures forall u: nat, v: nat :: Edge(Reduced(Nested(ids)), u, v) <==> IsNestedEdge(u, v)
    ensures forall u: nat, v: nat :: Edge(Full(Nested(ids)), u, v) <==> IsNestedEdge(u, v)
  {
    var steps := Nested(ids);
    TwoRoutesSum(steps[1].routes);
    TwoRoutesSum(steps[3].routes);
    forall u: nat, v: nat
      ensures Edge(Reduced(steps), u, v) <==> IsNestedEdge(u, v)
      ensures Edge(Full(steps), u, v) <==> IsNestedEdge(u, v)
    {
      if u < 7 {
        assert Reduced(steps)[u] == Successors(steps[u], true);
        assert Full(steps)[u] == Successors(steps[u], false);
      }
    }
  }

  lemma NestedReaches(ids: Ids)
    ensures Resolved(Nested(ids)) && LoopsBounded(Nested(ids))
    ensures var reduced := Reduced(Nested(ids));
            && WellFormed(reduced) && (forall v: nat | 1 <= v <= 6 :: Reach(reduced, v, 6))
            && Reach(reduced, 4, 5) && Reach(reduced, 5, 5)
  {
    var steps := Nested(ids);
    var reduced := Reduced(steps);
    NestedEdges(ids);
    GraphsWellFormed(steps);
    forall u: nat, v: nat | Edge(reduced, u, v)
      ensures !Reach(reduced, v, u)
    {
      if Reach(reduced, v, u) {
        IncreasingReach(reduced, v, u);
      }
    }
    ReachSelf(reduced, 6, -1);
    ThenReach(reduced, 5, 6, 6, -1);
    ThenReach(reduced, 4, 5, 6, -1);
    ThenReach(reduced, 3, 5, 6, -1);
    ThenReach(reduced, 2, 3, 6, -1);
    ThenReach(reduced, 1, 6, 6, -1);
    ReachSelf(reduced, 5, -1);
    ReachEdge(reduced, 4, 5, -1);
  }

  lemma NestedReachable(ids: Ids)
    ensures AllReachable(Nested(ids), 0)
  {
    var full := Full(Nested(ids));
    NestedEdges(ids);
    GraphsWellFormed(Nested(ids));
    ReachSelf(full, 0, -1);
    ReachThen(full, 0, 0, 1, -1);
    ReachThen(full, 0, 1, 2, -1);
    ReachThen(full, 0, 2, 3, -1);
    ReachThen(full, 0, 3, 4, -1);
    ReachThen(full, 0, 4, 5, -1);
    ReachThen(full, 0, 5, 6, -1);
    forall v: nat | v < |Nested(ids)|
      ensures Reach(full, 0, v)
    {
      assert v == 0 || v == 1 || v == 2 || v == 3 || v == 4 || v == 5 || v == 6;
    }
  }

  /** The routes of the two branches, in either graph. */
  lemma NestedRegions(ids: Ids, adj: Adjacency, v: nat)
    requires adj == Reduced(Nested(ids)) || adj == Full(Nested(ids))
    ensures ReachAvoiding(adj, 2, v, 6) <==> 2 <= v <= 5
    ensures !ReachAvoiding(adj, 6, v, 6) && !ReachAvoiding(adj, 5, v, 5)
    ensures ReachAvoiding(adj, 4, v, 5) <==> v == 4
  {
    NestedEdges(ids);
    GraphsWellFormed(Nested(ids));
    if ReachAvoiding(adj, 2, v, 6) {
      ReachStaysIn(adj, {2, 3, 4, 5}, 2, v, 6);
    }
    if ReachAvoiding(adj, 4, v, 5) {
      ReachStaysIn(adj, {4}, 4, v, 5);
    }
    ReachSelf(adj, 4, 5);
    ReachSelf(adj, 2, 6);
    ReachThen(adj, 2, 2, 3, 6);
    ReachThen(adj, 2, 3, 4, 6);
    ReachThen(adj, 2, 4, 5, 6);
  }

  lemma NestedRoute(ids: Ids, b: nat, k: nat, v: nat)
    requires IsRoute(Nested(ids), b, k)
    ensures (b == 1 || b == 3) && k < 2
    ensures InRoute(Nested(ids), b, k, v) <==> k == 0 && if b == 1 then 2 <= v <= 5 else v == 4
    ensures InsideVia(Nested(ids), b, k, v) <==> k == 0 && if b == 1 then 2 <= v <= 5 else v == 4
  {
    NestedRegions(ids, Reduced(Nested(ids)), v);
    NestedRegions(ids, Full(Nested(ids)), v);
    assert b == 0 || b == 1 || b == 2 || b == 3 || b == 4 || b == 5 || b == 6;
    assert k == 0 || k == 1;
  }

  lemma NestedRouteClosed(ids: Ids, b: nat, k: nat)
    requires IsRoute(Nested(ids), b, k)
    ensures RouteClosed(Nested(ids), b, k)
  {
    NestedReaches(ids);
    NestedRoute(ids, b, k, 0);
    ReachSelf(Reduced(Nested(ids)), 6, -1);
    forall v: nat
      ensures InRoute(Nested(ids), b, k, v) <==> k == 0 && if b == 1 then 2 <= v <= 5 else v == 4
    {
      NestedRoute(ids, b, k, v);
    }
  }

  lemma NestedBranches(ids: Ids)
    ensures Resolved(Nested(ids)) && BranchesStructured(Nested(ids))
  {
    var steps := Nested(ids);
    NestedEdges(ids);
    forall b: nat | IsBranch(steps, b)
      ensures (b == 1 || b == 3) && BranchStructured(steps, b)
    {
      NestedRoute(ids, b, 0, 0);
      forall k: nat | IsRoute(steps, b, k)
        ensures RouteClosed(steps, b, k)
      {
        NestedRouteClosed(ids, b, k);
      }
      forall j: nat, k: nat, v: nat | IsRoute(steps, b, j) && IsRoute(steps, b, k)
        && InRoute(steps, b, j, v) && InRoute(steps, b, k, v)
        ensures j == k
      {
        NestedRoute(ids, b, j, v);
        NestedRoute(ids, b, k, v);
      }
    }
    assert IsBranch(steps, 1) && IsBranch(steps, 3);
    assert Owned(steps, 5) && Owned(steps, 6);
  }

  lemma NestedIsStructured(ids: Ids)
    ensures WellStructured(Nested(ids), 0)
  {
    NestedReaches(ids);
    NestedReachable(ids);
    NestedBranches(ids);
  }

  lemma NestedHasNoForeignEntry(ids: Ids)
    ensures NoForeignEntry(Nested(ids), 0)
  {
    var steps := Nested(ids);
    NestedEdges(ids);
    forall b: nat, v: nat | IsBranch(steps, b)
      ensures (b == 1 || b == 3) && (Inside(steps, b, v) <==> if b == 1 then 2 <= v <= 5 else v == 4)
    {
      assert IsRoute(steps, b, 0);
      NestedRoute(ids, b, 0, v);
      if Inside(steps, b, v) {
        var k: nat :| IsRoute(steps, b, k) && InsideVia(steps, b, k, v);
        NestedRoute(ids, b, k, v);
      }
    }
  }

  lemma NestedKeysAreEqual(ids: Ids)
    ensures !NestedKeysDistinct(Nested(ids))
  {
    var steps := Nested(ids);
    assert IsRoute(steps, 1, 0) && IsRoute(steps, 3, 0);
    NestedRoute(ids, 1, 0, 3);
    assert steps[1].routes[0].scopeKey == steps[3].routes[0].scopeKey;
  }

  // ----- the plan compiles

  lemma IdsAreValid(ids: Ids)
    requires Collides(ids)
    ensures forall i | 0 <= i < 7 :: ValidPlanID(ids.Steps()[i])
  {
    forall i | 0 <= i < 7
      ensures ValidPlanID(ids.Steps()[i])
    {
      PlainIsValid(ids.Steps()[i]);
    }
  }

  lemma DefinitionIds(ids: Ids)
    ensures |Definition(ids).steps| == 7
    ensures forall i | 0 <= i < 7 :: Definition(ids).steps[i].id == ids.Steps()[i]
  {
  }

  lemma IndexIs(ids: Ids)
    requires Collides(ids)
    ensures forall id | id in StepIndex(ids) :: StepIndex(ids)[id] < 7 && ids.Steps()[StepIndex(ids)[id]] == id
    ensures forall i | 0 <= i < 7 :: ids.Steps()[i] in StepIndex(ids) && StepIndex(ids)[ids.Steps()[i]] == i
  {
    var all := ids.Steps();
    assert all[0] != all[1] && all[0] != all[2] && all[0] != all[3] && all[0] != all[4] && all[0] != all[5]
           && all[0] != all[6] && all[1] != all[2] && all[1] != all[3] && all[1] != all[4] && all[1] != all[5]
           && all[1] != all[6] && all[2] != all[3] && all[2] != all[4] && all[2] != all[5] && all[2] != all[6]
           && all[3] != all[4] && all[3] != all[5] && all[3] != all[6] && all[4] != all[5] && all[4] != all[6]
           && all[5] != all[6];
  }

  lemma DefinitionIsIndexed(ids: Ids)
    requires Collides(ids)
    ensures IdsAccepted(Definition(ids).steps, 7) && Indexes(Definition(ids).steps, StepIndex(ids), 7)
  {
    IdsAreValid(ids);
    DefinitionIds(ids);
    IndexIs(ids);
  }

  lemma RequestsAreIndexed(ids: Ids)
    requires Collides(ids)
    ensures ScenarioIndexed(Requests(ids), RequestIndex(ids))
  {
    var all := ids.Steps();
    assert all[0] != all[2] && all[0] != all[4] && all[2] != all[4];
  }

  lemma OuterResolves(ids: Ids)
    requires Collides(ids)
    ensures forall id | id in StepIndex(ids) :: StepIndex(ids)[id] < 7
    ensures DefinitionAccepted(Definition(ids).steps, 1, StepIndex(ids), RequestIndex(ids))
    ensures Nested(ids)[1] == CompiledStep(Definition(ids).steps, 1, StepIndex(ids), RequestIndex(ids))
  {
    IdsAreValid(ids);
    IndexIs(ids);
    var steps, all := Definition(ids).steps, ids.Steps();
    assert ids.Routes()[0] == ids.around && ids.Routes()[1] == ids.skip;
    assert RoutesBefore(steps, 0) == RoutesBefore(steps, 1) == 0;
    assert all[2] == ids.login && all[6] == ids.outerJoin;
    TwoRoutesCompile(steps, 1, StepIndex(ids), RequestIndex(ids));
  }

  lemma InnerResolves(ids: Ids)
    requires Collides(ids)
    ensures forall id | id in StepIndex(ids) :: StepIndex(ids)[id] < 7
    ensures DefinitionAccepted(Definition(ids).steps, 3, StepIndex(ids), RequestIndex(ids))
    ensures Nested(ids)[3] == CompiledStep(Definition(ids).steps, 3, StepIndex(ids), RequestIndex(ids))
  {
    IdsAreValid(ids);
    IndexIs(ids);
    var steps, all := Definition(ids).steps, ids.Steps();
    assert ids.Routes()[2] == ids.within && ids.Routes()[3] == ids.pass;
    assert RoutesBefore(steps, 0) == RoutesBefore(steps, 1) == 0;
    assert RoutesBefore(steps, 2) == RoutesBefore(steps, 3) == 2;
    assert all[4] == ids.use && all[5] == ids.innerJoin;
    TwoRoutesCompile(steps, 3, StepIndex(ids), RequestIndex(ids));
  }

  lemma RequestResolves(ids: Ids, i: nat)
    requires Collides(ids) && (i == 0 || i == 2 || i == 4)
    ensures forall id | id in StepIndex(ids) :: StepIndex(ids)[id] < 7
    ensures DefinitionAccepted(Definition(ids).steps, i, StepIndex(ids), RequestIndex(ids))
    ensures Nested(ids)[i] == CompiledStep(Definition(ids).steps, i, StepIndex(ids), RequestIndex(ids))
  {
    IdsAreValid(ids);
    IndexIs(ids);
    RequestsAreIndexed(ids);
    var next := ids.Steps()[i + 1];
    assert ValidPlanID(next) && StepIndex(ids)[next] == i + 1;
    assert Requests(ids)[i / 2].id == Definition(ids).steps[i].id;
  }

  lemma JoinResolves(ids: Ids, i: nat)
    requires Collides(ids) && (i == 5 || i == 6)
    ensures forall id | id in StepIndex(ids) :: StepIndex(ids)[id] < 7
    ensures DefinitionAccepted(Definition(ids).steps, i, StepIndex(ids), RequestIndex(ids))
    ensures Nested(ids)[i] == CompiledStep(Definition(ids).steps, i, StepIndex(ids), RequestIndex(ids))
  {
    IdsAreValid(ids);
    IndexIs(ids);
    var last := ids.Steps()[6];
    assert ValidPlanID(last) && StepIndex(ids)[last] == 6;
  }

  lemma NestedPlansAll(ids: Ids)
    ensures CoversScenario(Nested(ids), Requests(ids))
  {
    var steps := Nested(ids);
    assert steps[0].Scenario? && steps[2].Scenario? && steps[4].Scenario?;
    assert Planned(steps, 0) && Planned(steps, 1) && Planned(steps, 2);
  }

  lemma NestedResolves(ids: Ids)
    requires Collides(ids)
    ensures ResolvesTo(Definition(ids), Requests(ids), StepIndex(ids), RequestIndex(ids), 0, Nested(ids))
  {
    DefinitionIsIndexed(ids);
    RequestsAreIndexed(ids);
    NestedEdges(ids);
    NestedPlansAll(ids);
    IdsAreValid(ids);
    IndexIs(ids);
    assert ids.Steps()[0] == ids.start;
    forall i: nat | i < 7
      ensures DefinitionAccepted(Definition(ids).steps, i, StepIndex(ids), RequestIndex(ids))
      ensures Nested(ids)[i] == CompiledStep(Definition(ids).steps, i, StepIndex(ids), RequestIndex(ids))
    {
      if i == 1 {
        OuterResolves(ids);
      } else if i == 3 {
        InnerResolves(ids);
      } else if i < 5 {
        RequestResolves(ids, i);
      } else {
        JoinResolves(ids, i);
      }
    }
  }

  /** The compiled plan. */
  ghost function Plan(ids: Ids): Program {
    Program(0, Nested(ids), TransitionBound(Nested(ids)), Requests(ids), 0)
  }

  lemma PlanIsSound(ids: Ids)
    ensures Sound(Plan(ids)) && Sound(Draft(0, Nested(ids), Requests(ids), 0))
  {
    NestedEdges(ids);
  }

  /** Every way to the use of the token passes the login. */
  lemma LoginDominates(ids: Ids)
    ensures Dominates(Full(Nested(ids)), 0, 2, 4)
  {
    NestedEdges(ids);
    if ReachAvoiding(Full(Nested(ids)), 0, 4, 2) {
      ReachStaysIn(Full(Nested(ids)), {0, 1, 6}, 0, 4, 2);
    }
  }

  lemma TokenIsCovered(ids: Ids)
    ensures Sound(Draft(0, Nested(ids), Requests(ids), 0))
    ensures TemplatesCovered(Draft(0, Nested(ids), Requests(ids), 0), {})
  {
    PlanIsSound(ids);
    var q := Draft(0, Nested(ids), Requests(ids), 0);
    LoginDominates(ids);
    assert RequestAt(q, 2).captures[0].name == ids.token;
    assert Produces(q, 2, ids.token);
    forall x: nat, i: nat | IsRequest(q, x) && i < |RequestAt(q, x).templateNames|
      ensures TemplateCovered(q, {}, x, RequestAt(q, x).templateNames[i])
    {
      assert x == 4 && RequestAt(q, x).templateNames[i] == ids.token;
    }
  }

  lemma NestedIsSimple(ids: Ids)
    ensures ShortLoops(Nested(ids)) && OnlyRequests(Requests(ids))
  {
  }

  lemma NestedCompiles(ids: Ids)
    requires Collides(ids)
    ensures Unbound(Requests(ids), 0) && Compiles(Definition(ids), Requests(ids), 0, {}, Plan(ids))
  {
    hide Nested, Definition, Requests, StepIndex, RequestIndex, Collides, ResolvesTo, WellStructured;
    NestedIsSimple(ids);
    NestedResolves(ids);
    NestedIsStructured(ids);
    TokenIsCovered(ids);
    SimplePlanCompiles(Definition(ids), Requests(ids), {}, StepIndex(ids), RequestIndex(ids), 0, Nested(ids));
  }

  // ----- the run

  function NoData(): Data {
    Data(Vars(map[], map[], map[], map[], map[], []), [])
  }

  /** The login answers with a token; each branch takes its first route. */
  function Inputs(value: string): seq<IterationInput> {
    [ IterationInput(Respond(Response([], true, []), []), 0),
      IterationInput(Cancel, 0),
      IterationInput(Respond(Response([true], true, [Some(value)]), []), 0),
      IterationInput(Cancel, 0) ]
  }

  ghost function After(ids: Ids, value: string, n: nat): World
    requires n <= 4 && Sound(Plan(ids))
  {
    RunAll(Plan(ids), StartWorld(Plan(ids), NoData()), Inputs(value)[..n])
  }

  lemma AfterNext(ids: Ids, value: string, n: nat)
    requires n < 4 && Sound(Plan(ids)) && Active(After(ids, value, n))
    ensures After(ids, value, n + 1) == Transition(Plan(ids), After(ids, value, n), Inputs(value)[n])
  {
    assert Inputs(value)[..n + 1][..n] == Inputs(value)[..n];
    RunAllLast(Plan(ids), StartWorld(Plan(ids), NoData()), Inputs(value)[..n + 1]);
  }

  lemma FirstRoute(ids: Ids, b: nat)
    requires IsBranch(Nested(ids), b)
    ensures Nested(ids)[b].routes != [] && Nested(ids)[b].routeWeight == 2 && SelectRoute(Nested(ids)[b], 0) == 0
  {
    assert b == 0 || b == 1 || b == 2 || b == 3 || b == 4 || b == 5 || b == 6;
  }

  /** What the variables are once routes with these keys are being taken. */
  function Taken(ids: Ids, values: Values, frames: seq<string>): Vars {
    Vars(map[], map[], map[], map[ids.key := map[]], map[ids.key := values], frames)
  }

  lemma StartRuns(ids: Ids, value: string)
    ensures Sound(Plan(ids)) && Active(After(ids, value, 1)) && After(ids, value, 1).status.control.pc == 1
    ensures After(ids, value, 1).data.vars == NoData().vars && After(ids, value, 1).history.failed == {}
  {
    PlanIsSound(ids);
    AfterNext(ids, value, 0);
  }

  lemma OuterRouteRuns(ids: Ids, value: string)
    ensures Sound(Plan(ids)) && Active(After(ids, value, 2)) && After(ids, value, 2).status.control.pc == 2
    ensures After(ids, value, 2).data.vars == Taken(ids, map[], [ids.key]) && After(ids, value, 2).history.failed == {}
  {
    StartRuns(ids, value);
    FirstRoute(ids, 1);
    AfterNext(ids, value, 1);
    assert PushBranch(NoData().vars, ids.key) == Taken(ids, map[], [ids.key]);
  }

  lemma LoginCaptures(ids: Ids, value: string, v: Vars)
    requires v == Taken(ids, map[], [ids.key])
    ensures VarsAfter(Requests(ids)[1].request, v, Inputs(value)[2].effect)
         == Taken(ids, map[ids.token := value], [ids.key])
    ensures FailedNames(Requests(ids)[1].request, v, Inputs(value)[2].effect) == {}
  {
    var captures, response := Requests(ids)[1].request.captures, Inputs(value)[2].effect.response;
    assert EligiblePositions(v, captures, response, 0) == [];
    assert EligiblePositions(v, captures, response, 1) == [0];
    assert DropUnselected(v, captures, response, 0) == v;
    assert DropUnselected(v, captures, response, 1) == v;
    assert [0][..0] == [];
    assert SetAll(v, captures, response, []) == v;
    assert SetAll(v, captures, response, [0]) == Set(v, captures[0], value);
    assert map[ids.key := map[]][ids.key := map[ids.token := value]] == map[ids.key := map[ids.token := value]];
  }

  lemma LoginRuns(ids: Ids, value: string)
    ensures Sound(Plan(ids)) && Active(After(ids, value, 3)) && After(ids, value, 3).status.control.pc == 3
    ensures After(ids, value, 3).data.vars == Taken(ids, map[ids.token := value], [ids.key])
    ensures After(ids, value, 3).history.failed == {}
  {
    OuterRouteRuns(ids, value);
    AfterNext(ids, value, 2);
    LoginCaptures(ids, value, After(ids, value, 2).data.vars);
  }

  lemma InnerRouteRuns(ids: Ids, value: string)
    ensures Sound(Plan(ids)) && Active(After(ids, value, 4)) && After(ids, value, 4).status.control.pc == 4
    ensures After(ids, value, 4).data.vars == Taken(ids, map[], [ids.key, ids.key])
    ensures After(ids, value, 4).history.failed == {}
  {
    LoginRuns(ids, value);
    FirstRoute(ids, 3);
    AfterNext(ids, value, 3);
    assert PushBranch(Taken(ids, map[ids.token := value], [ids.key]), ids.key) == Taken(ids, map[], [ids.key, ids.key]);
  }

  lemma TokenIsLost(ids: Ids)
    ensures Taken(ids, map[], [ids.key, ids.key]).FramesStored()
    ensures Value(Taken(ids, map[], [ids.key, ids.key]), ids.token) == None
  {
    var v := Taken(ids, map[], [ids.key, ids.key]);
    assert FrameValue(v, ids.token, 0) == None;
    assert FrameValue(v, ids.token, 1) == None;
  }

  /** The request about to run lacks a name, and no capture has failed. */
  ghost predicate LacksName(p: Program, w: World)
    requires Consistent(p, w)
  {
    && Active(w) && IsRequest(p, w.status.control.pc) && w.history.failed == {}
    && !Renders(w.data.vars, RequestAt(p, w.status.control.pc).templateNames)
  }

  lemma RunLacksName(ids: Ids, value: string)
    ensures Sound(Plan(ids))
    ensures LacksName(Plan(ids), RunAll(Plan(ids), StartWorld(Plan(ids), NoData()), Inputs(value)))
  {
    assert Inputs(value)[..4] == Inputs(value);
    InnerRouteRuns(ids, value);
    TokenIsLost(ids);
    assert RequestAt(Plan(ids), 4).templateNames[0] == ids.token;
  }

  /** The plan compiles, no route is entered from outside and no capture fails,
      and yet a request does not find what a request before it on every path
      has captured. */
  ghost predicate CompilesButLoses(definition: PlanDefinition, scenario: seq<ScenarioStep>, p: Program,
                                   inputs: seq<IterationInput>)
    requires Unbound(scenario, 0) && Sound(p) && p.assertionCount == 0
  {
    && Compiles(definition, scenario, 0, {}, p)
    && NoForeignEntry(p.steps, p.entry) && !NestedKeysDistinct(p.steps)
    && LacksName(p, RunAll(p, StartWorld(p, NoData()), inputs))
  }

  /** With such ids, taking the inner route clears the token of the outer
      one. */
  lemma NestedKeysCollide(ids: Ids, value: string)
    requires Collides(ids)
    ensures Unbound(Requests(ids), 0) && Sound(Plan(ids))
    ensures CompilesButLoses(Definition(ids), Requests(ids), Plan(ids), Inputs(value))
  {
    hide Nested, Definition, Requests, Collides, Compiles, NoForeignEntry, NestedKeysDistinct, LacksName;
    RunLacksName(ids, value);
    NestedHasNoForeignEntry(ids);
    NestedKeysAreEqual(ids);
    NestedCompiles(ids);
  }

  /** There are such ids: routes "b:c" of branch "a" and "c" of branch "a:b". */
  lemma KeysCanCollide()
    ensures exists ids :: Collides(ids)
  {
    var ids := Ids("s", "a", "l", "a:b", "u", "i", "o", "b:c", "k", "c", "p", "a:b:c", "t");
    assert ScopeKey("a", "b:c") == "a:b:c" == ScopeKey("a:b", "c");
    assert Collides(ids);
  }
}
