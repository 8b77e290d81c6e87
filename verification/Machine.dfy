/** The control part of one planned iteration: program counter, loop counters
    and the stack of active routes, as a function of the step outcomes and of
    the numbers that choose routes.  `Run` is the guard-free machine; the
    transition bound is proved about it elsewhere. */
module Machine {
  import opened Walks
  import opened ExecutionPlan

  datatype StepOutcome = Continue | StopIteration | Canceled

  /** What the environment supplies to one transition: the outcome of a
      scenario step and the hash value that picks a route. */
  datatype Input = Input(outcome: StepOutcome, selection: nat)

  datatype ActiveRoute = ActiveRoute(join: nat, metricsIndex: nat)

  datatype Control = Control(pc: int, loopIterations: seq<nat>, activeRoutes: seq<ActiveRoute>)

  datatype Status =
    | Running(control: Control)
    | Stopped
    | Cancelled
    | JoinMismatch(join: nat)

  function Start(steps: seq<Step>, entry: nat): Control {
    Control(entry, seq(|steps|, _ => 0), [])
  }

  // ----- weighted route selection

  function WeightBefore(routes: seq<Route>, k: nat): nat
    requires k <= |routes|
  {
    if k == 0 then 0 else WeightBefore(routes, k - 1) + routes[k - 1].weight
  }

  /** Subtract weights until the selection falls below one. */
  function SelectFrom(routes: seq<Route>, selection: nat, k: nat): (r: nat)
    requires k < |routes|
    ensures k <= r < |routes|
    decreases |routes| - k
  {
    if selection < routes[k].weight || k == |routes| - 1 then k
    else SelectFrom(routes, selection - routes[k].weight, k + 1)
  }

  function SelectRoute(step: Step, selection: nat): (r: nat)
    requires step.Branch? && step.routes != [] && step.routeWeight > 0
    ensures r < |step.routes|
  {
    SelectFrom(step.routes, selection % step.routeWeight, 0)
  }

  lemma {:induction false} TotalWeight(routes: seq<Route>, total: nat)
    requires SumsTo(routes, total)
    ensures WeightBefore(routes, |routes|) == total
  {
    if routes != [] {
      var last := |routes| - 1;
      TotalWeight(routes[..last], total - routes[last].weight);
      WeightOfPrefix(routes, last, last);
    }
  }

  lemma {:induction false} WeightOfPrefix(routes: seq<Route>, n: nat, k: nat)
    requires k <= n <= |routes|
    ensures WeightBefore(routes[..n], k) == WeightBefore(routes, k)
  {
    if k > 0 {
      WeightOfPrefix(routes, n, k - 1);
    }
  }

  lemma {:induction false} WeightsIncrease(routes: seq<Route>, j: nat, k: nat)
    requires j <= k <= |routes|
    ensures WeightBefore(routes, j) <= WeightBefore(routes, k)
  {
    if j < k {
      WeightsIncrease(routes, j, k - 1);
    }
  }

  lemma {:induction false} SelectFromInterval(routes: seq<Route>, selection: nat, k: nat)
    requires k < |routes| && selection + WeightBefore(routes, k) < WeightBefore(routes, |routes|)
    ensures var r := SelectFrom(routes, selection, k);
            WeightBefore(routes, r) <= selection + WeightBefore(routes, k) < WeightBefore(routes, r + 1)
    decreases |routes| - k
  {
    if selection >= routes[k].weight && k < |routes| - 1 {
      SelectFromInterval(routes, selection - routes[k].weight, k + 1);
    }
  }

  lemma SelectionInterval(routes: seq<Route>, x: nat, k: nat)
    requires k < |routes| && x < WeightBefore(routes, |routes|)
    ensures SelectFrom(routes, x, 0) == k <==>
            WeightBefore(routes, k) <= x < WeightBefore(routes, k) + routes[k].weight
  {
    SelectFromInterval(routes, x, 0);
    var r := SelectFrom(routes, x, 0);
    if r < k {
      WeightsIncrease(routes, r + 1, k);
    } else if k < r {
      WeightsIncrease(routes, k + 1, r);
    }
  }

  /** Route k is chosen exactly when the residue of the hash value lies in the
      k-th interval of the cumulated weights, whose length is its weight. */
  lemma SelectionIsProportional(step: Step, selection: nat, k: nat)
    requires step.Branch? && step.routes != [] && step.routeWeight > 0 && SumsTo(step.routes, step.routeWeight)
    requires k < |step.routes|
    ensures SelectRoute(step, selection) == k <==>
            WeightBefore(step.routes, k) <= selection % step.routeWeight
            < WeightBefore(step.routes, k) + step.routes[k].weight
  {
    TotalWeight(step.routes, step.routeWeight);
    SelectionInterval(step.routes, selection % step.routeWeight, k);
  }

  lemma SmallResidue(x: nat, m: nat)
    requires x < m
    ensures x % m == x
  {
  }

  /** Every route of a resolved branch is chosen by some hash value. */
  lemma EveryRouteSelectable(steps: seq<Step>, b: nat, k: nat)
    requires Resolved(steps) && IsRoute(steps, b, k)
    ensures steps[b].routeWeight > 0
    ensures SelectRoute(steps[b], WeightBefore(steps[b].routes, k)) == k
  {
    assert StepResolved(steps, b);
    var routes := steps[b].routes;
    TotalWeight(routes, steps[b].routeWeight);
    WeightsIncrease(routes, k + 1, |routes|);
    SmallResidue(WeightBefore(routes, k), steps[b].routeWeight);
    SelectionInterval(routes, WeightBefore(routes, k), k);
  }

  // ----- one transition

  predicate OnPlan(steps: seq<Step>, c: Control) {
    && c.pc < |steps|
    && |c.loopIterations| == |steps|
  }

  lemma BranchWeight(steps: seq<Step>, b: nat)
    requires Resolved(steps) && IsBranch(steps, b)
    ensures steps[b].routes != [] && steps[b].routeWeight > 0
  {
    EveryRouteSelectable(steps, b, 0) by {
      assert StepResolved(steps, b);
    }
  }

  function Next(steps: seq<Step>, c: Control, input: Input): (s: Status)
    requires Resolved(steps) && OnPlan(steps, c) && c.pc >= 0
    ensures s.Running? ==> OnPlan(steps, s.control)
  {
    assert StepResolved(steps, c.pc);
    match steps[c.pc]
    case Scenario(_, _, next) =>
      (match input.outcome
       case Canceled => Cancelled
       case StopIteration => Stopped
       case Continue => Running(c.(pc := next)))
    case Branch(_, routes, _, join) =>
      BranchWeight(steps, c.pc);
      var route := routes[SelectRoute(steps[c.pc], input.selection)];
      Running(c.(pc := route.target,
                 activeRoutes := c.activeRoutes + [ActiveRoute(join, route.metricsIndex)]))
    case Join(_, next) =>
      var top := |c.activeRoutes| - 1;
      if top < 0 || c.activeRoutes[top].join != c.pc then JoinMismatch(c.pc)
      else Running(c.(pc := next, activeRoutes := c.activeRoutes[..top]))
    case Loop(_, body, exit, maxIterations) =>
      if c.loopIterations[c.pc] < maxIterations then
        Running(c.(pc := body, loopIterations := c.loopIterations[c.pc := c.loopIterations[c.pc] + 1]))
      else
        Running(c.(pc := exit, loopIterations := c.loopIterations[c.pc := 0]))
  }

  /** The status after feeding the inputs in order; a run that has ended, by a
      status or by a negative program counter, ignores the rest. */
  function Run(steps: seq<Step>, s: Status, inputs: seq<Input>): (r: Status)
    requires Resolved(steps) && (s.Running? ==> OnPlan(steps, s.control))
    ensures r.Running? ==> OnPlan(steps, r.control)
    decreases |inputs|
  {
    if inputs == [] || !s.Running? || s.control.pc < 0 then s
    else Run(steps, Next(steps, s.control, inputs[0]), inputs[1..])
  }

  /** Some transition is still to be executed after all the inputs. */
  predicate Pending(steps: seq<Step>, entry: nat, inputs: seq<Input>)
    requires Resolved(steps) && entry < |steps|
  {
    var s := Run(steps, Running(Start(steps, entry)), inputs);
    s.Running? && s.control.pc >= 0
  }

  lemma {:induction false} RunAppend(steps: seq<Step>, s: Status, first: seq<Input>, second: seq<Input>)
    requires Resolved(steps) && (s.Running? ==> OnPlan(steps, s.control))
    ensures Run(steps, s, first + second) == Run(steps, Run(steps, s, first), second)
    decreases |first|
  {
    if first == [] {
      assert first + second == second;
    } else if s.Running? && s.control.pc >= 0 {
      assert (first + second)[1..] == first[1..] + second;
      RunAppend(steps, Next(steps, s.control, first[0]), first[1..], second);
    }
  }

  /** A run taken one transition further. */
  lemma RunLast(steps: seq<Step>, s: Status, inputs: seq<Input>)
    requires Resolved(steps) && (s.Running? ==> OnPlan(steps, s.control)) && inputs != []
    ensures var before := Run(steps, s, inputs[..|inputs| - 1]);
            Run(steps, s, inputs) ==
            if before.Running? && before.control.pc >= 0
            then Next(steps, before.control, inputs[|inputs| - 1]) else before
  {
    var last := |inputs| - 1;
    assert inputs == inputs[..last] + [inputs[last]];
    RunAppend(steps, s, inputs[..last], [inputs[last]]);
    var before := Run(steps, s, inputs[..last]);
    if before.Running? && before.control.pc >= 0 {
      var next := Next(steps, before.control, inputs[last]);
      assert Run(steps, next, []) == next;
    }
  }

  /** The transition follows an edge of the full graph. */
  lemma NextFollowsEdge(steps: seq<Step>, c: Control, input: Input)
    requires Resolved(steps) && OnPlan(steps, c) && c.pc >= 0
    requires Next(steps, c, input).Running? && Next(steps, c, input).control.pc >= 0
    ensures Edge(Full(steps), c.pc, Next(steps, c, input).control.pc)
  {
    assert StepResolved(steps, c.pc);
    if steps[c.pc].Branch? {
      BranchWeight(steps, c.pc);
      var k := SelectRoute(steps[c.pc], input.selection);
      assert RouteTargets(steps[c.pc].routes)[k] == Target(steps, c.pc, k);
    }
  }
}
