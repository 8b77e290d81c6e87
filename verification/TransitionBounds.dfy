/** The static transition bound is never reached while work remains, whatever
    the outcomes and the routes. */
module TransitionBounds {
  import opened Walks
  import opened ExecutionPlan
  import opened Regions
  import opened Machine
  import GraphSearch

  ghost function Ahead(steps: seq<Step>, v: nat): (s: set<nat>) {
    set x: nat | x < |steps| && Reach(Reduced(steps), v, x)
  }

  lemma {:induction false} CostMonotone(steps: seq<Step>, small: set<nat>, large: set<nat>, n: nat)
    requires n <= |steps| && small <= large
    ensures CostWithin(steps, small, n) <= CostWithin(steps, large, n)
  {
    if n > 0 {
      CostMonotone(steps, small, large, n - 1);
    }
  }

  lemma {:induction false} CostDrops(steps: seq<Step>, small: set<nat>, large: set<nat>, u: nat, n: nat)
    requires u < n <= |steps| && small <= large && u in large && u !in small
    ensures CostWithin(steps, small, n) + StepCost(steps, u) <= CostWithin(steps, large, n)
  {
    if u == n - 1 {
      CostMonotone(steps, small, large, n - 1);
    } else {
      CostDrops(steps, small, large, u, n - 1);
    }
  }

  lemma AheadShrinks(steps: seq<Step>, u: nat, v: nat)
    requires Resolved(steps) && LoopsBounded(steps) && Edge(Reduced(steps), u, v)
    ensures v < |steps| && Ahead(steps, v) <= Ahead(steps, u)
    ensures u in Ahead(steps, u) && u !in Ahead(steps, v)
  {
    GraphsWellFormed(steps);
    EdgeBound(Reduced(steps), u, v);
    ReachSelf(Reduced(steps), u, -1);
    forall x | x in Ahead(steps, v)
      ensures x in Ahead(steps, u)
    {
      ThenReach(Reduced(steps), u, v, x, -1);
    }
  }

  predicate AllZero(loopIterations: seq<nat>) {
    forall i | 0 <= i < |loopIterations| :: loopIterations[i] == 0
  }

  /** Outside every loop round. */
  ghost predicate OnMainPath(steps: seq<Step>, c: Control) {
    AllZero(c.loopIterations)
  }

  /** In a round of loop l, or back at l after some rounds. */
  ghost predicate InRound(steps: seq<Step>, c: Control, l: nat)
    requires OnPlan(steps, c) && IsLoop(steps, l)
  {
    && 0 < c.loopIterations[l] <= steps[l].maxIterations
    && AllZero(c.loopIterations[l := 0])
    && c.pc >= 0 && (c.pc == l || InBody(steps, l, c.pc))
  }

  ghost function RoundCost(steps: seq<Step>, c: Control, l: nat): int
    requires OnPlan(steps, c) && c.pc >= 0 && IsLoop(steps, l)
  {
    |Ahead(steps, c.pc) * BodyRegion(steps, l)| + CostWithin(steps, Ahead(steps, l), |steps|)
    - c.loopIterations[l] * (|BodyRegion(steps, l)| + 1)
  }

  ghost predicate RoundAffordable(steps: seq<Step>, c: Control, l: nat, budget: int)
    requires OnPlan(steps, c) && c.pc >= 0
  {
    IsLoop(steps, l) && InRound(steps, c, l) && RoundCost(steps, c, l) <= budget
  }

  /** At most `budget` further transitions can run. */
  ghost predicate WithinBudget(steps: seq<Step>, c: Control, budget: int)
    requires OnPlan(steps, c) && c.pc >= 0
  {
    || (OnMainPath(steps, c) && CostWithin(steps, Ahead(steps, c.pc), |steps|) <= budget)
    || (exists l: nat {:trigger RoundAffordable(steps, c, l, budget)} :: RoundAffordable(steps, c, l, budget))
  }

  lemma LoopCost(steps: seq<Step>, l: nat, iterations: nat)
    requires Resolved(steps) && IsLoop(steps, l) && iterations <= steps[l].maxIterations
    ensures iterations * (|BodyRegion(steps, l)| + 1) + 1 <= StepCost(steps, l)
  {
    var size := |BodyRegion(steps, l)| + 1;
    assert (steps[l].maxIterations - iterations) * size >= 0;
  }

  lemma BudgetPositive(steps: seq<Step>, c: Control, budget: int)
    requires Resolved(steps) && LoopsBounded(steps) && OnPlan(steps, c) && c.pc >= 0
    requires WithinBudget(steps, c, budget)
    ensures budget >= 1
  {
    if OnMainPath(steps, c) && CostWithin(steps, Ahead(steps, c.pc), |steps|) <= budget {
      ReachSelf(Reduced(steps), c.pc, -1);
      CostDrops(steps, {}, Ahead(steps, c.pc), c.pc, |steps|);
    } else {
      var l: nat :| RoundAffordable(steps, c, l, budget);
      ReachSelf(Reduced(steps), l, -1);
      CostDrops(steps, {}, Ahead(steps, l), l, |steps|);
      LoopCost(steps, l, c.loopIterations[l]);
    }
  }

  lemma PlainNext(steps: seq<Step>, c: Control, input: Input)
    requires Resolved(steps) && OnPlan(steps, c) && c.pc >= 0 && !steps[c.pc].Loop?
    requires Next(steps, c, input).Running? && Next(steps, c, input).control.pc >= 0
    ensures Next(steps, c, input).control.loopIterations == c.loopIterations
    ensures Edge(Reduced(steps), c.pc, Next(steps, c, input).control.pc)
  {
    NextFollowsEdge(steps, c, input);
    FullEdge(steps, c.pc, Next(steps, c, input).control.pc);
  }

  lemma RoundStepSpends(steps: seq<Step>, c: Control, d: Control, l: nat)
    requires Resolved(steps) && LoopsBounded(steps) && OnPlan(steps, c) && OnPlan(steps, d) && IsLoop(steps, l)
    requires InRound(steps, c, l) && c.pc != l && d.pc >= 0
    requires d.loopIterations == c.loopIterations && Edge(Reduced(steps), c.pc, d.pc)
    ensures InRound(steps, d, l) && RoundCost(steps, d, l) < RoundCost(steps, c, l)
  {
    AheadShrinks(steps, c.pc, d.pc);
    BodyStep(steps, l, c.pc, d.pc);
    assert c.pc in BodyRegion(steps, l);
    assert c.pc !in Ahead(steps, d.pc) * BodyRegion(steps, l);
    GraphSearch.SubsetSize(Ahead(steps, d.pc) * BodyRegion(steps, l), Ahead(steps, c.pc) * BodyRegion(steps, l));
  }

  /** A transition from a step that is not a loop. */
  lemma PlainStepSpends(steps: seq<Step>, c: Control, input: Input, budget: int)
    requires Resolved(steps) && LoopsBounded(steps) && OnPlan(steps, c) && c.pc >= 0
    requires !steps[c.pc].Loop? && WithinBudget(steps, c, budget)
    requires Next(steps, c, input).Running? && Next(steps, c, input).control.pc >= 0
    ensures WithinBudget(steps, Next(steps, c, input).control, budget - 1)
  {
    PlainNext(steps, c, input);
    PlainSpends(steps, c, Next(steps, c, input).control, budget);
  }

  lemma PlainSpends(steps: seq<Step>, c: Control, d: Control, budget: int)
    requires Resolved(steps) && LoopsBounded(steps) && OnPlan(steps, c) && OnPlan(steps, d)
    requires c.pc >= 0 && d.pc >= 0 && !steps[c.pc].Loop? && WithinBudget(steps, c, budget)
    requires d.loopIterations == c.loopIterations && Edge(Reduced(steps), c.pc, d.pc)
    ensures WithinBudget(steps, d, budget - 1)
  {
    if OnMainPath(steps, c) && CostWithin(steps, Ahead(steps, c.pc), |steps|) <= budget {
      AheadShrinks(steps, c.pc, d.pc);
      CostDrops(steps, Ahead(steps, d.pc), Ahead(steps, c.pc), c.pc, |steps|);
    } else {
      var l: nat :| RoundAffordable(steps, c, l, budget);
      RoundStepSpends(steps, c, d, l);
      assert RoundAffordable(steps, d, l, budget - 1);
    }
  }

  /** The cost of standing at loop l after some rounds. */
  lemma AtLoop(steps: seq<Step>, c: Control, l: nat, budget: int)
    requires Resolved(steps) && LoopsBounded(steps) && OnPlan(steps, c) && IsLoop(steps, l) && c.pc == l
    requires WithinBudget(steps, c, budget)
    ensures AllZero(c.loopIterations[l := 0]) && c.loopIterations[l] <= steps[l].maxIterations
    ensures CostWithin(steps, Ahead(steps, l), |steps|) - c.loopIterations[l] * (|BodyRegion(steps, l)| + 1) <= budget
  {
    if !(OnMainPath(steps, c) && CostWithin(steps, Ahead(steps, c.pc), |steps|) <= budget) {
      var k: nat :| RoundAffordable(steps, c, k, budget);
      if k != l {
        BodyLeadsBack(steps, k, l);
      }
    }
  }

  lemma EnterBodySpends(steps: seq<Step>, c: Control, d: Control, l: nat, budget: int)
    requires Resolved(steps) && LoopsBounded(steps) && OnPlan(steps, c) && OnPlan(steps, d) && IsLoop(steps, l)
    requires AllZero(c.loopIterations[l := 0]) && c.loopIterations[l] < steps[l].maxIterations
    requires CostWithin(steps, Ahead(steps, l), |steps|) - c.loopIterations[l] * (|BodyRegion(steps, l)| + 1) <= budget
    requires d.pc == steps[l].body && d.loopIterations == c.loopIterations[l := c.loopIterations[l] + 1]
    ensures WithinBudget(steps, d, budget - 1)
  {
    var size := |BodyRegion(steps, l)| + 1;
    assert d.loopIterations[l := 0] == c.loopIterations[l := 0];
    assert StepResolved(steps, l);
    if d.pc != l {
      ReachSelf(Reduced(steps), d.pc, l);
    }
    GraphSearch.SubsetSize(Ahead(steps, d.pc) * BodyRegion(steps, l), BodyRegion(steps, l));
    assert (c.loopIterations[l] + 1) * size == c.loopIterations[l] * size + size;
    assert RoundAffordable(steps, d, l, budget - 1);
  }

  lemma LeaveLoopSpends(steps: seq<Step>, c: Control, d: Control, l: nat, budget: int)
    requires Resolved(steps) && LoopsBounded(steps) && OnPlan(steps, c) && OnPlan(steps, d) && IsLoop(steps, l)
    requires AllZero(c.loopIterations[l := 0]) && c.loopIterations[l] == steps[l].maxIterations
    requires CostWithin(steps, Ahead(steps, l), |steps|) - c.loopIterations[l] * (|BodyRegion(steps, l)| + 1) <= budget
    requires d.pc >= 0 && d.pc == steps[l].exit && d.loopIterations == c.loopIterations[l := 0]
    ensures WithinBudget(steps, d, budget - 1)
  {
    LoopEdge(steps, l, d.pc);
    AheadShrinks(steps, l, d.pc);
    CostDrops(steps, Ahead(steps, d.pc), Ahead(steps, l), l, |steps|);
    LoopCost(steps, l, c.loopIterations[l]);
  }

  /** What the loop step at c.pc does to the control state. */
  predicate LoopTransition(steps: seq<Step>, c: Control, d: Control)
    requires OnPlan(steps, c) && IsLoop(steps, c.pc)
  {
    var l: nat := c.pc;
    if c.loopIterations[l] < steps[l].maxIterations
    then d.pc == steps[l].body && d.loopIterations == c.loopIterations[l := c.loopIterations[l] + 1]
    else d.pc == steps[l].exit && d.loopIterations == c.loopIterations[l := 0]
  }

  lemma LoopNext(steps: seq<Step>, c: Control, input: Input)
    requires Resolved(steps) && OnPlan(steps, c) && IsLoop(steps, c.pc)
    ensures Next(steps, c, input).Running? && OnPlan(steps, Next(steps, c, input).control)
    ensures LoopTransition(steps, c, Next(steps, c, input).control)
  {
    assert StepResolved(steps, c.pc);
  }

  lemma {:induction false} NextRound(steps: seq<Step>, c: Control, d: Control, l: nat, budget: int)
    requires Resolved(steps) && LoopsBounded(steps) && OnPlan(steps, c) && OnPlan(steps, d) && IsLoop(steps, l)
    requires c.pc == l && c.loopIterations[l] < steps[l].maxIterations && WithinBudget(steps, c, budget)
    requires d.pc == steps[l].body && d.loopIterations == c.loopIterations[l := c.loopIterations[l] + 1]
    ensures WithinBudget(steps, d, budget - 1)
  {
    AtLoop(steps, c, l, budget);
    EnterBodySpends(steps, c, d, l, budget);
  }

  lemma {:induction false} AfterRounds(steps: seq<Step>, c: Control, d: Control, l: nat, budget: int)
    requires Resolved(steps) && LoopsBounded(steps) && OnPlan(steps, c) && OnPlan(steps, d) && IsLoop(steps, l)
    requires c.pc == l && c.loopIterations[l] >= steps[l].maxIterations && WithinBudget(steps, c, budget)
    requires d.pc >= 0 && d.pc == steps[l].exit && d.loopIterations == c.loopIterations[l := 0]
    ensures WithinBudget(steps, d, budget - 1)
  {
    AtLoop(steps, c, l, budget);
    LeaveLoopSpends(steps, c, d, l, budget);
  }

  lemma {:induction false} LoopStepSpends(steps: seq<Step>, c: Control, input: Input, budget: int)
    requires Resolved(steps) && LoopsBounded(steps) && OnPlan(steps, c) && IsLoop(steps, c.pc)
    requires WithinBudget(steps, c, budget)
    requires Next(steps, c, input).Running? && Next(steps, c, input).control.pc >= 0
    ensures WithinBudget(steps, Next(steps, c, input).control, budget - 1)
  {
    hide Next, WithinBudget, LoopsBounded;
    var d, l: nat := Next(steps, c, input).control, c.pc;
    LoopNext(steps, c, input);
    if c.loopIterations[l] < steps[l].maxIterations {
      NextRound(steps, c, d, l, budget);
    } else {
      AfterRounds(steps, c, d, l, budget);
    }
  }

  lemma {:induction false} StepSpends(steps: seq<Step>, c: Control, input: Input, budget: int)
    requires Resolved(steps) && LoopsBounded(steps) && OnPlan(steps, c) && c.pc >= 0
    requires WithinBudget(steps, c, budget)
    requires Next(steps, c, input).Running? && Next(steps, c, input).control.pc >= 0
    ensures WithinBudget(steps, Next(steps, c, input).control, budget - 1)
  {
    if steps[c.pc].Loop? {
      LoopStepSpends(steps, c, input, budget);
    } else {
      PlainStepSpends(steps, c, input, budget);
    }
  }

  lemma StartAffordable(steps: seq<Step>, entry: nat)
    requires Resolved(steps) && entry < |steps|
    ensures WithinBudget(steps, Start(steps, entry), TransitionBound(steps))
  {
    CostMonotone(steps, Ahead(steps, entry), Nodes(|steps|), |steps|);
  }

  /** A pending run was pending before its last transition. */
  lemma PendingBefore(steps: seq<Step>, entry: nat, inputs: seq<Input>) returns (c: Control)
    requires Resolved(steps) && entry < |steps| && inputs != [] && Pending(steps, entry, inputs)
    ensures var last := |inputs| - 1;
            && Pending(steps, entry, inputs[..last])
            && Run(steps, Running(Start(steps, entry)), inputs[..last]) == Running(c)
            && OnPlan(steps, c) && c.pc >= 0
            && Run(steps, Running(Start(steps, entry)), inputs) == Next(steps, c, inputs[last])
  {
    RunLast(steps, Running(Start(steps, entry)), inputs);
    c := Run(steps, Running(Start(steps, entry)), inputs[..|inputs| - 1]).control;
  }

  lemma SpendOne(steps: seq<Step>, c: Control, input: Input, left: int) returns (d: Control)
    requires Resolved(steps) && LoopsBounded(steps) && OnPlan(steps, c) && c.pc >= 0
    requires WithinBudget(steps, c, left + 1)
    requires Next(steps, c, input).Running? && Next(steps, c, input).control.pc >= 0
    ensures Next(steps, c, input) == Running(d) && OnPlan(steps, d) && d.pc >= 0
    ensures WithinBudget(steps, d, left)
  {
    StepSpends(steps, c, input, left + 1);
    d := Next(steps, c, input).control;
  }

  /** Every transition takes one from what is left. */
  lemma {:induction false} RunSpends(steps: seq<Step>, entry: nat, inputs: seq<Input>, left: int) returns (c: Control)
    requires Resolved(steps) && LoopsBounded(steps) && entry < |steps|
    requires WithinBudget(steps, Start(steps, entry), left + |inputs|) && Pending(steps, entry, inputs)
    ensures Run(steps, Running(Start(steps, entry)), inputs) == Running(c) && OnPlan(steps, c) && c.pc >= 0
    ensures WithinBudget(steps, c, left)
    decreases |inputs|
  {
    if inputs == [] {
      c := Start(steps, entry);
      assert left + |inputs| == left;
    } else {
      var shorter := inputs[..|inputs| - 1];
      assert left + |inputs| == left + 1 + |shorter|;
      var before := PendingBefore(steps, entry, inputs);
      var b := RunSpends(steps, entry, shorter, left + 1);
      c := SpendOne(steps, before, inputs[|inputs| - 1], left);
    }
  }

  /** While a transition is still to be executed, fewer than the bound have
      been: the guard of the loop never ends an iteration. */
  lemma GuardNeverTruncates(steps: seq<Step>, entry: nat, inputs: seq<Input>)
    requires Resolved(steps) && LoopsBounded(steps) && entry < |steps|
    requires Pending(steps, entry, inputs)
    ensures |inputs| < TransitionBound(steps)
  {
    hide WithinBudget, Resolved, LoopsBounded, OnPlan, TransitionBound, Run;
    StartAffordable(steps, entry);
    var c := RunSpends(steps, entry, inputs, TransitionBound(steps) - |inputs|);
    BudgetPositive(steps, c, TransitionBound(steps) - |inputs|);
  }
}
