/** The condition of the join discipline is necessary: a plan with a foreign
    entry has a run that a join mismatch ends, although each branch takes the
    same route whenever it runs. */
module ForeignEntry {
  import opened Walks
  import opened ExecutionPlan
  import opened Regions
  import opened Machine
  import opened JoinDiscipline
  import opened TransitionBounds

  // ----- runs in which each branch keeps its route

  /** One number for each branch decides its route for the whole iteration. */
  type Choice = seq<nat>

  predicate TakesChosen(steps: seq<Step>, c: Control, choice: Choice, input: Input)
    requires |choice| == |steps|
  {
    IsBranch(steps, c.pc) ==> input.selection == choice[c.pc]
  }

  predicate Chosen(steps: seq<Step>, s: Status, choice: Choice, inputs: seq<Input>)
    requires Resolved(steps) && (s.Running? ==> OnPlan(steps, s.control)) && |choice| == |steps|
    decreases |inputs|
  {
    inputs == [] || !s.Running? || s.control.pc < 0
    || (TakesChosen(steps, s.control, choice, inputs[0])
        && Chosen(steps, Next(steps, s.control, inputs[0]), choice, inputs[1..]))
  }

  lemma {:induction false} ChosenAppend(steps: seq<Step>, s: Status, choice: Choice, first: seq<Input>,
                                        second: seq<Input>)
    requires Resolved(steps) && (s.Running? ==> OnPlan(steps, s.control)) && |choice| == |steps|
    requires Chosen(steps, s, choice, first) && Chosen(steps, Run(steps, s, first), choice, second)
    ensures Chosen(steps, s, choice, first + second)
    decreases |first|
  {
    if first == [] {
      assert first + second == second;
    } else if s.Running? && s.control.pc >= 0 {
      assert (first + second)[1..] == first[1..] + second;
      ChosenAppend(steps, Next(steps, s.control, first[0]), choice, first[1..], second);
    }
  }

  ghost predicate LeadsBy(steps: seq<Step>, choice: Choice, c: Control, d: Control, inputs: seq<Input>)
    requires Resolved(steps) && OnPlan(steps, c) && |choice| == |steps|
  {
    Chosen(steps, Running(c), choice, inputs) && Run(steps, Running(c), inputs) == Running(d)
  }

  ghost predicate Leads(steps: seq<Step>, choice: Choice, c: Control, d: Control)
    requires Resolved(steps) && OnPlan(steps, c) && |choice| == |steps|
  {
    exists inputs :: LeadsBy(steps, choice, c, d, inputs)
  }

  /** The run on these inputs is ended by a join that does not match. */
  predicate EndsInMismatch(steps: seq<Step>, c: Control, inputs: seq<Input>)
    requires Resolved(steps) && OnPlan(steps, c)
  {
    Run(steps, Running(c), inputs).JoinMismatch?
  }

  predicate MismatchBy(steps: seq<Step>, choice: Choice, c: Control, inputs: seq<Input>)
    requires Resolved(steps) && OnPlan(steps, c) && |choice| == |steps|
  {
    Chosen(steps, Running(c), choice, inputs) && EndsInMismatch(steps, c, inputs)
  }

  ghost predicate CanMismatch(steps: seq<Step>, choice: Choice, c: Control)
    requires Resolved(steps) && OnPlan(steps, c) && |choice| == |steps|
  {
    exists inputs :: MismatchBy(steps, choice, c, inputs)
  }

  lemma LeadsSelf(steps: seq<Step>, choice: Choice, c: Control)
    requires Resolved(steps) && OnPlan(steps, c) && |choice| == |steps|
    ensures Leads(steps, choice, c, c)
  {
    assert LeadsBy(steps, choice, c, c, []);
  }

  lemma LeadsThen(steps: seq<Step>, choice: Choice, c: Control, d: Control, e: Control)
    requires Resolved(steps) && OnPlan(steps, c) && OnPlan(steps, d) && |choice| == |steps|
    requires Leads(steps, choice, c, d) && Leads(steps, choice, d, e)
    ensures Leads(steps, choice, c, e)
  {
    var first :| LeadsBy(steps, choice, c, d, first);
    var second :| LeadsBy(steps, choice, d, e, second);
    RunAppend(steps, Running(c), first, second);
    ChosenAppend(steps, Running(c), choice, first, second);
    assert LeadsBy(steps, choice, c, e, first + second);
  }

  lemma LeadsOn(steps: seq<Step>, choice: Choice, c: Control, d: Control)
    requires Resolved(steps) && OnPlan(steps, c) && |choice| == |steps| && Leads(steps, choice, c, d)
    ensures OnPlan(steps, d)
    ensures CanMismatch(steps, choice, d) ==> CanMismatch(steps, choice, c)
    ensures forall e | Leads(steps, choice, d, e) :: Leads(steps, choice, c, e)
  {
    var first :| LeadsBy(steps, choice, c, d, first);
    if CanMismatch(steps, choice, d) {
      var second :| MismatchBy(steps, choice, d, second);
      RunAppend(steps, Running(c), first, second);
      ChosenAppend(steps, Running(c), choice, first, second);
      assert MismatchBy(steps, choice, c, first + second);
    }
    forall e | Leads(steps, choice, d, e)
      ensures Leads(steps, choice, c, e)
    {
      LeadsThen(steps, choice, c, d, e);
    }
  }

  /** Nothing stops the iteration, and a branch takes its route. */
  function InputAt(steps: seq<Step>, choice: Choice, c: Control): Input
    requires |choice| == |steps|
  {
    Input(Continue, if IsBranch(steps, c.pc) then choice[c.pc] else 0)
  }

  lemma OneTransition(steps: seq<Step>, choice: Choice, c: Control)
    requires Resolved(steps) && OnPlan(steps, c) && |choice| == |steps| && c.pc >= 0
    ensures var s := Next(steps, c, InputAt(steps, choice, c));
            && (s.Running? ==> Leads(steps, choice, c, s.control))
            && (s.JoinMismatch? ==> CanMismatch(steps, choice, c))
  {
    var input := InputAt(steps, choice, c);
    var s := Next(steps, c, input);
    assert Run(steps, s, []) == s;
    assert Run(steps, Running(c), [input]) == s;
    assert Chosen(steps, s, choice, []);
    assert Chosen(steps, Running(c), choice, [input]);
    if s.Running? {
      assert LeadsBy(steps, choice, c, s.control, [input]);
    }
    assert MismatchBy(steps, choice, c, [input]) <==> s.JoinMismatch?;
  }

  /** No route of branch x is being taken; x is -1 when nothing is asked. */
  ghost predicate NoFrameOf(steps: seq<Step>, c: Control, x: int) {
    IsBranch(steps, x) ==> forall i | 0 <= i < |c.activeRoutes| :: c.activeRoutes[i].join != steps[x].join
  }

  ghost predicate CountersOk(steps: seq<Step>, c: Control) {
    OnPlan(steps, c) && forall l: nat | IsLoop(steps, l) :: c.loopIterations[l] <= steps[l].maxIterations
  }

  ghost predicate Ready(steps: seq<Step>, choice: Choice, c: Control) {
    && Resolved(steps) && LoopsBounded(steps) && BranchesStructured(steps)
    && |choice| == |steps| && CountersOk(steps, c) && c.pc >= 0
  }

  /** The route that branch b takes. */
  function Taken(steps: seq<Step>, choice: Choice, b: nat): (k: nat)
    requires Resolved(steps) && IsBranch(steps, b) && |choice| == |steps|
    ensures IsRoute(steps, b, k)
  {
    BranchWeight(steps, b);
    SelectRoute(steps[b], choice[b])
  }

  /** A step that is not a loop and leads anywhere leads on: a branch to the
      target of its route, another step to its only successor. */
  lemma Move(steps: seq<Step>, choice: Choice, c: Control, z: nat, x: int) returns (d: Control)
    requires Ready(steps, choice, c) && !steps[c.pc].Loop? && c.pc != x
    requires Reach(Reduced(steps), c.pc, z) && c.pc != z
    ensures CanMismatch(steps, choice, c) ||
            (Leads(steps, choice, c, d) && CountersOk(steps, d) && d.pc >= 0 && Edge(Reduced(steps), c.pc, d.pc))
    ensures CanMismatch(steps, choice, c) ||
            (d.loopIterations == c.loopIterations && (NoFrameOf(steps, c, x) ==> NoFrameOf(steps, d, x)))
    ensures CanMismatch(steps, choice, c) ||
            if steps[c.pc].Branch? then d.pc == Target(steps, c.pc, Taken(steps, choice, c.pc))
            else forall v: nat | Edge(Reduced(steps), c.pc, v) :: v == d.pc
    ensures CanMismatch(steps, choice, c) ||
            (steps[c.pc].Join? ==> c.activeRoutes != [] && c.activeRoutes[|c.activeRoutes| - 1].join == c.pc
                                   && d.activeRoutes == c.activeRoutes[..|c.activeRoutes| - 1])
  {
    ReachFirst(Reduced(steps), c.pc, z, -1);
    OneTransition(steps, choice, c);
    var s := Next(steps, c, InputAt(steps, choice, c));
    d := if s.Running? then s.control else c;
    if steps[c.pc].Branch? {
      RouteEdge(steps, c.pc, Target(steps, c.pc, Taken(steps, choice, c.pc)));
    } else {
      forall v: nat
        ensures Edge(Reduced(steps), c.pc, v) <==> steps[c.pc].next >= 0 && steps[c.pc].next == v
      {
        NextEdge(steps, c.pc, v);
      }
    }
  }

  lemma AheadIsSmaller(steps: seq<Step>, u: nat, v: nat)
    requires Resolved(steps) && LoopsBounded(steps) && Edge(Reduced(steps), u, v)
    ensures |Ahead(steps, v)| < |Ahead(steps, u)|
  {
    AheadShrinks(steps, u, v);
    GraphSearch.SubsetSize(Ahead(steps, v), Ahead(steps, u));
  }

  /** From inside a loop body the run comes back to the loop, whatever the
      routes. */
  lemma InBodyToLoop(steps: seq<Step>, choice: Choice, c: Control, l: nat, x: int) returns (d: Control)
    requires Ready(steps, choice, c) && IsLoop(steps, l) && (c.pc == l || InBody(steps, l, c.pc))
    requires x >= 0 ==> IsBranch(steps, x) && !InBody(steps, l, x)
    ensures CanMismatch(steps, choice, c) || (Leads(steps, choice, c, d) && CountersOk(steps, d) && d.pc == l)
    ensures CanMismatch(steps, choice, c) ||
            (d.loopIterations == c.loopIterations && (NoFrameOf(steps, c, x) ==> NoFrameOf(steps, d, x)))
    decreases |Ahead(steps, c.pc)|
  {
    if c.pc == l {
      LeadsSelf(steps, choice, c);
      d := c;
    } else {
      BodyLeadsBack(steps, l, c.pc);
      var e := Move(steps, choice, c, l, x);
      if CanMismatch(steps, choice, c) {
        d := c;
      } else {
        BodyStep(steps, l, c.pc, e.pc);
        AheadIsSmaller(steps, c.pc, e.pc);
        d := InBodyToLoop(steps, choice, e, l, x);
        LeadsOn(steps, choice, c, e);
      }
    }
  }

  /** All the rounds that a loop still owes, one after the other. */
  lemma AllRounds(steps: seq<Step>, choice: Choice, c: Control, x: int) returns (d: Control)
    requires Ready(steps, choice, c) && IsLoop(steps, c.pc)
    requires x >= 0 ==> IsBranch(steps, x) && !InBody(steps, c.pc, x)
    ensures CanMismatch(steps, choice, c) || (Leads(steps, choice, c, d) && CountersOk(steps, d) && d.pc == c.pc)
    ensures CanMismatch(steps, choice, c) ||
            (d.loopIterations == c.loopIterations[c.pc := steps[c.pc].maxIterations]
             && (NoFrameOf(steps, c, x) ==> NoFrameOf(steps, d, x)))
    decreases steps[c.pc].maxIterations - c.loopIterations[c.pc]
  {
    var l: nat := c.pc;
    if c.loopIterations[l] == steps[l].maxIterations {
      LeadsSelf(steps, choice, c);
      d := c;
      assert c.loopIterations[l := steps[l].maxIterations] == c.loopIterations;
    } else {
      var e := EnterBody(steps, choice, c, x);
      var f := InBodyToLoop(steps, choice, e, l, x);
      LeadsOn(steps, choice, c, e);
      if CanMismatch(steps, choice, c) {
        d := c;
      } else {
        LeadsOn(steps, choice, e, f);
        d := AllRounds(steps, choice, f, x);
        assert f.loopIterations[l := steps[l].maxIterations] == c.loopIterations[l := steps[l].maxIterations];
      }
    }
  }

  lemma EnterBody(steps: seq<Step>, choice: Choice, c: Control, x: int) returns (d: Control)
    requires Ready(steps, choice, c) && IsLoop(steps, c.pc)
    requires c.loopIterations[c.pc] < steps[c.pc].maxIterations
    ensures Leads(steps, choice, c, d) && CountersOk(steps, d) && d.pc == steps[c.pc].body
    ensures d.pc == c.pc || InBody(steps, c.pc, d.pc)
    ensures d.loopIterations == c.loopIterations[c.pc := c.loopIterations[c.pc] + 1]
    ensures NoFrameOf(steps, c, x) ==> NoFrameOf(steps, d, x)
  {
    OneTransition(steps, choice, c);
    d := Next(steps, c, InputAt(steps, choice, c)).control;
    assert StepResolved(steps, c.pc);
    if d.pc != c.pc {
      ReachSelf(Reduced(steps), d.pc, c.pc);
    }
  }

  lemma LeaveLoop(steps: seq<Step>, choice: Choice, c: Control, x: int) returns (d: Control)
    requires Ready(steps, choice, c) && IsLoop(steps, c.pc)
    requires c.loopIterations[c.pc] == steps[c.pc].maxIterations
    ensures Leads(steps, choice, c, d) && CountersOk(steps, d) && d.pc == steps[c.pc].exit
    ensures d.loopIterations == c.loopIterations[c.pc := 0]
    ensures NoFrameOf(steps, c, x) ==> NoFrameOf(steps, d, x)
  {
    OneTransition(steps, choice, c);
    d := Next(steps, c, InputAt(steps, choice, c)).control;
  }

  lemma PassLoop(steps: seq<Step>, choice: Choice, c: Control, x: int) returns (d: Control)
    requires Ready(steps, choice, c) && IsLoop(steps, c.pc)
    requires x >= 0 ==> IsBranch(steps, x) && !InBody(steps, c.pc, x)
    ensures CanMismatch(steps, choice, c) ||
            (Leads(steps, choice, c, d) && CountersOk(steps, d) && d.pc == steps[c.pc].exit)
    ensures CanMismatch(steps, choice, c) ||
            (d.loopIterations == c.loopIterations[c.pc := 0] && (NoFrameOf(steps, c, x) ==> NoFrameOf(steps, d, x)))
  {
    var e := AllRounds(steps, choice, c, x);
    if CanMismatch(steps, choice, c) {
      d := c;
    } else {
      LeadsOn(steps, choice, c, e);
      d := LeaveLoop(steps, choice, e, x);
    }
  }

  // ----- reaching a step

  /** Every branch around z takes the route to it. */
  ghost predicate Guides(steps: seq<Step>, choice: Choice, z: nat)
    requires Resolved(steps) && |choice| == |steps|
  {
    forall b: nat, k: nat | IsRoute(steps, b, k) && InsideVia(steps, b, k, z) :: Taken(steps, choice, b) == k
  }

  /** Whatever route a branch takes that does not contain z, it leads to z if
      the branch does. */
  lemma RouteLeadsOn(steps: seq<Step>, choice: Choice, b: nat, z: nat)
    requires Resolved(steps) && LoopsBounded(steps) && BranchesStructured(steps) && |choice| == |steps|
    requires IsBranch(steps, b) && Guides(steps, choice, z) && Reach(Reduced(steps), b, z) && b != z
    ensures Reach(Reduced(steps), Target(steps, b, Taken(steps, choice, b)), z)
  {
    GraphsWellFormed(steps);
    var reduced, join, m := Reduced(steps), steps[b].join, Taken(steps, choice, b);
    assert StepResolved(steps, b);
    assert BranchStructured(steps, b) && RouteClosed(steps, b, m);
    ReachFirst(reduced, b, z, -1);
    var t: nat :| Edge(reduced, b, t) && ReachAvoiding(reduced, t, z, -1);
    RouteEdge(steps, b, t);
    var k: nat :| IsRoute(steps, b, k) && Target(steps, b, k) == t;
    ReachSplit(reduced, t, z, join);
    if InRoute(steps, b, k, z) {
      RouteOrBodyIsInside(steps, b, k, z);
      assert m == k;
    } else {
      ReachTrans(reduced, Target(steps, b, m), join, z, -1);
    }
  }

  /** The run reaches any step that it can reach without body edges, doing on
      the way the rounds that its loops owe. */
  lemma Along(steps: seq<Step>, choice: Choice, c: Control, z: nat) returns (d: Control)
    requires Ready(steps, choice, c) && Guides(steps, choice, z) && Reach(Reduced(steps), c.pc, z)
    ensures CanMismatch(steps, choice, c) || (Leads(steps, choice, c, d) && CountersOk(steps, d) && d.pc == z)
    ensures CanMismatch(steps, choice, c) || (AllZero(c.loopIterations) ==> AllZero(d.loopIterations))
    decreases |Ahead(steps, c.pc)|
  {
    if c.pc == z {
      LeadsSelf(steps, choice, c);
      d := c;
    } else {
      var e;
      ReachFirst(Reduced(steps), c.pc, z, -1);
      var s: nat :| Edge(Reduced(steps), c.pc, s) && ReachAvoiding(Reduced(steps), s, z, -1);
      if IsLoop(steps, c.pc) {
        LoopEdge(steps, c.pc, s);
        e := PassLoop(steps, choice, c, -1);
      } else {
        e := Move(steps, choice, c, z, -1);
        if IsBranch(steps, c.pc) {
          RouteLeadsOn(steps, choice, c.pc, z);
        }
      }
      if CanMismatch(steps, choice, c) {
        d := c;
      } else {
        AheadIsSmaller(steps, c.pc, e.pc);
        d := Along(steps, choice, e, z);
        LeadsOn(steps, choice, c, e);
      }
    }
  }

  /** What guides to a step in a loop body guides to the loop. */
  lemma GuidesToLoop(steps: seq<Step>, choice: Choice, l: nat, u: nat)
    requires Resolved(steps) && LoopsBounded(steps) && BranchesStructured(steps) && |choice| == |steps|
    requires IsLoop(steps, l) && InBody(steps, l, u) && Guides(steps, choice, u)
    ensures Guides(steps, choice, l)
  {
    forall b: nat, k: nat | IsRoute(steps, b, k) && InsideVia(steps, b, k, l)
      ensures Taken(steps, choice, b) == k
    {
      InsideLoopIsOnRoute(steps, b, k, l);
      RouteOrBodyIsInside(steps, b, k, u);
    }
  }

  /** A run reaches u, unless one already mismatches; a loop is reached before
      its first round. */
  lemma ReachStep(steps: seq<Step>, entry: nat, choice: Choice, u: nat) returns (d: Control)
    requires WellStructured(steps, entry) && u < |steps| && |choice| == |steps| && Guides(steps, choice, u)
    ensures CanMismatch(steps, choice, Start(steps, entry)) ||
            (Leads(steps, choice, Start(steps, entry), d) && CountersOk(steps, d) && d.pc == u
             && (IsLoop(steps, u) ==> AllZero(d.loopIterations)))
  {
    var start := Start(steps, entry);
    assert Reach(Full(steps), entry, u);
    ReachNormalForm(steps, entry, u);
    if Reach(Reduced(steps), entry, u) {
      d := Along(steps, choice, start, u);
    } else {
      var l: nat :| IsLoop(steps, l) && Reach(Reduced(steps), entry, l) && InBody(steps, l, u);
      GuidesToLoop(steps, choice, l, u);
      var e := Along(steps, choice, start, l);
      if CanMismatch(steps, choice, start) {
        d := start;
      } else {
        LeadsOn(steps, choice, start, e);
        assert StepResolved(steps, l);
        var f := EnterBody(steps, choice, e, -1);
        LeadsOn(steps, choice, e, f);
        ReachPlain(Reduced(steps), steps[l].body, u, l);
        d := Along(steps, choice, f, u);
        LeadsOn(steps, choice, start, f);
        BodyLeadsBack(steps, l, u);
      }
    }
  }

  /** Numbers that guide to z, and give z itself the number `own`. */
  ghost function NumberFor(steps: seq<Step>, z: nat, own: nat, b: nat): nat {
    if b != z && IsBranch(steps, b) && Inside(steps, b, z) then
      var k: nat :| IsRoute(steps, b, k) && InsideVia(steps, b, k, z);
      WeightBefore(steps[b].routes, k)
    else own
  }

  ghost function ChoiceFor(steps: seq<Step>, z: nat, own: nat): (choice: Choice)
    ensures |choice| == |steps|
  {
    seq(|steps|, b requires 0 <= b < |steps| => NumberFor(steps, z, own, b))
  }

  lemma ChoiceGuides(steps: seq<Step>, z: nat, own: nat)
    requires Resolved(steps) && LoopsBounded(steps) && BranchesStructured(steps)
    ensures Guides(steps, ChoiceFor(steps, z, own), z)
    ensures z < |steps| ==> ChoiceFor(steps, z, own)[z] == own
  {
    var choice := ChoiceFor(steps, z, own);
    forall b: nat, k: nat | IsRoute(steps, b, k) && InsideVia(steps, b, k, z)
      ensures Taken(steps, choice, b) == k
    {
      NotInsideItself(steps, b);
      assert Inside(steps, b, z);
      var m: nat :| IsRoute(steps, b, m) && InsideVia(steps, b, m, z) && choice[b] == WeightBefore(steps[b].routes, m);
      OneRouteInside(steps, b, k, m, z);
      EveryRouteSelectable(steps, b, k);
    }
  }

  // ----- what is being taken

  lemma {:induction false} RunIsNested(steps: seq<Step>, c: Control, frames: seq<Frame>, inputs: seq<Input>)
    requires Resolved(steps) && LoopsBounded(steps) && BranchesStructured(steps)
    requires OnPlan(steps, c) && Nested(steps, c, frames)
    ensures var s := Run(steps, Running(c), inputs);
            s.Running? ==> Nested(steps, s.control, RunFrames(steps, Running(c), frames, inputs))
    decreases |inputs|
  {
    if inputs != [] && c.pc >= 0 {
      var s := Next(steps, c, inputs[0]);
      if s.Running? {
        NextKeepsNested(steps, c, frames, inputs[0]);
        RunIsNested(steps, s.control, NextFrames(steps, c, frames, inputs[0]), inputs[1..]);
      }
    }
  }

  lemma ReachedIsNested(steps: seq<Step>, entry: nat, choice: Choice, d: Control) returns (frames: seq<Frame>)
    requires WellStructured(steps, entry) && |choice| == |steps| && Leads(steps, choice, Start(steps, entry), d)
    ensures Nested(steps, d, frames)
  {
    var start := Start(steps, entry);
    var inputs :| LeadsBy(steps, choice, start, d, inputs);
    RunIsNested(steps, start, [], inputs);
    frames := RunFrames(steps, Running(start), [], inputs);
  }

  /** Outside a branch, and not at its join, no route of it is being taken. */
  lemma OutsideHasNoFrame(steps: seq<Step>, d: Control, frames: seq<Frame>, b: nat)
    requires Resolved(steps) && LoopsBounded(steps) && BranchesStructured(steps)
    requires Nested(steps, d, frames) && d.pc >= 0 && IsBranch(steps, b) && !Open(steps, b, d.pc)
    ensures NoFrameOf(steps, d, b)
  {
    forall i | 0 <= i < |d.activeRoutes|
      ensures d.activeRoutes[i].join != steps[b].join
    {
      FrameFacts(steps, d, frames, i);
      OpenViaIsOpen(steps, frames[i].branch, frames[i].route, d.pc);
    }
  }

  lemma LoopAheadExcludes(steps: seq<Step>, b: nat, k: nat, v: nat, l: nat)
    requires Resolved(steps) && LoopsBounded(steps) && BranchesStructured(steps)
    requires IsRoute(steps, b, k) && InsideVia(steps, b, k, v) && IsLoop(steps, l)
    requires Reach(Reduced(steps), v, l) && Reach(Reduced(steps), l, steps[b].join)
    ensures !InBody(steps, l, b)
  {
    InsideIsRouteOrBody(steps, b, k, v);
    if InRoute(steps, b, k, v) {
      LoopOnRouteExcludes(steps, b, k, v, l);
    } else {
      var l0: nat :| IsLoop(steps, l0) && InRoute(steps, b, k, l0) && InBody(steps, l0, v);
      ReachSplit(Reduced(steps), v, l, l0);
      if ReachAvoiding(Reduced(steps), v, l, l0) {
        BodyReach(steps, l0, v, l);
        BodyLeadsBack(steps, l0, l);
      } else {
        LoopOnRouteExcludes(steps, b, k, l0, l);
      }
    }
  }

  lemma LoopOnRouteExcludes(steps: seq<Step>, b: nat, k: nat, v: nat, l: nat)
    requires Resolved(steps) && LoopsBounded(steps) && BranchesStructured(steps)
    requires IsRoute(steps, b, k) && InRoute(steps, b, k, v) && IsLoop(steps, l)
    requires Reach(Reduced(steps), v, l) && Reach(Reduced(steps), l, steps[b].join)
    ensures !InBody(steps, l, b)
  {
    assert StepResolved(steps, b);
    ReachSplit(Reduced(steps), v, l, steps[b].join);
    if ReachAvoiding(Reduced(steps), v, l, steps[b].join) {
      ReachTrans(Reduced(steps), Target(steps, b, k), v, l, steps[b].join);
      if InBody(steps, l, b) {
        LoopOutsideRoute(steps, b, k, l);
      }
    } else {
      NoReturn(steps, l, steps[b].join);
    }
  }

  /** Inside a branch with no route of it being taken, the run ends in a
      mismatch, whatever the routes. */
  lemma OpenWithoutFrame(steps: seq<Step>, choice: Choice, c: Control, b: nat)
    requires Ready(steps, choice, c) && IsBranch(steps, b) && Open(steps, b, c.pc) && NoFrameOf(steps, c, b)
    ensures CanMismatch(steps, choice, c)
    decreases |Ahead(steps, c.pc)|
  {
    assert StepResolved(steps, b);
    var join := steps[b].join;
    if c.pc == join {
      OneTransition(steps, choice, c);
    } else {
      var k: nat :| IsRoute(steps, b, k) && InsideVia(steps, b, k, c.pc);
      InsideLeadsToJoin(steps, b, k, c.pc);
      NotInsideItself(steps, b);
      ReachFirst(Reduced(steps), c.pc, join, -1);
      var d;
      if IsLoop(steps, c.pc) {
        ReachSelf(Reduced(steps), c.pc, -1);
        LoopAheadExcludes(steps, b, k, c.pc, c.pc);
        d := PassLoop(steps, choice, c, b);
      } else {
        d := Move(steps, choice, c, join, b);
      }
      if !CanMismatch(steps, choice, c) {
        FullEdge(steps, c.pc, d.pc);
        InsideStep(steps, b, k, c.pc, d.pc);
        OpenViaIsOpen(steps, b, k, d.pc);
        AheadIsSmaller(steps, c.pc, d.pc);
        OpenWithoutFrame(steps, choice, d, b);
        LeadsOn(steps, choice, c, d);
      }
    }
  }

  /** Stepping over a foreign transition leaves no route of b being taken. */
  lemma CrossForeignEdge(steps: seq<Step>, entry: nat, choice: Choice, b: nat, d: Control, v: nat) returns (e: Control)
    requires WellStructured(steps, entry) && IsBranch(steps, b) && Ready(steps, choice, d)
    requires Leads(steps, choice, Start(steps, entry), d)
    requires IsLoop(steps, d.pc) ==> AllZero(d.loopIterations)
    requires Edge(Full(steps), d.pc, v) && d.pc != b && !Inside(steps, b, d.pc)
    requires IsBranch(steps, d.pc) ==> Target(steps, d.pc, Taken(steps, choice, d.pc)) == v
    ensures CanMismatch(steps, choice, d) ||
            (Leads(steps, choice, d, e) && CountersOk(steps, e) && e.pc == v && NoFrameOf(steps, e, b))
  {
    FullEdge(steps, d.pc, v);
    assert StepResolved(steps, b);
    if IsLoop(steps, d.pc) {
      e := CrossFromLoop(steps, entry, choice, b, d, v);
    } else {
      GraphsWellFormed(steps);
      ReachEdge(Reduced(steps), d.pc, v, -1);
      assert d.pc != v by {
        if d.pc == v {
          ReachSelf(Reduced(steps), v, -1);
        }
      }
      e := Move(steps, choice, d, v, b);
      if !CanMismatch(steps, choice, d) {
        var frames := ReachedIsNested(steps, entry, choice, d);
        if d.pc != steps[b].join {
          OutsideHasNoFrame(steps, d, frames, b);
        } else {
          PoppedLast(steps, d, frames, b);
        }
      }
    }
  }

  lemma PoppedLast(steps: seq<Step>, d: Control, frames: seq<Frame>, b: nat)
    requires Resolved(steps) && LoopsBounded(steps) && BranchesStructured(steps)
    requires Nested(steps, d, frames) && IsBranch(steps, b) && d.activeRoutes != []
    requires d.activeRoutes[|d.activeRoutes| - 1].join == steps[b].join
    ensures forall i | 0 <= i < |d.activeRoutes| - 1 :: d.activeRoutes[i].join != steps[b].join
  {
    forall i | 0 <= i < |d.activeRoutes| - 1
      ensures d.activeRoutes[i].join != steps[b].join
    {
      ActiveJoinsDiffer(steps, d, frames, i, |frames| - 1);
    }
  }

  lemma CrossFromLoop(steps: seq<Step>, entry: nat, choice: Choice, b: nat, d: Control, v: nat) returns (e: Control)
    requires WellStructured(steps, entry) && IsBranch(steps, b) && Ready(steps, choice, d)
    requires Leads(steps, choice, Start(steps, entry), d) && IsLoop(steps, d.pc) && AllZero(d.loopIterations)
    requires Edge(Full(steps), d.pc, v) && !Inside(steps, b, d.pc)
    ensures CanMismatch(steps, choice, d) ||
            (Leads(steps, choice, d, e) && CountersOk(steps, e) && e.pc == v && NoFrameOf(steps, e, b))
  {
    FullEdge(steps, d.pc, v);
    assert StepResolved(steps, b) && StepResolved(steps, d.pc);
    if steps[d.pc].body == v {
      var frames := ReachedIsNested(steps, entry, choice, d);
      OutsideHasNoFrame(steps, d, frames, b);
      e := EnterBody(steps, choice, d, b);
    } else {
      LoopEdge(steps, d.pc, v);
      var f := AllRounds(steps, choice, d, -1);
      if CanMismatch(steps, choice, d) {
        e := d;
      } else {
        LeadsOn(steps, choice, Start(steps, entry), d);
        LeadsOn(steps, choice, d, f);
        var frames := ReachedIsNested(steps, entry, choice, f);
        OutsideHasNoFrame(steps, f, frames, b);
        e := LeaveLoop(steps, choice, f, b);
      }
    }
  }

  // ----- the condition is exact

  /** The number by which u goes on to v. */
  lemma NumberTo(steps: seq<Step>, u: nat, v: nat) returns (own: nat)
    requires Resolved(steps) && Edge(Full(steps), u, v)
    ensures IsBranch(steps, u) ==>
              steps[u].routes != [] && steps[u].routeWeight > 0
              && Target(steps, u, SelectRoute(steps[u], own)) == v
  {
    own := 0;
    if IsBranch(steps, u) {
      FullEdge(steps, u, v);
      RouteEdge(steps, u, v);
      var k: nat :| IsRoute(steps, u, k) && Target(steps, u, k) == v;
      EveryRouteSelectable(steps, u, k);
      own := WeightBefore(steps[u].routes, k);
    }
  }

  ghost predicate ForeignEdge(steps: seq<Step>, b: nat, u: nat, v: nat)
    requires IsBranch(steps, b)
  {
    Edge(Full(steps), u, v) && Open(steps, b, v) && u != b && !Inside(steps, b, u)
  }

  lemma ForeignEdgeMismatches(steps: seq<Step>, entry: nat, b: nat, u: nat, v: nat) returns (choice: Choice)
    requires WellStructured(steps, entry) && IsBranch(steps, b) && ForeignEdge(steps, b, u, v)
    ensures |choice| == |steps| && CanMismatch(steps, choice, Start(steps, entry))
  {
    var start := Start(steps, entry);
    GraphsWellFormed(steps);
    EdgeBound(Full(steps), u, v);
    var own := NumberTo(steps, u, v);
    choice := ChoiceFor(steps, u, own);
    ChoiceGuides(steps, u, own);
    var d := ReachStep(steps, entry, choice, u);
    if !CanMismatch(steps, choice, start) {
      LeadsOn(steps, choice, start, d);
      var e := CrossForeignEdge(steps, entry, choice, b, d, v);
      LeadsOn(steps, choice, d, e);
      OpenWithoutFrame(steps, choice, e, b);
    }
  }

  /** A plan with a foreign entry has a run that ends in a mismatch, and in
      which each branch takes one route only. */
  lemma ForeignEntryMismatches(steps: seq<Step>, entry: nat)
    requires WellStructured(steps, entry) && !NoForeignEntry(steps, entry)
    ensures exists choice | |choice| == |steps| :: CanMismatch(steps, choice, Start(steps, entry))
  {
    var b: nat :| IsBranch(steps, b)
      && (Open(steps, b, entry)
          || !forall u: nat, v: nat | Edge(Full(steps), u, v) && Open(steps, b, v) :: u == b || Inside(steps, b, u));
    if Open(steps, b, entry) {
      var choice := ChoiceFor(steps, entry, 0);
      OpenWithoutFrame(steps, choice, Start(steps, entry), b);
    } else {
      var u: nat, v: nat :| Edge(Full(steps), u, v) && Open(steps, b, v) && u != b && !Inside(steps, b, u);
      var choice := ForeignEdgeMismatches(steps, entry, b, u, v);
    }
  }

  /** No transition enters a branch from outside exactly when no run ends in a
      join mismatch: neither a run in which each branch keeps its route, nor
      any other. */
  lemma JoinDisciplineIsExact(steps: seq<Step>, entry: nat)
    requires WellStructured(steps, entry)
    ensures NoForeignEntry(steps, entry) <==>
            forall choice, inputs | |choice| == |steps| :: !MismatchBy(steps, choice, Start(steps, entry), inputs)
    ensures NoForeignEntry(steps, entry) <==>
            forall inputs :: !EndsInMismatch(steps, Start(steps, entry), inputs)
  {
    var start := Start(steps, entry);
    if NoForeignEntry(steps, entry) {
      forall inputs
        ensures !EndsInMismatch(steps, start, inputs)
      {
        RunsAreDisciplined(steps, entry, inputs);
      }
    } else {
      ForeignEntryMismatches(steps, entry);
      var choice :| |choice| == |steps| && CanMismatch(steps, choice, start);
      var inputs :| MismatchBy(steps, choice, start, inputs);
      assert EndsInMismatch(steps, start, inputs);
    }
  }
}
