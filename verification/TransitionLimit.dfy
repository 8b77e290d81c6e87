/** The limit on transitions is not too large either: it is the sum, over all
    steps, of how often the step runs at most, and one more for each step that
    runs in rounds of a loop only. */
module TransitionLimit {
  import opened Walks
  import opened ExecutionPlan
  import opened Regions
  import opened Machine
  import opened JoinDiscipline
  import opened TransitionBounds

  // ----- how often a step runs

  predicate Going(s: Status) {
    s.Running? && s.control.pc >= 0
  }

  /** How many transitions of a run execute step v. */
  function TimesRun(steps: seq<Step>, s: Status, inputs: seq<Input>, v: nat): nat
    requires Resolved(steps) && (s.Running? ==> OnPlan(steps, s.control))
    decreases |inputs|
  {
    if inputs == [] || !Going(s) then 0
    else (if s.control.pc == v then 1 else 0) + TimesRun(steps, Next(steps, s.control, inputs[0]), inputs[1..], v)
  }

  ghost predicate Attained(steps: seq<Step>, entry: nat, inputs: seq<Input>, v: nat, n: nat)
    requires Resolved(steps) && entry < |steps|
  {
    TimesRun(steps, Running(Start(steps, entry)), inputs, v) == n
  }

  /** Some run executes step v n times, and none does so more often. */
  ghost predicate MostOften(steps: seq<Step>, entry: nat, v: nat, n: nat)
    requires Resolved(steps) && entry < |steps|
  {
    && (exists inputs :: Attained(steps, entry, inputs, v, n))
    && (forall inputs :: TimesRun(steps, Running(Start(steps, entry)), inputs, v) <= n)
  }

  function Total(counts: seq<nat>): nat {
    if counts == [] then 0 else Total(counts[..|counts| - 1]) + counts[|counts| - 1]
  }

  /** The steps that no run reaches without a round of a loop. */
  ghost function OnlyInRounds(steps: seq<Step>, entry: nat): set<nat> {
    set v: nat | v < |steps| && !Reach(Reduced(steps), entry, v)
  }

  lemma {:induction false} TimesAppend(steps: seq<Step>, s: Status, inputs: seq<Input>, input: Input, v: nat)
    requires Resolved(steps) && (s.Running? ==> OnPlan(steps, s.control))
    ensures var after := Run(steps, s, inputs);
            TimesRun(steps, s, inputs + [input], v)
            == TimesRun(steps, s, inputs, v) + if Going(after) && after.control.pc == v then 1 else 0
    decreases |inputs|
  {
    if inputs == [] {
      assert [input][1..] == [];
    } else if Going(s) {
      assert (inputs + [input])[1..] == inputs[1..] + [input];
      TimesAppend(steps, Next(steps, s.control, inputs[0]), inputs[1..], input, v);
    }
  }

  // ----- the loop whose rounds a step belongs to

  ghost predicate InRounds(steps: seq<Step>, l: int, v: nat) {
    IsLoop(steps, l) && (v == l || InBody(steps, l, v))
  }

  /** The loop whose rounds run step v, or -1. */
  ghost function Home(steps: seq<Step>, v: nat): (l: int)
    ensures l == -1 || InRounds(steps, l, v)
  {
    if l: nat :| InRounds(steps, l, v) then l else -1
  }

  lemma HomeIs(steps: seq<Step>, l: nat, v: nat)
    requires Resolved(steps) && LoopsBounded(steps) && BranchesStructured(steps) && InRounds(steps, l, v)
    ensures Home(steps, v) == l
  {
    var o := Home(steps, v);
    if v == l || v == o {
      if v != l {
        BodyLeadsBack(steps, l, v);
      }
      if v != o {
        BodyLeadsBack(steps, o, v);
      }
    } else {
      SameLoop(steps, l, o, v);
    }
  }

  // ----- how often a step can still run

  ghost predicate CountersWithin(steps: seq<Step>, c: Control) {
    OnPlan(steps, c) && forall l: nat | IsLoop(steps, l) :: c.loopIterations[l] <= steps[l].maxIterations
  }

  ghost predicate IsAhead(steps: seq<Step>, pc: int, v: int) {
    pc >= 0 && v >= 0 && Reach(Reduced(steps), pc, v)
  }

  /** The rounds left that run step v. */
  ghost function RoundsLeft(steps: seq<Step>, c: Control, v: nat): nat
    requires CountersWithin(steps, c)
  {
    var l := Home(steps, v);
    if IsAhead(steps, c.pc, l) then steps[l].maxIterations - c.loopIterations[l] else 0
  }

  ghost function Left(steps: seq<Step>, c: Control, v: nat): nat
    requires CountersWithin(steps, c)
  {
    (if IsAhead(steps, c.pc, v) then 1 else 0) + RoundsLeft(steps, c, v)
  }

  function Now(c: Control, v: nat): nat {
    if c.pc == v then 1 else 0
  }

  lemma AheadSplits(steps: seq<Step>, u: nat, x: nat)
    requires Resolved(steps) && u < |steps|
    ensures IsAhead(steps, u, u)
    ensures IsAhead(steps, u, x) <==> x == u || exists w: nat :: Edge(Reduced(steps), u, w) && IsAhead(steps, w, x)
  {
    GraphsWellFormed(steps);
    ReachSelf(Reduced(steps), u, -1);
    if IsAhead(steps, u, x) && x != u {
      ReachFirst(Reduced(steps), u, x, -1);
      var w: nat :| Edge(Reduced(steps), u, w) && ReachAvoiding(Reduced(steps), w, x, -1);
      assert IsAhead(steps, w, x);
    }
    if w: nat :| Edge(Reduced(steps), u, w) && IsAhead(steps, w, x) {
      ThenReach(Reduced(steps), u, w, x, -1);
    }
  }

  lemma NotBehind(steps: seq<Step>, u: nat, w: nat)
    requires Resolved(steps) && LoopsBounded(steps) && Edge(Reduced(steps), u, w)
    ensures !IsAhead(steps, w, u)
  {
  }

  /** c moves to d without passing by what is ahead. */
  ghost predicate KeepsAhead(steps: seq<Step>, c: Control, d: Control, x: int) {
    IsAhead(steps, c.pc, x) && x != c.pc ==> IsAhead(steps, d.pc, x)
  }

  /** A transition from a step that is not a loop. */
  lemma PlainUses(steps: seq<Step>, c: Control, d: Control, v: nat)
    requires Resolved(steps) && LoopsBounded(steps) && CountersWithin(steps, c) && CountersWithin(steps, d)
    requires c.pc >= 0 && !steps[c.pc].Loop? && d.loopIterations == c.loopIterations
    requires d.pc >= 0 ==> Edge(Reduced(steps), c.pc, d.pc)
    ensures Left(steps, d, v) + Now(c, v) <= Left(steps, c, v)
    ensures KeepsAhead(steps, c, d, v) && KeepsAhead(steps, c, d, Home(steps, v)) ==>
              Left(steps, d, v) + Now(c, v) == Left(steps, c, v)
  {
    var l := Home(steps, v);
    AheadSplits(steps, c.pc, v);
    if l >= 0 {
      AheadSplits(steps, c.pc, l);
    }
    if d.pc >= 0 {
      NotBehind(steps, c.pc, d.pc);
    }
  }

  lemma BodyAhead(steps: seq<Step>, l: nat, x: nat)
    requires Resolved(steps) && LoopsBounded(steps) && IsLoop(steps, l)
    ensures IsAhead(steps, steps[l].body, x) <==> InBody(steps, l, x) || IsAhead(steps, l, x)
    ensures InBody(steps, l, x) ==> !IsAhead(steps, l, x) && !IsLoop(steps, x)
  {
    assert LoopBounded(steps, l);
    GraphsWellFormed(steps);
    if IsAhead(steps, steps[l].body, x) {
      ReachSplit(Reduced(steps), steps[l].body, x, l);
    }
    if InBody(steps, l, x) {
      ReachPlain(Reduced(steps), steps[l].body, x, l);
      BodyLeadsBack(steps, l, x);
      if IsAhead(steps, l, x) {
        NoReturn(steps, l, x);
      }
    }
    if IsAhead(steps, l, x) {
      ReachTrans(Reduced(steps), steps[l].body, l, x, -1);
    }
  }

  lemma RoundUses(steps: seq<Step>, c: Control, d: Control, v: nat)
    requires Resolved(steps) && LoopsBounded(steps) && BranchesStructured(steps)
    requires CountersWithin(steps, c) && CountersWithin(steps, d) && IsLoop(steps, c.pc)
    requires c.loopIterations[c.pc] < steps[c.pc].maxIterations && d.pc == steps[c.pc].body
    requires d.loopIterations == c.loopIterations[c.pc := c.loopIterations[c.pc] + 1]
    ensures Left(steps, d, v) + Now(c, v) == Left(steps, c, v)
  {
    var l: nat, h := c.pc, Home(steps, v);
    BodyAhead(steps, l, v);
    BodyAhead(steps, l, l);
    AheadSplits(steps, l, l);
    if InRounds(steps, l, v) {
      HomeIs(steps, l, v);
    } else if h >= 0 {
      BodyAhead(steps, l, h);
    }
  }

  lemma LeavingUses(steps: seq<Step>, c: Control, d: Control, v: nat)
    requires Resolved(steps) && LoopsBounded(steps) && BranchesStructured(steps)
    requires CountersWithin(steps, c) && CountersWithin(steps, d) && IsLoop(steps, c.pc)
    requires c.loopIterations[c.pc] == steps[c.pc].maxIterations && d.pc == steps[c.pc].exit
    requires d.loopIterations == c.loopIterations[c.pc := 0]
    ensures Left(steps, d, v) + Now(c, v) == Left(steps, c, v)
  {
    var l: nat, h := c.pc, Home(steps, v);
    assert StepResolved(steps, l);
    ExitAhead(steps, l, v);
    ExitAhead(steps, l, l);
    if InRounds(steps, l, v) {
      HomeIs(steps, l, v);
      BodyAhead(steps, l, v);
    } else if h >= 0 {
      ExitAhead(steps, l, h);
    }
  }

  /** Behind a loop comes what comes behind its exit. */
  lemma ExitAhead(steps: seq<Step>, l: nat, x: nat)
    requires Resolved(steps) && LoopsBounded(steps) && IsLoop(steps, l)
    ensures IsAhead(steps, l, x) <==> x == l || IsAhead(steps, steps[l].exit, x)
    ensures !IsAhead(steps, steps[l].exit, l)
  {
    AheadSplits(steps, l, x);
    assert StepResolved(steps, l);
    forall w: nat
      ensures Edge(Reduced(steps), l, w) <==> steps[l].exit >= 0 && steps[l].exit == w
    {
      LoopEdge(steps, l, w);
    }
    if steps[l].exit >= 0 {
      NotBehind(steps, l, steps[l].exit);
    }
  }

  // ----- one transition

  ghost function LeftIn(steps: seq<Step>, s: Status, v: nat): nat
    requires s.Running? ==> CountersWithin(steps, s.control)
  {
    if Going(s) then Left(steps, s.control, v) else 0
  }

  lemma NextWithin(steps: seq<Step>, c: Control, input: Input)
    requires Resolved(steps) && CountersWithin(steps, c) && c.pc >= 0
    ensures var s := Next(steps, c, input); s.Running? ==> CountersWithin(steps, s.control)
  {
  }

  lemma AtStep(steps: seq<Step>, c: Control, v: nat)
    requires Resolved(steps) && CountersWithin(steps, c) && c.pc >= 0
    ensures Now(c, v) <= Left(steps, c, v)
  {
    AheadSplits(steps, c.pc, c.pc);
  }

  /** No transition leaves more executions of v than it takes. */
  lemma TransitionUses(steps: seq<Step>, c: Control, input: Input, v: nat)
    requires Resolved(steps) && LoopsBounded(steps) && BranchesStructured(steps)
    requires CountersWithin(steps, c) && c.pc >= 0
    ensures var s := Next(steps, c, input);
            && (s.Running? ==> CountersWithin(steps, s.control))
            && LeftIn(steps, s, v) + Now(c, v) <= Left(steps, c, v)
            && (s.Running? && KeepsAhead(steps, c, s.control, v) && KeepsAhead(steps, c, s.control, Home(steps, v)) ==>
                  LeftIn(steps, s, v) + Now(c, v) == Left(steps, c, v))
            && (s.Running? && steps[c.pc].Loop? ==> LeftIn(steps, s, v) + Now(c, v) == Left(steps, c, v))
  {
    NextWithin(steps, c, input);
    AtStep(steps, c, v);
    var s := Next(steps, c, input);
    if s.Running? {
      var d := s.control;
      if steps[c.pc].Loop? {
        LoopNext(steps, c, input);
        if c.loopIterations[c.pc] < steps[c.pc].maxIterations {
          RoundUses(steps, c, d, v);
        } else {
          LeavingUses(steps, c, d, v);
        }
      } else {
        if d.pc >= 0 {
          PlainNext(steps, c, input);
        } else {
          PlainCounters(steps, c, input);
        }
        PlainUses(steps, c, d, v);
      }
      NothingLeft(steps, d, v);
    }
  }

  lemma PlainCounters(steps: seq<Step>, c: Control, input: Input)
    requires Resolved(steps) && OnPlan(steps, c) && c.pc >= 0 && !steps[c.pc].Loop?
    requires Next(steps, c, input).Running?
    ensures Next(steps, c, input).control.loopIterations == c.loopIterations
  {
  }

  lemma NothingLeft(steps: seq<Step>, c: Control, v: nat)
    requires CountersWithin(steps, c)
    ensures LeftIn(steps, Running(c), v) == Left(steps, c, v)
  {
  }

  // ----- whole runs

  lemma StartWithin(steps: seq<Step>, entry: nat)
    requires Resolved(steps) && entry < |steps|
    ensures CountersWithin(steps, Start(steps, entry))
  {
  }

  /** What a run has used of the executions of v, and what it has left. */
  lemma {:induction false} RunUses(steps: seq<Step>, entry: nat, inputs: seq<Input>, v: nat)
    requires Resolved(steps) && LoopsBounded(steps) && BranchesStructured(steps) && entry < |steps|
    ensures var start := Running(Start(steps, entry)); var s := Run(steps, start, inputs);
            && CountersWithin(steps, start.control) && (s.Running? ==> CountersWithin(steps, s.control))
            && TimesRun(steps, start, inputs, v) + LeftIn(steps, s, v) <= Left(steps, start.control, v)
    decreases |inputs|
  {
    StartWithin(steps, entry);
    var start := Running(Start(steps, entry));
    if inputs == [] {
      NothingLeft(steps, start.control, v);
    } else {
      var last := |inputs| - 1;
      RunUses(steps, entry, inputs[..last], v);
      assert inputs == inputs[..last] + [inputs[last]];
      TimesAppend(steps, start, inputs[..last], inputs[last], v);
      RunLast(steps, start, inputs);
      var before := Run(steps, start, inputs[..last]);
      if Going(before) {
        TransitionUses(steps, before.control, inputs[last], v);
      }
    }
  }

  // ----- a run that executes v as often as possible

  ghost predicate RouteLeads(steps: seq<Step>, b: int, k: nat, x: int) {
    IsRoute(steps, b, k) && IsAhead(steps, Target(steps, b, k), x)
  }

  /** A branch takes a route to v, or else to the loop whose rounds run v. */
  ghost function Guide(steps: seq<Step>, b: int, v: nat): nat {
    if k: nat :| RouteLeads(steps, b, k, v) then WeightBefore(steps[b].routes, k)
    else if k: nat :| RouteLeads(steps, b, k, Home(steps, v)) then WeightBefore(steps[b].routes, k)
    else 0
  }

  lemma SomeRouteLeads(steps: seq<Step>, b: nat, x: nat)
    requires Resolved(steps) && IsBranch(steps, b) && IsAhead(steps, b, x) && x != b
    ensures exists k: nat :: RouteLeads(steps, b, k, x)
  {
    AheadSplits(steps, b, x);
    var w: nat :| Edge(Reduced(steps), b, w) && IsAhead(steps, w, x);
    RouteEdge(steps, b, w);
    var k: nat :| IsRoute(steps, b, k) && Target(steps, b, k) == w;
    assert RouteLeads(steps, b, k, x);
  }

  lemma HomeIsAhead(steps: seq<Step>, u: int, v: nat)
    requires Resolved(steps) && LoopsBounded(steps) && IsAhead(steps, u, v) && Home(steps, v) >= 0
    ensures IsAhead(steps, u, Home(steps, v))
  {
    var l: nat := Home(steps, v);
    if v != l {
      BodyLeadsBack(steps, l, v);
      ReachTrans(Reduced(steps), u, v, l, -1);
    }
  }

  lemma GuideKeeps(steps: seq<Step>, c: Control, d: Control, v: nat)
    requires Resolved(steps) && LoopsBounded(steps) && OnPlan(steps, c) && IsBranch(steps, c.pc)
    requires Next(steps, c, Input(Continue, Guide(steps, c.pc, v))) == Running(d)
    ensures KeepsAhead(steps, c, d, v) && KeepsAhead(steps, c, d, Home(steps, v))
  {
    var b: nat, h := c.pc, Home(steps, v);
    BranchWeight(steps, b);
    if exists k: nat :: RouteLeads(steps, b, k, v) {
      var k: nat :| RouteLeads(steps, b, k, v) && Guide(steps, b, v) == WeightBefore(steps[b].routes, k);
      EveryRouteSelectable(steps, b, k);
      if h >= 0 {
        HomeIsAhead(steps, d.pc, v);
      }
    } else {
      if IsAhead(steps, b, v) && v != b {
        SomeRouteLeads(steps, b, v);
      }
      if IsAhead(steps, b, h) && h != b {
        SomeRouteLeads(steps, b, h);
        var k: nat :| RouteLeads(steps, b, k, h) && Guide(steps, b, v) == WeightBefore(steps[b].routes, k);
        EveryRouteSelectable(steps, b, k);
      }
    }
  }

  lemma OnlyWay(steps: seq<Step>, c: Control, d: Control, x: int)
    requires Resolved(steps) && OnPlan(steps, c) && c.pc >= 0 && (steps[c.pc].Scenario? || steps[c.pc].Join?)
    requires d.pc == steps[c.pc].next
    ensures KeepsAhead(steps, c, d, x)
  {
    if IsAhead(steps, c.pc, x) && x != c.pc {
      AheadSplits(steps, c.pc, x);
      var w: nat :| Edge(Reduced(steps), c.pc, w) && IsAhead(steps, w, x);
      NextEdge(steps, c.pc, w);
    }
  }

  /** With its branches guided to v, a run uses all executions of v. */
  lemma GuidedStep(steps: seq<Step>, c: Control, v: nat)
    requires Resolved(steps) && LoopsBounded(steps) && BranchesStructured(steps)
    requires CountersWithin(steps, c) && c.pc >= 0 && JoinMatches(steps, c)
    ensures var s := Next(steps, c, Input(Continue, Guide(steps, c.pc, v)));
            && s.Running? && CountersWithin(steps, s.control)
            && LeftIn(steps, s, v) + Now(c, v) == Left(steps, c, v)
  {
    var input := Input(Continue, Guide(steps, c.pc, v));
    TransitionUses(steps, c, input, v);
    var d := Next(steps, c, input).control;
    if steps[c.pc].Branch? {
      GuideKeeps(steps, c, d, v);
    } else if !steps[c.pc].Loop? {
      OnlyWay(steps, c, d, v);
      OnlyWay(steps, c, d, Home(steps, v));
    }
  }

  lemma {:induction false} GuidedRun(steps: seq<Step>, entry: nat, v: nat, inputs: seq<Input>) returns (all: seq<Input>)
    requires WellStructured(steps, entry) && NoForeignEntry(steps, entry)
    requires var start := Running(Start(steps, entry)); var s := Run(steps, start, inputs);
             && CountersWithin(steps, start.control) && s.Running? && CountersWithin(steps, s.control)
             && TimesRun(steps, start, inputs, v) + LeftIn(steps, s, v) == Left(steps, start.control, v)
    ensures TimesRun(steps, Running(Start(steps, entry)), all, v) == Left(steps, Start(steps, entry), v)
    decreases TransitionBound(steps) - |inputs|
  {
    var start := Running(Start(steps, entry));
    var s := Run(steps, start, inputs);
    if Going(s) {
      GuardNeverTruncates(steps, entry, inputs);
      RunsAreDisciplined(steps, entry, inputs);
      GuidedStep(steps, s.control, v);
      var input := Input(Continue, Guide(steps, s.control.pc, v));
      var longer := inputs + [input];
      assert longer[..|inputs|] == inputs;
      TimesAppend(steps, start, inputs, input, v);
      RunLast(steps, start, longer);
      all := GuidedRun(steps, entry, v, longer);
    } else {
      all := inputs;
    }
  }

  /** What the start has left of v is how often v runs at most. */
  lemma MostIsLeft(steps: seq<Step>, entry: nat, v: nat)
    requires WellStructured(steps, entry) && NoForeignEntry(steps, entry)
    ensures CountersWithin(steps, Start(steps, entry))
    ensures MostOften(steps, entry, v, Left(steps, Start(steps, entry), v))
  {
    StartWithin(steps, entry);
    var start := Start(steps, entry);
    NothingLeft(steps, start, v);
    assert Run(steps, Running(start), []) == Running(start);
    var all := GuidedRun(steps, entry, v, []);
    assert Attained(steps, entry, all, v, Left(steps, start, v));
    forall inputs
      ensures TimesRun(steps, Running(start), inputs, v) <= Left(steps, start, v)
    {
      RunUses(steps, entry, inputs, v);
    }
  }

  // ----- adding up

  ghost function HomeRounds(steps: seq<Step>, v: nat): nat {
    var l := Home(steps, v);
    if l >= 0 then steps[l].maxIterations else 0
  }

  lemma LoopIsAhead(steps: seq<Step>, entry: nat, l: nat)
    requires WellStructured(steps, entry) && IsLoop(steps, l)
    ensures IsAhead(steps, entry, l)
  {
    assert Reach(Full(steps), entry, l);
    ReachNormalForm(steps, entry, l);
    if !Reach(Reduced(steps), entry, l) {
      var o: nat :| IsLoop(steps, o) && Reach(Reduced(steps), entry, o) && InBody(steps, o, l);
      BodyAhead(steps, o, l);
    }
  }

  lemma StartLeft(steps: seq<Step>, entry: nat, v: nat)
    requires WellStructured(steps, entry) && CountersWithin(steps, Start(steps, entry))
    ensures Left(steps, Start(steps, entry), v)
         == (if Reach(Reduced(steps), entry, v) then 1 else 0) + HomeRounds(steps, v)
  {
    if Home(steps, v) >= 0 {
      LoopIsAhead(steps, entry, Home(steps, v));
    }
  }

  /** The rounds of the first n loops, counted at the first m steps that they
      run. */
  ghost function RoundsOf(steps: seq<Step>, n: nat, m: nat): nat {
    if m == 0 then 0
    else RoundsOf(steps, n, m - 1) + if Home(steps, m - 1) < n then HomeRounds(steps, m - 1) else 0
  }

  ghost function Homed(steps: seq<Step>, l: int, m: nat): set<nat> {
    set v: nat | v < m && Home(steps, v) == l
  }

  lemma HomedNext(steps: seq<Step>, l: int, m: nat)
    ensures |Homed(steps, l, m + 1)| == |Homed(steps, l, m)| + if Home(steps, m) == l then 1 else 0
    ensures |Homed(steps, l, 0)| == 0
  {
    hide Home, InRounds;
    assert Homed(steps, l, 0) == {};
    if Home(steps, m) == l {
      assert Homed(steps, l, m + 1) == Homed(steps, l, m) + {m};
    } else {
      assert Homed(steps, l, m + 1) == Homed(steps, l, m);
    }
  }

  function Rounds(iterations: nat, size: nat): nat {
    iterations * size
  }

  lemma OneMore(iterations: nat, size: nat)
    ensures Rounds(iterations, size + 1) == Rounds(iterations, size) + iterations && Rounds(iterations, 0) == 0
  {
  }

  lemma {:induction false} RoundsOfNext(steps: seq<Step>, n: nat, m: nat)
    requires n < |steps|
    ensures RoundsOf(steps, n + 1, m)
         == RoundsOf(steps, n, m) + if IsLoop(steps, n) then Rounds(steps[n].maxIterations, |Homed(steps, n, m)|) else 0
  {
    hide Rounds, Homed;
    if m == 0 {
      HomedNext(steps, n, 0);
      if IsLoop(steps, n) {
        OneMore(steps[n].maxIterations, 0);
      }
    } else {
      RoundsOfNext(steps, n, m - 1);
      HomedNext(steps, n, m - 1);
      if IsLoop(steps, n) {
        OneMore(steps[n].maxIterations, |Homed(steps, n, m - 1)|);
      }
    }
  }

  lemma HomedInRounds(steps: seq<Step>, l: nat)
    requires Resolved(steps) && LoopsBounded(steps) && BranchesStructured(steps) && IsLoop(steps, l)
    ensures |Homed(steps, l, |steps|)| == |BodyRegion(steps, l)| + 1
  {
    forall v: nat
      ensures v in Homed(steps, l, |steps|) <==> v in BodyRegion(steps, l) + {l}
    {
      if v < |steps| && InRounds(steps, l, v) {
        HomeIs(steps, l, v);
      }
    }
    assert Homed(steps, l, |steps|) == BodyRegion(steps, l) + {l};
    BodyAhead(steps, l, l);
  }

  lemma {:induction false} NoRoundsYet(steps: seq<Step>, m: nat)
    ensures RoundsOf(steps, 0, m) == 0
  {
    if m > 0 {
      NoRoundsYet(steps, m - 1);
    }
  }

  lemma {:induction false} CostIs(steps: seq<Step>, n: nat)
    requires Resolved(steps) && LoopsBounded(steps) && BranchesStructured(steps) && n <= |steps|
    ensures CostWithin(steps, Nodes(|steps|), n) == n + RoundsOf(steps, n, |steps|)
  {
    if n == 0 {
      NoRoundsYet(steps, |steps|);
    } else {
      CostIs(steps, n - 1);
      RoundsOfNext(steps, n - 1, |steps|);
      assert n - 1 in Nodes(|steps|);
      if IsLoop(steps, n - 1) {
        HomedInRounds(steps, n - 1);
      }
    }
  }

  ghost function OnlyBelow(steps: seq<Step>, entry: nat, m: nat): set<nat> {
    set v: nat | v < m && !Reach(Reduced(steps), entry, v)
  }

  lemma OnlyNext(steps: seq<Step>, entry: nat, m: nat)
    ensures |OnlyBelow(steps, entry, 0)| == 0
    ensures |OnlyBelow(steps, entry, m + 1)|
         == |OnlyBelow(steps, entry, m)| + if Reach(Reduced(steps), entry, m) then 0 else 1
  {
    hide Reach, Reduced;
    assert OnlyBelow(steps, entry, 0) == {};
    if Reach(Reduced(steps), entry, m) {
      assert OnlyBelow(steps, entry, m + 1) == OnlyBelow(steps, entry, m);
    } else {
      assert OnlyBelow(steps, entry, m + 1) == OnlyBelow(steps, entry, m) + {m};
    }
  }

  lemma RoundsOfStep(steps: seq<Step>, m: nat)
    ensures RoundsOf(steps, |steps|, m + 1) == RoundsOf(steps, |steps|, m) + HomeRounds(steps, m)
  {
  }

  lemma {:induction false} TotalIs(steps: seq<Step>, entry: nat, most: seq<nat>)
    requires WellStructured(steps, entry) && CountersWithin(steps, Start(steps, entry)) && |most| <= |steps|
    requires forall v | 0 <= v < |most| :: most[v] == Left(steps, Start(steps, entry), v)
    ensures Total(most) + |OnlyBelow(steps, entry, |most|)| == |most| + RoundsOf(steps, |steps|, |most|)
    decreases |most|
  {
    hide WellStructured, Left, HomeRounds, OnlyBelow, Start, Reduced, Reach;
    if most == [] {
      OnlyNext(steps, entry, 0);
    } else {
      var last := |most| - 1;
      TotalIs(steps, entry, most[..last]);
      StartLeft(steps, entry, last);
      OnlyNext(steps, entry, last);
      RoundsOfStep(steps, last);
    }
  }

  lemma MostIsUnique(steps: seq<Step>, entry: nat, v: nat, m: nat, n: nat)
    requires Resolved(steps) && entry < |steps| && MostOften(steps, entry, v, m) && MostOften(steps, entry, v, n)
    ensures m == n
  {
    var first :| Attained(steps, entry, first, v, m);
    var second :| Attained(steps, entry, second, v, n);
    assert TimesRun(steps, Running(Start(steps, entry)), first, v) <= n;
    assert TimesRun(steps, Running(Start(steps, entry)), second, v) <= m;
  }

  /** In a run each step is executed at most so often. */
  ghost predicate MostOfAll(steps: seq<Step>, entry: nat, most: seq<nat>)
    requires Resolved(steps) && entry < |steps|
  {
    |most| == |steps| && forall v: nat | v < |steps| :: MostOften(steps, entry, v, most[v])
  }

  lemma MostExists(steps: seq<Step>, entry: nat) returns (most: seq<nat>)
    requires WellStructured(steps, entry) && NoForeignEntry(steps, entry)
    ensures MostOfAll(steps, entry, most) && CountersWithin(steps, Start(steps, entry))
    ensures forall v | 0 <= v < |most| :: most[v] == Left(steps, Start(steps, entry), v)
  {
    StartWithin(steps, entry);
    most := seq(|steps|, v requires 0 <= v < |steps| => Left(steps, Start(steps, entry), v));
    forall v: nat | v < |steps|
      ensures MostOften(steps, entry, v, most[v])
    {
      MostIsLeft(steps, entry, v);
    }
  }

  /** The limit is the sum over all steps of how often each runs at most, and
      one more for each step that runs in rounds of a loop only. */
  lemma LimitIsSumOfMost(steps: seq<Step>, entry: nat, most: seq<nat>)
    requires WellStructured(steps, entry) && NoForeignEntry(steps, entry) && MostOfAll(steps, entry, most)
    ensures TransitionBound(steps) == Total(most) + |OnlyInRounds(steps, entry)|
  {
    var lefts := MostExists(steps, entry);
    forall v: nat | v < |steps|
      ensures most[v] == lefts[v]
    {
      MostIsUnique(steps, entry, v, most[v], lefts[v]);
    }
    assert most == lefts;
    TotalIs(steps, entry, most);
    CostIs(steps, |steps|);
    assert OnlyBelow(steps, entry, |steps|) == OnlyInRounds(steps, entry);
  }

  // ----- plans without branches

  ghost function LeftOfAll(steps: seq<Step>, c: Control, m: nat): nat
    requires CountersWithin(steps, c)
  {
    if m == 0 then 0 else LeftOfAll(steps, c, m - 1) + Left(steps, c, m - 1)
  }

  /** Without branches every transition uses one of all that is left. */
  lemma StraightStep(steps: seq<Step>, c: Control, input: Input, v: nat)
    requires Resolved(steps) && LoopsBounded(steps) && BranchesStructured(steps) && !exists b: nat :: IsBranch(steps, b)
    requires CountersWithin(steps, c) && c.pc >= 0 && input.outcome == Continue
    ensures var s := Next(steps, c, input);
            && s.Running? && CountersWithin(steps, s.control)
            && LeftIn(steps, s, v) + Now(c, v) == Left(steps, c, v)
  {
    if steps[c.pc].Join? {
      var b := JoinOwner(steps, c.pc);
    }
    assert !IsBranch(steps, c.pc);
    TransitionUses(steps, c, input, v);
    if !steps[c.pc].Loop? {
      var d := Next(steps, c, input).control;
      OnlyWay(steps, c, d, v);
      OnlyWay(steps, c, d, Home(steps, v));
    }
  }

  lemma {:induction false} StraightSum(steps: seq<Step>, c: Control, input: Input, m: nat)
    requires Resolved(steps) && LoopsBounded(steps) && BranchesStructured(steps) && !exists b: nat :: IsBranch(steps, b)
    requires CountersWithin(steps, c) && c.pc >= 0 && input.outcome == Continue
    ensures var s := Next(steps, c, input);
            && s.Running? && CountersWithin(steps, s.control)
            && LeftOfAll(steps, s.control, m) + (if c.pc < m then 1 else 0) == LeftOfAll(steps, c, m)
  {
    StraightStep(steps, c, input, 0);
    if m > 0 {
      StraightStep(steps, c, input, m - 1);
      StraightSum(steps, c, input, m - 1);
      NothingLeft(steps, Next(steps, c, input).control, m - 1);
    }
  }

  lemma {:induction false} NoneLeft(steps: seq<Step>, c: Control, m: nat)
    requires CountersWithin(steps, c) && c.pc < 0
    ensures LeftOfAll(steps, c, m) == 0
  {
    if m > 0 {
      NoneLeft(steps, c, m - 1);
    }
  }

  lemma {:induction false} LeftBelow(steps: seq<Step>, c: Control, v: nat, m: nat)
    requires CountersWithin(steps, c) && v < m
    ensures Left(steps, c, v) <= LeftOfAll(steps, c, m)
  {
    if v < m - 1 {
      LeftBelow(steps, c, v, m - 1);
    }
  }

  ghost predicate AllContinue(inputs: seq<Input>) {
    forall i | 0 <= i < |inputs| :: inputs[i].outcome == Continue
  }

  lemma {:induction false} StraightRun(steps: seq<Step>, entry: nat, inputs: seq<Input>)
    requires WellStructured(steps, entry) && !exists b: nat :: IsBranch(steps, b)
    requires CountersWithin(steps, Start(steps, entry)) && AllContinue(inputs)
    requires |inputs| <= LeftOfAll(steps, Start(steps, entry), |steps|)
    ensures var s := Run(steps, Running(Start(steps, entry)), inputs);
            && s.Running? && CountersWithin(steps, s.control)
            && LeftOfAll(steps, s.control, |steps|) == LeftOfAll(steps, Start(steps, entry), |steps|) - |inputs|
    decreases |inputs|
  {
    if inputs != [] {
      var last := |inputs| - 1;
      StraightRun(steps, entry, inputs[..last]);
      RunLast(steps, Running(Start(steps, entry)), inputs);
      var before := Run(steps, Running(Start(steps, entry)), inputs[..last]).control;
      if before.pc < 0 {
        NoneLeft(steps, before, |steps|);
      } else {
        StraightSum(steps, before, inputs[last], |steps|);
      }
    }
  }

  lemma {:induction false} TotalIsLeft(steps: seq<Step>, c: Control, most: seq<nat>)
    requires CountersWithin(steps, c) && forall v | 0 <= v < |most| :: most[v] == Left(steps, c, v)
    ensures Total(most) == LeftOfAll(steps, c, |most|)
    decreases |most|
  {
    if most != [] {
      TotalIsLeft(steps, c, most[..|most| - 1]);
    }
  }

  /** A plan without branches has one run in which every step continues, and it
      makes exactly as many transitions as the limit allows, but for the steps
      that run in rounds of a loop only. */
  lemma StraightRunUsesLimit(steps: seq<Step>, entry: nat, inputs: seq<Input>)
    requires WellStructured(steps, entry) && !exists b: nat :: IsBranch(steps, b)
    requires AllContinue(inputs)
    ensures |inputs| + |OnlyInRounds(steps, entry)| < TransitionBound(steps) ==> Pending(steps, entry, inputs)
    ensures |inputs| + |OnlyInRounds(steps, entry)| == TransitionBound(steps) ==>
              var s := Run(steps, Running(Start(steps, entry)), inputs); s.Running? && s.control.pc < 0
  {
    var most := MostExists(steps, entry);
    LimitIsSumOfMost(steps, entry, most);
    TotalIsLeft(steps, Start(steps, entry), most);
    if |inputs| <= Total(most) {
      StraightRun(steps, entry, inputs);
      var c := Run(steps, Running(Start(steps, entry)), inputs).control;
      if c.pc < 0 {
        NoneLeft(steps, c, |steps|);
      } else {
        AtStep(steps, c, c.pc);
        LeftBelow(steps, c, c.pc, |steps|);
      }
    }
  }
}
