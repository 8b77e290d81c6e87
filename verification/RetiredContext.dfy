/** When an active worker can find that the context it iterates under has
    ended: exactly when the schedule lowers it, keeps it low for the whole
    grace, and raises it again. */
module RetiredContext {
  import opened VuScheduler

  // ----- schedules

  /** What the scheduler reads at a tick. */
  datatype Reading = Reading(now: int, target: nat)

  datatype Setup = Setup(maxWorkers: nat, target: nat, startedAt: int, gracefulStop: int)

  predicate ValidSchedule(u: Setup, ticks: seq<Reading>) {
    && u.target <= u.maxWorkers
    && (forall j | 0 <= j < |ticks| :: ticks[j].target <= u.maxWorkers && u.startedAt <= ticks[j].now)
    && (forall j, k | 0 <= j < k < |ticks| :: ticks[j].now <= ticks[k].now)
  }

  /** The target before tick n. */
  function Level(u: Setup, ticks: seq<Reading>, n: nat): nat
    requires n <= |ticks|
  {
    if n == 0 then u.target else ticks[n - 1].target
  }

  /** Tick a lowers worker i, which stays low through tick b. */
  predicate LowThrough(u: Setup, ticks: seq<Reading>, i: nat, a: nat, b: nat) {
    a <= b < |ticks| && Level(u, ticks, a) > i && forall j | a <= j <= b :: ticks[j].target <= i
  }

  /** At tick b the grace that began at tick a is over. */
  predicate Expires(u: Setup, ticks: seq<Reading>, i: nat, a: nat, b: nat) {
    LowThrough(u, ticks, i, a, b) && ticks[b].now >= ticks[a].now + u.gracefulStop
  }

  ghost predicate Retires(u: Setup, ticks: seq<Reading>, i: nat) {
    exists a: nat, b: nat :: Expires(u, ticks, i, a, b)
  }

  predicate RaisedAt(ticks: seq<Reading>, i: nat, c: nat) {
    c < |ticks| && ticks[c].target > i
  }

  /** Worker i is raised at some tick, after its grace was over. */
  ghost predicate Revives(u: Setup, ticks: seq<Reading>, i: nat) {
    exists c: nat :: RaisedAt(ticks, i, c) && Retires(u, ticks[..c], i)
  }

  lemma RetiresLonger(u: Setup, ticks: seq<Reading>, more: seq<Reading>, i: nat)
    requires Retires(u, ticks, i)
    ensures Retires(u, ticks + more, i)
  {
    var a: nat, b: nat :| Expires(u, ticks, i, a, b);
    assert Expires(u, ticks + more, i, a, b);
  }

  lemma RevivesLonger(u: Setup, ticks: seq<Reading>, more: seq<Reading>, i: nat)
    requires Revives(u, ticks, i)
    ensures Revives(u, ticks + more, i)
  {
    var c: nat :| RaisedAt(ticks, i, c) && Retires(u, ticks[..c], i);
    assert (ticks + more)[..c] == ticks[..c] && RaisedAt(ticks + more, i, c);
  }

  /** Raised by the last tick: the grace was over before it. */
  lemma LastRaises(u: Setup, ticks: seq<Reading>, i: nat)
    requires Retires(u, ticks, i) && ticks != [] && ticks[|ticks| - 1].target > i
    ensures Revives(u, ticks, i)
  {
    var last := |ticks| - 1;
    var a: nat, b: nat :| Expires(u, ticks, i, a, b);
    assert Expires(u, ticks[..last], i, a, b);
    assert RaisedAt(ticks, i, last);
  }

  // ----- runs that follow a schedule

  function TicksOf(steps: seq<Step>): seq<Reading> {
    if steps == [] then []
    else
      var last := steps[|steps| - 1];
      TicksOf(steps[..|steps| - 1]) + if last.TickStep? then [Reading(last.now, last.target)] else []
  }

  ghost predicate FollowsBy(u: Setup, steps: seq<Step>, ticks: seq<Reading>, s: State) {
    Leads(Init(u.maxWorkers, u.target, u.startedAt), steps, s, u.gracefulStop) && TicksOf(steps) == ticks
  }

  /** Some interleaving handles exactly these ticks and reaches s. */
  ghost predicate Follows(u: Setup, ticks: seq<Reading>, s: State) {
    exists steps :: FollowsBy(u, steps, ticks, s)
  }

  lemma FollowsInit(u: Setup)
    ensures Follows(u, [], Init(u.maxWorkers, u.target, u.startedAt))
  {
    assert FollowsBy(u, [], [], Init(u.maxWorkers, u.target, u.startedAt));
  }

  lemma FollowsNext(u: Setup, ticks: seq<Reading>, s: State, step: Step)
    requires Follows(u, ticks, s) && Enabled(s, step, u.gracefulStop)
    ensures Follows(u, ticks + if step.TickStep? then [Reading(step.now, step.target)] else [],
                    Next(s, step, u.gracefulStop))
  {
    var steps :| FollowsBy(u, steps, ticks, s);
    var longer := steps + [step];
    assert longer[..|longer| - 1] == steps;
    assert FollowsBy(u, longer, TicksOf(longer), Next(s, step, u.gracefulStop));
  }

  lemma FollowedInvariant(u: Setup, ticks: seq<Reading>, s: State)
    requires u.target <= u.maxWorkers && Follows(u, ticks, s)
    ensures Invariant(s, u.gracefulStop)
  {
    var steps :| FollowsBy(u, steps, ticks, s);
    ReachableInvariant(s, u.maxWorkers, u.target, u.startedAt, u.gracefulStop);
  }

  // ----- a context ends only as the schedule says

  /** No worker will be activated any more. */
  predicate Closed(sched: Sched) {
    match sched
    case Choosing => false
    case Raising(_, _, after) => after.AtDeadline?
    case Waking(_, _, after) => after.AtDeadline?
    case Lowering(_, _, _, after) => after.AtDeadline?
    case Forcing(_, _, draining) => draining
    case _ => true
  }

  /** The tick being handled is the last one. */
  predicate Handles(ticks: seq<Reading>, after: Tick) {
    match after
    case NoTick => ticks == []
    case At(now) => ticks != [] && ticks[|ticks| - 1].now == now
    case AtDeadline => true
  }

  /** Where the scheduler is agrees with the ticks it has handled. */
  predicate Linked(u: Setup, ticks: seq<Reading>, s: State) {
    match s.sched
    case Raising(_, target, after) => target == Level(u, ticks, |ticks|) && Handles(ticks, after)
    case Waking(_, target, after) => target == Level(u, ticks, |ticks|) && Handles(ticks, after)
    case Lowering(_, target, now, after) =>
      && after == At(now) && ticks != [] && ticks[|ticks| - 1] == Reading(now, target)
      && s.currentTarget == Level(u, ticks, |ticks| - 1)
    case Forcing(now, _, _) =>
      ticks != [] && ticks[|ticks| - 1].now == now && s.currentTarget == Level(u, ticks, |ticks|)
    case _ => s.currentTarget == Level(u, ticks, |ticks|)
  }

  /** The tick that lowered a worker which is still low. */
  predicate LoweredBy(u: Setup, ticks: seq<Reading>, i: nat, at: int, a: nat) {
    ticks != [] && LowThrough(u, ticks, i, a, |ticks| - 1) && ticks[a].now == at
  }

  ghost predicate Lowered(u: Setup, ticks: seq<Reading>, i: nat, at: int) {
    exists a: nat :: LoweredBy(u, ticks, i, at, a)
  }

  ghost predicate Tracked(u: Setup, ticks: seq<Reading>, s: State, i: nat)
    requires i < |s.workers|
  {
    && (s.workers[i].active && s.workers[i].contextCancelled ==> Revives(u, ticks, i))
    && (!Closed(s.sched) ==>
          && (s.workers[i].contextCancelled ==> Retires(u, ticks, i))
          && (i in s.retireAt && Level(u, ticks, |ticks|) <= i ==>
                Lowered(u, ticks, i, s.retireAt[i] - u.gracefulStop)))
  }

  ghost predicate Explained(u: Setup, ticks: seq<Reading>, s: State) {
    && (!Closed(s.sched) ==> Linked(u, ticks, s))
    && forall i: nat | i < |s.workers| :: Tracked(u, ticks, s, i)
  }

  lemma WorkerExplained(u: Setup, ticks: seq<Reading>, s: State, i: nat, choice: bool)
    requires Invariant(s, u.gracefulStop) && Explained(u, ticks, s)
    requires Enabled(s, WorkerStep(i, choice), u.gracefulStop)
    ensures Explained(u, ticks, Next(s, WorkerStep(i, choice), u.gracefulStop))
  {
    var t := Next(s, WorkerStep(i, choice), u.gracefulStop);
    WorkerNextFacts(s.workers[i], s.cancelled, choice);
    forall j: nat | j < |t.workers|
      ensures Tracked(u, ticks, t, j)
    {
      assert Tracked(u, ticks, s, j);
    }
  }

  lemma RaiseExplained(u: Setup, ticks: seq<Reading>, s: State)
    requires Invariant(s, u.gracefulStop) && Explained(u, ticks, s)
    requires s.sched.Raising? || s.sched.Waking?
    requires SchedCan(s)
    ensures Explained(u, ticks, SchedNext(s, u.gracefulStop))
  {
    var t := SchedNext(s, u.gracefulStop);
    forall j: nat | j < |t.workers|
      ensures Tracked(u, ticks, t, j)
    {
      assert Tracked(u, ticks, s, j);
      if t.workers[j].active && !s.workers[j].active && t.workers[j].contextCancelled {
        LastRaises(u, ticks, j);
      }
    }
  }

  lemma LowerExplained(u: Setup, ticks: seq<Reading>, s: State)
    requires Invariant(s, u.gracefulStop) && Explained(u, ticks, s)
    requires s.sched.Lowering?
    ensures Explained(u, ticks, SchedNext(s, u.gracefulStop))
  {
    var t := SchedNext(s, u.gracefulStop);
    forall j: nat | j < |t.workers|
      ensures Tracked(u, ticks, t, j)
    {
      assert Tracked(u, ticks, s, j);
      if !Closed(s.sched) && j == s.sched.index < s.currentTarget {
        assert LoweredBy(u, ticks, j, s.sched.now, |ticks| - 1);
      }
    }
  }

  lemma ScanExplained(u: Setup, ticks: seq<Reading>, s: State)
    requires Invariant(s, u.gracefulStop) && Explained(u, ticks, s)
    requires SchedCan(s) && (s.sched.Scanning? || s.sched.Forcing?)
    ensures Explained(u, ticks, SchedNext(s, u.gracefulStop))
  {
    var t := SchedNext(s, u.gracefulStop);
    forall j: nat | j < |t.workers|
      ensures Tracked(u, ticks, t, j)
    {
      assert Tracked(u, ticks, s, j);
    }
  }

  lemma ForceExplained(u: Setup, ticks: seq<Reading>, s: State, i: nat)
    requires Invariant(s, u.gracefulStop) && Explained(u, ticks, s)
    requires Enabled(s, ForceStep(i), u.gracefulStop)
    ensures Explained(u, ticks, Next(s, ForceStep(i), u.gracefulStop))
  {
    var t := Next(s, ForceStep(i), u.gracefulStop);
    assert Tracked(u, ticks, s, i);
    if !Closed(s.sched) {
      assert i in s.retireAt && s.sched.now >= s.retireAt[i];
      var a: nat :| LoweredBy(u, ticks, i, s.retireAt[i] - u.gracefulStop, a);
      assert Expires(u, ticks, i, a, |ticks| - 1);
    }
    forall j: nat | j < |t.workers|
      ensures Tracked(u, ticks, t, j)
    {
      assert Tracked(u, ticks, s, j);
    }
  }

  /** A reading more: what is still low was low before. */
  lemma LowerStays(u: Setup, ticks: seq<Reading>, reading: Reading, i: nat, at: int)
    requires Lowered(u, ticks, i, at) && reading.target <= i
    ensures Lowered(u, ticks + [reading], i, at)
  {
    var a: nat :| LoweredBy(u, ticks, i, at, a);
    assert LoweredBy(u, ticks + [reading], i, at, a);
  }

  lemma TickExplained(u: Setup, ticks: seq<Reading>, s: State, now: int, target: nat)
    requires Invariant(s, u.gracefulStop) && Explained(u, ticks, s)
    requires Enabled(s, TickStep(now, target), u.gracefulStop)
    ensures Explained(u, ticks + [Reading(now, target)], Next(s, TickStep(now, target), u.gracefulStop))
  {
    hide Revives, Retires, Lowered;
    var t := Next(s, TickStep(now, target), u.gracefulStop);
    var longer := ticks + [Reading(now, target)];
    forall j: nat | j < |t.workers|
      ensures Tracked(u, longer, t, j)
    {
      assert Tracked(u, ticks, s, j);
      if Revives(u, ticks, j) {
        RevivesLonger(u, ticks, [Reading(now, target)], j);
      }
      if Retires(u, ticks, j) {
        RetiresLonger(u, ticks, [Reading(now, target)], j);
      }
      if j in s.retireAt && target <= j {
        assert s.currentTarget <= j;
        LowerStays(u, ticks, Reading(now, target), j, s.retireAt[j] - u.gracefulStop);
      }
    }
  }

  /** Only where the scheduler is, and the time, change, and no tick comes. */
  lemma OtherExplained(u: Setup, ticks: seq<Reading>, s: State, step: Step)
    requires Invariant(s, u.gracefulStop) && Explained(u, ticks, s) && Enabled(s, step, u.gracefulStop)
    requires step.DeadlineStep? || step.DrainTick? || step.DrainTimer? || step.CancelStep? || step.SchedStops?
    ensures Explained(u, ticks, Next(s, step, u.gracefulStop))
  {
    var t := Next(s, step, u.gracefulStop);
    forall j: nat | j < |t.workers|
      ensures Tracked(u, ticks, t, j)
    {
      assert Tracked(u, ticks, s, j);
    }
  }

  lemma StepExplained(u: Setup, ticks: seq<Reading>, s: State, step: Step)
    requires Invariant(s, u.gracefulStop) && Explained(u, ticks, s) && Enabled(s, step, u.gracefulStop)
    ensures Explained(u, ticks + if step.TickStep? then [Reading(step.now, step.target)] else [],
                      Next(s, step, u.gracefulStop))
  {
    assert ticks + [] == ticks;
    match step {
      case WorkerStep(i, choice) => WorkerExplained(u, ticks, s, i, choice);
      case TickStep(now, target) => TickExplained(u, ticks, s, now, target);
      case ForceStep(i) => ForceExplained(u, ticks, s, i);
      case SchedStep =>
        if s.sched.Raising? || s.sched.Waking? {
          RaiseExplained(u, ticks, s);
        } else if s.sched.Lowering? {
          LowerExplained(u, ticks, s);
        } else {
          ScanExplained(u, ticks, s);
        }
      case _ => OtherExplained(u, ticks, s, step);
    }
  }

  lemma {:induction false} RunsExplained(u: Setup, steps: seq<Step>, s: State)
    requires u.target <= u.maxWorkers
    requires Leads(Init(u.maxWorkers, u.target, u.startedAt), steps, s, u.gracefulStop)
    ensures Invariant(s, u.gracefulStop) && Explained(u, TicksOf(steps), s)
    decreases |steps|
  {
    var init := Init(u.maxWorkers, u.target, u.startedAt);
    InitInvariant(u.maxWorkers, u.target, u.startedAt, u.gracefulStop);
    if steps != [] {
      var last := |steps| - 1;
      var m :| Leads(init, steps[..last], m, u.gracefulStop) && Enabled(m, steps[last], u.gracefulStop)
               && s == Next(m, steps[last], u.gracefulStop);
      RunsExplained(u, steps[..last], m);
      StepKeeps(m, steps[last], u.gracefulStop);
      StepExplained(u, TicksOf(steps[..last]), m, steps[last]);
    }
  }

  /** The context of an active worker has ended only if the schedule lowered
      it for its whole grace and raised it again; in particular it is live
      whenever no worker is so raised. */
  lemma ActiveContextIsLive(u: Setup, ticks: seq<Reading>, s: State, i: nat)
    requires u.target <= u.maxWorkers && Follows(u, ticks, s)
    requires i < |s.workers| && s.workers[i].active && !Revives(u, ticks, i)
    ensures !s.workers[i].contextCancelled
  {
    var steps :| FollowsBy(u, steps, ticks, s);
    RunsExplained(u, steps, s);
    assert Tracked(u, ticks, s, i);
  }

  // ----- every schedule that raises such a worker can be unlucky

  /** Worker i has started and is about to ask whether it is active. */
  predicate Parked(s: State, i: nat) {
    && i < |s.workers| && !s.cancelled
    && s.workers[i].pc.Waiting? && s.workers[i].hasCancel && !s.workers[i].reset
  }

  predicate Ended(s: State, i: nat) {
    i < |s.workers| && s.workers[i].contextCancelled
  }

  /** Worker i stays where it is, and its context does not come back. */
  ghost predicate Onward(u: Setup, ticks: seq<Reading>, s: State, t: State, i: nat) {
    && Follows(u, ticks, t) && |t.workers| == |s.workers| && t.clock == s.clock
    && (Parked(s, i) ==> Parked(t, i)) && (Ended(s, i) ==> Ended(t, i))
  }

  predicate SameRetirement(s: State, t: State, i: nat) {
    (i in t.retireAt <==> i in s.retireAt) && (i in s.retireAt ==> t.retireAt[i] == s.retireAt[i])
  }

  lemma {:induction false} FinishRaise(u: Setup, ticks: seq<Reading>, s: State, i: nat) returns (t: State)
    requires u.target <= u.maxWorkers && Follows(u, ticks, s) && s.sched.Raising?
    ensures Onward(u, ticks, s, t, i)
    ensures t.sched == Reached(t, s.sched.after) && t.currentTarget == s.sched.target
    ensures s.sched.target <= i ==> SameRetirement(s, t, i)
    decreases if s.sched.Raising? then s.sched.target - s.sched.index else 0
  {
    FollowedInvariant(u, ticks, s);
    FollowsNext(u, ticks, s, SchedStep);
    assert ticks + [] == ticks;
    var m := SchedNext(s, u.gracefulStop);
    if s.sched.index < s.sched.target {
      FollowsNext(u, ticks, m, SchedStep);
      t := FinishRaise(u, ticks, SchedNext(m, u.gracefulStop), i);
    } else {
      t := m;
    }
  }

  lemma {:induction false} FinishLower(u: Setup, ticks: seq<Reading>, s: State, i: nat) returns (t: State)
    requires u.target <= u.maxWorkers && Follows(u, ticks, s) && s.sched.Lowering?
    ensures Onward(u, ticks, s, t, i)
    ensures t.sched == Reached(t, s.sched.after) && t.currentTarget == s.sched.target
    ensures if s.sched.index <= i < s.currentTarget
            then i in t.retireAt && t.retireAt[i] == s.sched.now + u.gracefulStop else SameRetirement(s, t, i)
    decreases if s.sched.Lowering? then |s.workers| - s.sched.index else 0
  {
    FollowedInvariant(u, ticks, s);
    FollowsNext(u, ticks, s, SchedStep);
    assert ticks + [] == ticks;
    var m := SchedNext(s, u.gracefulStop);
    if s.sched.index < s.currentTarget {
      t := FinishLower(u, ticks, m, i);
    } else {
      t := m;
    }
  }

  lemma {:induction false} FinishForce(u: Setup, ticks: seq<Reading>, s: State, i: nat) returns (t: State)
    requires u.target <= u.maxWorkers && Follows(u, ticks, s) && s.sched.Forcing? && !s.sched.draining
    ensures Onward(u, ticks, s, t, i)
    ensures t.sched.Choosing? && t.currentTarget == s.currentTarget
    ensures if i in s.sched.due then Parked(s, i) ==> Ended(t, i) else SameRetirement(s, t, i)
    decreases if s.sched.Forcing? then |s.sched.due| else 0
  {
    FollowedInvariant(u, ticks, s);
    assert ticks + [] == ticks;
    if s.sched.due == {} {
      FollowsNext(u, ticks, s, SchedStep);
      t := SchedNext(s, u.gracefulStop);
    } else {
      var j :| j in s.sched.due;
      FollowsNext(u, ticks, s, ForceStep(j));
      t := FinishForce(u, ticks, Next(s, ForceStep(j), u.gracefulStop), i);
    }
  }

  /** Worker i, low since `at`, is still to be retired, or has been. */
  predicate Waits(u: Setup, s: State, i: nat, at: int) {
    Ended(s, i) || (i in s.retireAt && s.retireAt[i] == at + u.gracefulStop)
  }

  /** After this reading worker i has been low since `at`. */
  predicate LowSince(u: Setup, s: State, reading: Reading, i: nat, at: int) {
    reading.target <= i && if i < s.currentTarget then at == reading.now else Waits(u, s, i, at)
  }

  lemma HandleTick(u: Setup, ticks: seq<Reading>, s: State, reading: Reading, i: nat) returns (t: State)
    requires u.target <= u.maxWorkers && Follows(u, ticks, s) && s.sched.Choosing?
    requires s.clock <= reading.now && reading.target <= |s.workers|
    ensures Follows(u, ticks + [reading], t) && |t.workers| == |s.workers|
    ensures t.sched.Choosing? && t.currentTarget == reading.target && t.clock == reading.now
    ensures (Parked(s, i) ==> Parked(t, i)) && (Ended(s, i) ==> Ended(t, i))
    ensures forall at | Parked(s, i) && LowSince(u, s, reading, i, at) ::
              Waits(u, t, i, at) && (reading.now >= at + u.gracefulStop ==> Ended(t, i))
  {
    var longer := ticks + [reading];
    FollowedInvariant(u, ticks, s);
    FollowsNext(u, ticks, s, TickStep(reading.now, reading.target));
    var m := Next(s, TickStep(reading.now, reading.target), u.gracefulStop);
    var n := m;
    if m.sched.Raising? {
      n := FinishRaise(u, longer, m, i);
    } else if m.sched.Lowering? {
      n := FinishLower(u, longer, m, i);
    }
    t := FinishForce(u, longer, n, i);
  }

  /** Some interleaving has handled the first n ticks and left worker i
      waiting. */
  ghost predicate Stands(u: Setup, ticks: seq<Reading>, n: nat, i: nat, s: State)
    requires n <= |ticks|
  {
    && Follows(u, ticks[..n], s) && s.sched.Choosing? && Parked(s, i) && |s.workers| == u.maxWorkers
    && s.currentTarget == Level(u, ticks, n) && s.clock == (if n == 0 then u.startedAt else ticks[n - 1].now)
  }

  lemma Begin(u: Setup, ticks: seq<Reading>, i: nat) returns (s: State)
    requires u.target <= u.maxWorkers && i < u.maxWorkers
    ensures Stands(u, ticks, 0, i, s)
  {
    var init := Init(u.maxWorkers, u.target, u.startedAt);
    FollowsInit(u);
    FollowsNext(u, [], init, WorkerStep(i, true));
    s := FinishRaise(u, [], Next(init, WorkerStep(i, true), u.gracefulStop), i);
    assert ticks[..0] == [];
  }

  lemma StandsNext(u: Setup, ticks: seq<Reading>, n: nat, i: nat, s: State) returns (t: State)
    requires ValidSchedule(u, ticks) && n < |ticks| && Stands(u, ticks, n, i, s)
    ensures Stands(u, ticks, n + 1, i, t) && (Ended(s, i) ==> Ended(t, i))
    ensures forall at | LowSince(u, s, ticks[n], i, at) ::
              Waits(u, t, i, at) && (ticks[n].now >= at + u.gracefulStop ==> Ended(t, i))
  {
    t := HandleTick(u, ticks[..n], s, ticks[n], i);
    assert ticks[..n + 1] == ticks[..n] + [ticks[n]];
  }

  lemma {:induction false} StandsAt(u: Setup, ticks: seq<Reading>, n: nat, i: nat) returns (s: State)
    requires ValidSchedule(u, ticks) && n <= |ticks| && i < u.maxWorkers
    ensures Stands(u, ticks, n, i, s)
  {
    if n == 0 {
      s := Begin(u, ticks, i);
    } else {
      s := StandsAt(u, ticks, n - 1, i);
      s := StandsNext(u, ticks, n - 1, i, s);
    }
  }

  lemma {:induction false} WaitsThrough(u: Setup, ticks: seq<Reading>, i: nat, a: nat, n: nat) returns (s: State)
    requires ValidSchedule(u, ticks) && i < u.maxWorkers && LowThrough(u, ticks, i, a, n)
    ensures Stands(u, ticks, n + 1, i, s) && Waits(u, s, i, ticks[a].now)
    ensures ticks[n].now >= ticks[a].now + u.gracefulStop ==> Ended(s, i)
  {
    if n == a {
      s := StandsAt(u, ticks, a, i);
    } else {
      s := WaitsThrough(u, ticks, i, a, n - 1);
    }
    s := StandsNext(u, ticks, n, i, s);
  }

  lemma {:induction false} StaysEnded(u: Setup, ticks: seq<Reading>, i: nat, b: nat, n: nat, s: State)
    returns (t: State)
    requires ValidSchedule(u, ticks) && b <= n <= |ticks| && Stands(u, ticks, b, i, s) && Ended(s, i)
    ensures Stands(u, ticks, n, i, t) && Ended(t, i)
    decreases n
  {
    t := s;
    if b < n {
      t := StaysEnded(u, ticks, i, b, n - 1, s);
      t := StandsNext(u, ticks, n - 1, i, t);
    }
  }

  /** An active worker iterates under a context that has ended. */
  ghost predicate IteratesInVain(s: State, i: nat) {
    && i < |s.workers| && !s.cancelled
    && s.workers[i].active && s.workers[i].pc.Iterating? && s.workers[i].contextCancelled
  }

  lemma StepWorker(u: Setup, ticks: seq<Reading>, s: State, i: nat) returns (t: State)
    requires Follows(u, ticks, s) && Enabled(s, WorkerStep(i, true), u.gracefulStop)
    ensures t == Next(s, WorkerStep(i, true), u.gracefulStop) && Follows(u, ticks, t)
  {
    t := Next(s, WorkerStep(i, true), u.gracefulStop);
    FollowsNext(u, ticks, s, WorkerStep(i, true));
    assert ticks + [] == ticks;
  }

  lemma Iterates(u: Setup, ticks: seq<Reading>, s: State, i: nat) returns (t: State)
    requires u.target <= u.maxWorkers && Follows(u, ticks, s) && Parked(s, i) && Ended(s, i) && s.workers[i].active
    ensures Follows(u, ticks, t) && IteratesInVain(t, i)
  {
    FollowedInvariant(u, ticks, s);
    t := StepWorker(u, ticks, s, i);
    t := StepWorker(u, ticks, t, i);
    t := StepWorker(u, ticks, t, i);
    t := StepWorker(u, ticks, t, i);
  }

  /** Some run that keeps to the schedule, as far as it goes, iterates in
      vain. */
  ghost predicate VainAfter(u: Setup, ticks: seq<Reading>, n: nat, s: State, i: nat) {
    n <= |ticks| && Follows(u, ticks[..n], s) && IteratesInVain(s, i)
  }

  lemma RevivedIteratesInVain(u: Setup, ticks: seq<Reading>, i: nat) returns (n: nat, s: State)
    requires ValidSchedule(u, ticks) && Revives(u, ticks, i)
    ensures VainAfter(u, ticks, n, s, i)
  {
    var c: nat :| RaisedAt(ticks, i, c) && Retires(u, ticks[..c], i);
    var a: nat, b: nat :| Expires(u, ticks[..c], i, a, b);
    assert Level(u, ticks[..c], a) == Level(u, ticks, a);
    assert LowThrough(u, ticks, i, a, b);
    s := WaitsThrough(u, ticks, i, a, b);
    n := c + 1;
    s := StaysEnded(u, ticks, i, b + 1, n, s);
    FollowedInvariant(u, ticks[..n], s);
    s := Iterates(u, ticks[..n], s, i);
  }

  /** A schedule lets an active worker iterate under a context that has ended,
      in some interleaving, exactly when it raises a worker whose grace was
      over. */
  lemma CancelledContextIsExact(u: Setup, ticks: seq<Reading>)
    requires ValidSchedule(u, ticks)
    ensures (exists n: nat, s, i: nat :: VainAfter(u, ticks, n, s, i)) <==> exists i: nat :: Revives(u, ticks, i)
  {
    if i: nat :| Revives(u, ticks, i) {
      var n, s := RevivedIteratesInVain(u, ticks, i);
    }
    if n: nat, s, i: nat :| VainAfter(u, ticks, n, s, i) {
      if !Revives(u, ticks[..n], i) {
        ActiveContextIsLive(u, ticks[..n], s, i);
      }
      RevivesLonger(u, ticks[..n], ticks[n..], i);
      assert ticks[..n] + ticks[n..] == ticks;
    }
  }

  /** One worker with a grace of 10, lowered at 10 and raised at 30. */
  lemma ReactivatedUnderCancelledContext()
    ensures exists s :: Reachable(s, 1, 1, 0, 10) && IteratesInVain(s, 0)
  {
    var u := Setup(1, 1, 0, 10);
    var ticks := [Reading(10, 0), Reading(20, 0), Reading(30, 1)];
    assert Expires(u, ticks[..2], 0, 0, 1) && RaisedAt(ticks, 0, 2);
    var n, s := RevivedIteratesInVain(u, ticks, 0);
    var steps :| FollowsBy(u, steps, ticks[..n], s);
    assert Reachable(s, 1, 1, 0, 10);
  }
}
