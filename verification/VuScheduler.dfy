/** The scheduler of virtual users and its workers, as atomic steps that
    interleave in any order: raising and lowering the number of active
    workers, retiring them, and draining them at the end. */
module VuScheduler {

  // ----- the state

  /** Where the goroutine of a worker is. */
  datatype Pc =
    | Starting | Waiting | Loading | Sleeping | Resetting | SettingBusy | Checking | BackingOff
    | Iterating | Ending(completed: bool) | Deciding(completed: bool) | Exited

  /** `hasCancel` tells whether the control holds the cancel function of the
      worker's context, `contextCancelled` whether that context has ended. */
  datatype Worker = Worker(pc: Pc, active: bool, busy: bool, wake: bool, reset: bool,
                           hasCancel: bool, contextCancelled: bool)

  /** Where the scheduler is.  `after` is the time of the tick being handled,
      if one is. */
  datatype Sched =
    | Choosing
    | Raising(index: nat, target: nat, after: Tick)
    | Waking(index: nat, target: nat, after: Tick)
    | Lowering(index: nat, target: nat, now: int, after: Tick)
    | Forcing(now: int, due: set<nat>, draining: bool)
    | DrainWaiting
    | Scanning(index: nat)
    | Finished(reason: Reason)

  datatype Tick = NoTick | At(now: int) | AtDeadline

  datatype Reason = AllIdle | TimedOut | Cancelled

  /** `since` is the time at which a worker was last told to stop. */
  datatype State = State(workers: seq<Worker>, retireAt: map<nat, int>, since: seq<int>, currentTarget: nat,
                         clock: int, sched: Sched, cancelled: bool)

  datatype Step =
    | WorkerStep(worker: nat, choice: bool)
    | TickStep(now: int, target: nat)
    | DeadlineStep(now: int)
    | SchedStep
    | ForceStep(worker: nat)
    | DrainTick(now: int)
    | DrainTimer
    | CancelStep
    | SchedStops

  function Fresh(): Worker {
    Worker(Starting, false, false, false, false, false, false)
  }

  function Init(maxWorkers: nat, target: nat, startedAt: int): State {
    State(seq(maxWorkers, _ => Fresh()), map[], seq(maxWorkers, _ => startedAt), 0, startedAt,
          Raising(0, target, NoTick), false)
  }

  // ----- the worker

  predicate WorkerCan(w: Worker, cancelled: bool, choice: bool) {
    match w.pc
    case Sleeping => if choice then w.wake else cancelled
    case Exited => false
    case _ => true
  }

  /** One step of a worker; `choice` picks the branch of a select, or whether
      an iteration completes. */
  function WorkerNext(w: Worker, cancelled: bool, choice: bool): Worker
    requires WorkerCan(w, cancelled, choice)
  {
    match w.pc
    case Starting => w.(pc := Waiting, hasCancel := true)
    case Waiting => w.(pc := if cancelled then Exited else Loading)
    case Loading => w.(pc := if !w.active then Sleeping else if w.reset then Resetting else SettingBusy)
    case Sleeping => if choice then w.(pc := Waiting, wake := false) else w.(pc := Exited)
    case Resetting => w.(pc := SettingBusy, reset := false, contextCancelled := false)
    case SettingBusy => w.(pc := Checking, busy := true)
    case Checking => w.(pc := if w.active then Iterating else BackingOff)
    case BackingOff => w.(pc := Waiting, busy := false)
    case Iterating => w.(pc := Ending(choice))
    case Ending(completed) => w.(pc := Deciding(completed), busy := false)
    case Deciding(completed) =>
      if !completed && cancelled then w.(pc := Exited) else w.(pc := Waiting, reset := !completed)
  }

  // ----- the scheduler

  function Due(retireAt: map<nat, int>, now: int): set<nat> {
    set i | i in retireAt && now >= retireAt[i]
  }

  /** What follows once the target is reached. */
  function Reached(s: State, after: Tick): Sched {
    match after
    case NoTick => Choosing
    case At(now) => Forcing(now, Due(s.retireAt, now), false)
    case AtDeadline => Scanning(0)
  }

  function Reconcile(s: State, target: nat, now: int, after: Tick): State {
    if target > s.currentTarget then s.(sched := Raising(s.currentTarget, target, after))
    else if target < s.currentTarget then s.(sched := Lowering(target, target, now, after))
    else s.(sched := Reached(s, after))
  }

  predicate SchedCan(s: State) {
    match s.sched
    case Raising(index, target, _) => index <= |s.workers|
    case Waking(index, target, _) => index < |s.workers|
    case Lowering(index, target, _, _) => true
    case Forcing(_, due, _) => due == {}
    case Scanning(index) => true
    case _ => false
  }

  /** Nothing waits in select: the next statement of the scheduler runs. */
  function SchedNext(s: State, gracefulStop: int): State
    requires SchedCan(s) && |s.since| == |s.workers|
  {
    match s.sched
    case Raising(index, target, after) =>
      if index < target && index < |s.workers| then
        s.(workers := s.workers[index := s.workers[index].(active := true)],
           retireAt := s.retireAt - {index}, sched := Waking(index, target, after))
      else
        var t := s.(currentTarget := target);
        t.(sched := Reached(t, after))
    case Waking(index, target, after) =>
      s.(workers := s.workers[index := s.workers[index].(wake := true)], sched := Raising(index + 1, target, after))
    case Lowering(index, target, now, after) =>
      if index < s.currentTarget && index < |s.workers| then
        s.(workers := s.workers[index := s.workers[index].(active := false)],
           retireAt := s.retireAt[index := now + gracefulStop], since := s.since[index := now],
           sched := Lowering(index + 1, target, now, after))
      else
        var t := s.(currentTarget := target);
        t.(sched := Reached(t, after))
    case Forcing(_, _, draining) => s.(sched := if draining then Scanning(0) else Choosing)
    case Scanning(index) =>
      if gracefulStop <= 0 then s.(cancelled := true, sched := Finished(TimedOut))
      else if index >= |s.workers| then s.(cancelled := true, sched := Finished(AllIdle))
      else if s.workers[index].busy then s.(sched := DrainWaiting)
      else s.(sched := Scanning(index + 1))
  }

  function Force(w: Worker): Worker {
    if !w.active && w.hasCancel then w.(contextCancelled := true) else w
  }

  // ----- all steps

  predicate Enabled(s: State, step: Step, gracefulStop: int) {
    |s.since| == |s.workers|
    && match step
       case WorkerStep(i, choice) => i < |s.workers| && WorkerCan(s.workers[i], s.cancelled, choice)
       case TickStep(now, target) => s.sched.Choosing? && now >= s.clock && target <= |s.workers|
       case DeadlineStep(now) => s.sched.Choosing? && now >= s.clock
       case SchedStep => SchedCan(s)
       case ForceStep(i) => s.sched.Forcing? && i in s.sched.due && i < |s.workers|
       case DrainTick(now) => s.sched.DrainWaiting? && now >= s.clock
       case DrainTimer => s.sched.DrainWaiting?
       case CancelStep => true
       case SchedStops => s.cancelled && (s.sched.Choosing? || s.sched.DrainWaiting?)
  }

  function Next(s: State, step: Step, gracefulStop: int): State
    requires Enabled(s, step, gracefulStop)
  {
    match step
    case WorkerStep(i, choice) => s.(workers := s.workers[i := WorkerNext(s.workers[i], s.cancelled, choice)])
    case TickStep(now, target) => Reconcile(s.(clock := now), target, now, At(now))
    case DeadlineStep(now) => Reconcile(s.(clock := now), 0, now, AtDeadline)
    case SchedStep => SchedNext(s, gracefulStop)
    case ForceStep(i) =>
      s.(workers := s.workers[i := Force(s.workers[i])], retireAt := s.retireAt - {i},
         sched := s.sched.(due := s.sched.due - {i}))
    case DrainTick(now) => s.(clock := now, sched := Forcing(now, Due(s.retireAt, now), true))
    case DrainTimer => s.(cancelled := true, sched := Finished(TimedOut))
    case CancelStep => s.(cancelled := true)
    case SchedStops => s.(sched := Finished(Cancelled))
  }

  ghost predicate Leads(s: State, steps: seq<Step>, t: State, gracefulStop: int)
    decreases |steps|
  {
    if steps == [] then t == s
    else
      var last := |steps| - 1;
      exists m :: Leads(s, steps[..last], m, gracefulStop) && Enabled(m, steps[last], gracefulStop)
                  && t == Next(m, steps[last], gracefulStop)
  }

  ghost predicate Reachable(s: State, maxWorkers: nat, target: nat, startedAt: int, gracefulStop: int) {
    exists steps :: Leads(Init(maxWorkers, target, startedAt), steps, s, gracefulStop)
  }

  // ----- what always holds

  /** The flag that other goroutines read tells where the worker is. */
  predicate BusyAsShown(w: Worker) {
    w.busy <==> w.pc.Checking? || w.pc.BackingOff? || w.pc.Iterating? || w.pc.Ending?
  }

  /** A worker that was told to stop and is not in an iteration cannot start
      one. */
  predicate Quiet(w: Worker) {
    !w.active && !w.pc.Iterating? && !w.pc.Ending?
  }

  /** A worker sleeps through its activation only until it is woken. */
  predicate WakesUp(s: State, i: nat)
    requires i < |s.workers|
  {
    s.workers[i].pc.Sleeping? && s.workers[i].active ==> s.workers[i].wake || (s.sched.Waking? && s.sched.index == i)
  }

  predicate Draining(sched: Sched) {
    || sched.DrainWaiting? || sched.Scanning?
    || (sched.Forcing? && sched.draining)
    || (sched.Finished? && sched.reason != Cancelled)
  }

  /** How many workers, from the first, are active. */
  function ActiveBelow(s: State): nat {
    match s.sched
    case Raising(index, _, _) => index
    case Waking(index, _, _) => index + 1
    case Lowering(_, target, _, _) => s.currentTarget
    case _ => s.currentTarget
  }

  ghost predicate ActiveFits(s: State) {
    match s.sched
    case Lowering(index, target, _, _) =>
      target <= index <= s.currentTarget <= |s.workers|
      && forall i | 0 <= i < |s.workers| :: s.workers[i].active <==> i < target || index <= i < s.currentTarget
    case _ =>
      ActiveBelow(s) <= |s.workers|
      && forall i | 0 <= i < |s.workers| :: s.workers[i].active <==> i < ActiveBelow(s)
  }

  /** A worker is due only after the grace that followed its stop. */
  ghost predicate Retiring(s: State, gracefulStop: int) {
    && (forall i | i in s.retireAt ::
          i < |s.workers| == |s.since| && !s.workers[i].active && s.retireAt[i] == s.since[i] + gracefulStop)
    && (s.sched.Forcing? ==> forall i | i in s.sched.due :: i in s.retireAt && s.sched.now >= s.retireAt[i])
  }

  predicate TargetsFit(s: State) {
    match s.sched
    case Raising(index, target, after) =>
      s.currentTarget <= index <= target <= |s.workers| && !after.AtDeadline?
    case Waking(index, target, after) =>
      s.currentTarget <= index < target <= |s.workers| && !after.AtDeadline?
    case Lowering(index, target, _, after) =>
      target <= index && target < s.currentTarget && (after.AtDeadline? ==> target == 0)
    case _ => true
  }

  ghost predicate Invariant(s: State, gracefulStop: int) {
    && |s.since| == |s.workers|
    && TargetsFit(s) && ActiveFits(s) && Retiring(s, gracefulStop)
    && (forall i | 0 <= i < |s.workers| :: BusyAsShown(s.workers[i]) && WakesUp(s, i))
    && (Draining(s.sched) ==> s.currentTarget == 0)
    && (s.sched.Scanning? ==> s.sched.index <= |s.workers|
                              && forall i | 0 <= i < s.sched.index :: Quiet(s.workers[i]))
    && (s.sched.Finished? && s.sched.reason == AllIdle ==> forall i | 0 <= i < |s.workers| :: Quiet(s.workers[i]))
  }

  lemma InitInvariant(maxWorkers: nat, target: nat, startedAt: int, gracefulStop: int)
    requires target <= maxWorkers
    ensures Invariant(Init(maxWorkers, target, startedAt), gracefulStop)
  {
  }

  lemma WorkerNextFacts(w: Worker, cancelled: bool, choice: bool)
    requires WorkerCan(w, cancelled, choice) && BusyAsShown(w)
    ensures var v := WorkerNext(w, cancelled, choice);
            && v.active == w.active && BusyAsShown(v) && (Quiet(w) ==> Quiet(v))
            && (v.pc.Sleeping? ==> !v.active)
  {
    match w.pc {
      case Starting =>
      case Waiting =>
      case Loading =>
      case Sleeping =>
      case Resetting =>
      case SettingBusy =>
      case Checking =>
      case BackingOff =>
      case Iterating =>
      case Ending(completed) =>
      case Deciding(completed) =>
    }
  }

  lemma WorkerStepKeeps(s: State, i: nat, choice: bool, gracefulStop: int)
    requires Invariant(s, gracefulStop) && i < |s.workers| && WorkerCan(s.workers[i], s.cancelled, choice)
    ensures Invariant(Next(s, WorkerStep(i, choice), gracefulStop), gracefulStop)
  {
    var w := WorkerNext(s.workers[i], s.cancelled, choice);
    var t := s.(workers := s.workers[i := w]);
    WorkerNextFacts(s.workers[i], s.cancelled, choice);
    ReplacedWorker(s, t, i, w, gracefulStop);
  }

  lemma ReplacedFits(s: State, t: State, i: nat, w: Worker, gracefulStop: int)
    requires Invariant(s, gracefulStop) && i < |s.workers| && t == s.(workers := s.workers[i := w])
    requires w.active == s.workers[i].active
    ensures TargetsFit(t) && ActiveFits(t) && Retiring(t, gracefulStop)
  {
    assert forall j | 0 <= j < |t.workers| :: t.workers[j].active == s.workers[j].active;
  }

  lemma ReplacedWorker(s: State, t: State, i: nat, w: Worker, gracefulStop: int)
    requires Invariant(s, gracefulStop) && i < |s.workers| && t == s.(workers := s.workers[i := w])
    requires w.active == s.workers[i].active && BusyAsShown(w) && (Quiet(s.workers[i]) ==> Quiet(w))
    requires w.pc.Sleeping? ==> !w.active
    ensures Invariant(t, gracefulStop)
  {
    ReplacedFits(s, t, i, w, gracefulStop);
    hide ActiveFits, Retiring, TargetsFit;
    forall j | 0 <= j < |t.workers|
      ensures BusyAsShown(t.workers[j]) && WakesUp(t, j)
      ensures Quiet(s.workers[j]) ==> Quiet(t.workers[j])
    {
      assert WakesUp(s, j) && BusyAsShown(s.workers[j]);
    }
  }

  lemma RaisingKeeps(s: State, gracefulStop: int)
    requires Invariant(s, gracefulStop) && (s.sched.Raising? || s.sched.Waking?) && SchedCan(s)
    ensures Invariant(SchedNext(s, gracefulStop), gracefulStop)
  {
    var t := SchedNext(s, gracefulStop);
    forall j | 0 <= j < |t.workers|
      ensures BusyAsShown(t.workers[j]) && WakesUp(t, j)
    {
      assert BusyAsShown(s.workers[j]) && WakesUp(s, j);
    }
  }

  lemma LoweringFits(s: State, gracefulStop: int)
    requires Invariant(s, gracefulStop) && s.sched.Lowering?
    ensures var t := SchedNext(s, gracefulStop); TargetsFit(t) && ActiveFits(t)
  {
  }

  lemma LoweringRetires(s: State, gracefulStop: int)
    requires Invariant(s, gracefulStop) && s.sched.Lowering?
    ensures Retiring(SchedNext(s, gracefulStop), gracefulStop)
  {
  }

  lemma LoweringKeeps(s: State, gracefulStop: int)
    requires Invariant(s, gracefulStop) && s.sched.Lowering?
    ensures Invariant(SchedNext(s, gracefulStop), gracefulStop)
  {
    var t := SchedNext(s, gracefulStop);
    LoweringFits(s, gracefulStop);
    LoweringRetires(s, gracefulStop);
    LoweringKeepsWorkers(s, gracefulStop);
    assert Draining(t.sched) ==> t.currentTarget == 0;
  }

  lemma LoweringKeepsWorkers(s: State, gracefulStop: int)
    requires Invariant(s, gracefulStop) && s.sched.Lowering?
    ensures var t := SchedNext(s, gracefulStop);
            forall j | 0 <= j < |t.workers| :: BusyAsShown(t.workers[j]) && WakesUp(t, j)
  {
    var t := SchedNext(s, gracefulStop);
    forall j | 0 <= j < |t.workers|
      ensures BusyAsShown(t.workers[j]) && WakesUp(t, j)
    {
      assert BusyAsShown(s.workers[j]) && WakesUp(s, j);
    }
  }

  lemma ScanKeeps(s: State, gracefulStop: int)
    requires Invariant(s, gracefulStop) && SchedCan(s) && (s.sched.Scanning? || s.sched.Forcing?)
    ensures Invariant(SchedNext(s, gracefulStop), gracefulStop)
  {
    var t := SchedNext(s, gracefulStop);
    forall j | 0 <= j < |t.workers|
      ensures BusyAsShown(t.workers[j]) && WakesUp(t, j)
    {
      assert BusyAsShown(s.workers[j]) && WakesUp(s, j);
    }
  }

  lemma ForceKeeps(s: State, i: nat, gracefulStop: int)
    requires Invariant(s, gracefulStop) && Enabled(s, ForceStep(i), gracefulStop)
    ensures Invariant(Next(s, ForceStep(i), gracefulStop), gracefulStop)
  {
    var t := Next(s, ForceStep(i), gracefulStop);
    forall j | 0 <= j < |t.workers|
      ensures BusyAsShown(t.workers[j]) && WakesUp(t, j)
    {
      assert BusyAsShown(s.workers[j]) && WakesUp(s, j);
    }
  }

  /** Only where the scheduler is, and the time, change. */
  lemma MovedOn(s: State, t: State, gracefulStop: int)
    requires Invariant(s, gracefulStop) && !s.sched.Waking?
    requires t == s.(clock := t.clock, sched := t.sched, cancelled := t.cancelled)
    requires TargetsFit(t) && ActiveFits(t) && Retiring(t, gracefulStop)
    requires Draining(t.sched) ==> t.currentTarget == 0
    requires t.sched.Scanning? ==> t.sched.index == 0
    requires t.sched.Finished? ==> t.sched.reason != AllIdle
    ensures Invariant(t, gracefulStop)
  {
    forall j | 0 <= j < |t.workers|
      ensures BusyAsShown(t.workers[j]) && WakesUp(t, j)
    {
      assert BusyAsShown(s.workers[j]) && WakesUp(s, j);
    }
  }

  lemma ReconcileKeeps(s: State, target: nat, now: int, after: Tick, gracefulStop: int)
    requires Invariant(s, gracefulStop) && s.sched.Choosing? && target <= |s.workers|
    requires match after case NoTick => false case At(n) => n == now case AtDeadline => target == 0
    ensures Invariant(Reconcile(s.(clock := now), target, now, after), gracefulStop)
  {
    var t := Reconcile(s.(clock := now), target, now, after);
    MovedOn(s, t, gracefulStop);
  }

  lemma DrainKeeps(s: State, step: Step, gracefulStop: int)
    requires Invariant(s, gracefulStop) && Enabled(s, step, gracefulStop)
    requires step.DrainTick? || step.DrainTimer? || step.SchedStops?
    ensures Invariant(Next(s, step, gracefulStop), gracefulStop)
  {
    MovedOn(s, Next(s, step, gracefulStop), gracefulStop);
  }

  lemma CancelKeeps(s: State, gracefulStop: int)
    requires Invariant(s, gracefulStop)
    ensures Invariant(s.(cancelled := true), gracefulStop)
  {
    var t := s.(cancelled := true);
    forall j | 0 <= j < |t.workers|
      ensures BusyAsShown(t.workers[j]) && WakesUp(t, j)
    {
      assert BusyAsShown(s.workers[j]) && WakesUp(s, j);
    }
  }

  lemma StepKeeps(s: State, step: Step, gracefulStop: int)
    requires Invariant(s, gracefulStop) && Enabled(s, step, gracefulStop)
    ensures Invariant(Next(s, step, gracefulStop), gracefulStop)
  {
    match step {
      case WorkerStep(i, choice) => WorkerStepKeeps(s, i, choice, gracefulStop);
      case ForceStep(i) => ForceKeeps(s, i, gracefulStop);
      case SchedStep =>
        if s.sched.Raising? || s.sched.Waking? {
          RaisingKeeps(s, gracefulStop);
        } else if s.sched.Lowering? {
          LoweringKeeps(s, gracefulStop);
        } else {
          ScanKeeps(s, gracefulStop);
        }
      case TickStep(now, target) => ReconcileKeeps(s, target, now, At(now), gracefulStop);
      case DeadlineStep(now) => ReconcileKeeps(s, 0, now, AtDeadline, gracefulStop);
      case CancelStep => CancelKeeps(s, gracefulStop);
      case _ => DrainKeeps(s, step, gracefulStop);
    }
  }

  lemma {:induction false} LeadsKeeps(s: State, steps: seq<Step>, t: State, gracefulStop: int)
    requires Invariant(s, gracefulStop) && Leads(s, steps, t, gracefulStop)
    ensures Invariant(t, gracefulStop)
    decreases |steps|
  {
    if steps != [] {
      var last := |steps| - 1;
      var m :| Leads(s, steps[..last], m, gracefulStop) && Enabled(m, steps[last], gracefulStop)
               && t == Next(m, steps[last], gracefulStop);
      LeadsKeeps(s, steps[..last], m, gracefulStop);
      StepKeeps(m, steps[last], gracefulStop);
    }
  }

  lemma ReachableInvariant(s: State, maxWorkers: nat, target: nat, startedAt: int, gracefulStop: int)
    requires target <= maxWorkers && Reachable(s, maxWorkers, target, startedAt, gracefulStop)
    ensures Invariant(s, gracefulStop)
  {
    InitInvariant(maxWorkers, target, startedAt, gracefulStop);
    var steps :| Leads(Init(maxWorkers, target, startedAt), steps, s, gracefulStop);
    LeadsKeeps(Init(maxWorkers, target, startedAt), steps, s, gracefulStop);
  }

  // ----- what is promised

  /** When all workers were seen idle after the deadline, no iteration is under
      way at the cancellation, and none starts afterwards. */
  lemma DrainCutsNothing(s: State, maxWorkers: nat, target: nat, startedAt: int, gracefulStop: int,
                         steps: seq<Step>, t: State)
    requires target <= maxWorkers && Reachable(s, maxWorkers, target, startedAt, gracefulStop)
    requires s.sched == Finished(AllIdle) && Leads(s, steps, t, gracefulStop)
    ensures forall i | 0 <= i < |s.workers| :: !s.workers[i].pc.Iterating?
    ensures |t.workers| == |s.workers|
    ensures forall i | 0 <= i < |t.workers| :: !t.workers[i].active && !t.workers[i].pc.Iterating?
  {
    ReachableInvariant(s, maxWorkers, target, startedAt, gracefulStop);
    StaysFinished(s, steps, t, gracefulStop);
    LeadsKeeps(s, steps, t, gracefulStop);
    forall i | 0 <= i < |s.workers|
      ensures !s.workers[i].pc.Iterating?
    {
      assert Quiet(s.workers[i]);
    }
    forall i | 0 <= i < |t.workers|
      ensures !t.workers[i].active && !t.workers[i].pc.Iterating?
    {
      assert Quiet(t.workers[i]);
    }
  }

  lemma FinishedStep(s: State, step: Step, gracefulStop: int)
    requires s.sched.Finished? && Enabled(s, step, gracefulStop)
    ensures Next(s, step, gracefulStop).sched == s.sched
    ensures |Next(s, step, gracefulStop).workers| == |s.workers|
  {
  }

  lemma {:induction false} StaysFinished(s: State, steps: seq<Step>, t: State, gracefulStop: int)
    requires s.sched.Finished? && Leads(s, steps, t, gracefulStop)
    ensures t.sched == s.sched && |t.workers| == |s.workers|
    decreases |steps|
  {
    if steps != [] {
      var last := |steps| - 1;
      var m :| Leads(s, steps[..last], m, gracefulStop) && Enabled(m, steps[last], gracefulStop)
               && t == Next(m, steps[last], gracefulStop);
      StaysFinished(s, steps[..last], m, gracefulStop);
      FinishedStep(m, steps[last], gracefulStop);
    }
  }

  /** Whoever is retired by force has been told to stop for the whole grace
      period, on the clock of the scheduler. */
  lemma ForcedOnlyAfterGrace(s: State, maxWorkers: nat, target: nat, startedAt: int, gracefulStop: int, i: nat)
    requires target <= maxWorkers && Reachable(s, maxWorkers, target, startedAt, gracefulStop)
    requires Enabled(s, ForceStep(i), gracefulStop)
    ensures !s.workers[i].active && s.sched.now - s.since[i] >= gracefulStop
  {
    ReachableInvariant(s, maxWorkers, target, startedAt, gracefulStop);
  }

  /** Between ticks exactly the first `currentTarget` workers are active, and
      an active worker that sleeps has been sent its wake-up. */
  lemma ActiveMatchesTarget(s: State, maxWorkers: nat, target: nat, startedAt: int, gracefulStop: int, i: nat)
    requires target <= maxWorkers && Reachable(s, maxWorkers, target, startedAt, gracefulStop)
    requires s.sched.Choosing? && i < |s.workers|
    ensures s.workers[i].active <==> i < s.currentTarget
    ensures s.workers[i].active && s.workers[i].pc.Sleeping? ==> s.workers[i].wake
  {
    ReachableInvariant(s, maxWorkers, target, startedAt, gracefulStop);
    assert WakesUp(s, i);
  }
}
