/** The scheduler of virtual users as the object that its goroutine works on:
    its loops take the steps of the interleaved machine one after the other. */
module VuControls {
  import opened VuScheduler

  /** Some number of steps of the scheduler alone. */
  ghost predicate SchedLeads(s: State, n: nat, t: State, gracefulStop: int)
    decreases n
  {
    if n == 0 then t == s
    else
      && SchedCan(s) && |s.since| == |s.workers|
      && SchedLeads(SchedNext(s, gracefulStop), n - 1, t, gracefulStop)
  }

  lemma {:induction false} OneMore(s: State, n: nat, m: State, gracefulStop: int)
    requires SchedLeads(s, n, m, gracefulStop) && SchedCan(m) && |m.since| == |m.workers|
    ensures SchedLeads(s, n + 1, SchedNext(m, gracefulStop), gracefulStop)
    decreases n
  {
    if n > 0 {
      OneMore(SchedNext(s, gracefulStop), n - 1, m, gracefulStop);
    } else {
      assert SchedLeads(SchedNext(s, gracefulStop), 0, SchedNext(m, gracefulStop), gracefulStop);
    }
  }

  ghost predicate Comes(s: State, t: State, gracefulStop: int) {
    exists n: nat :: SchedLeads(s, n, t, gracefulStop)
  }

  lemma ComesFirst(s: State, gracefulStop: int)
    ensures Comes(s, s, gracefulStop)
  {
    assert SchedLeads(s, 0, s, gracefulStop);
  }

  lemma ComesOn(s: State, m: State, gracefulStop: int)
    requires Comes(s, m, gracefulStop) && SchedCan(m) && |m.since| == |m.workers|
    ensures Comes(s, SchedNext(m, gracefulStop), gracefulStop)
  {
    var n: nat :| SchedLeads(s, n, m, gracefulStop);
    OneMore(s, n, m, gracefulStop);
  }

  /** Storing the flag of a worker and waking it. */
  function Activated(s: State, index: nat, target: nat, after: Tick): State
    requires index < |s.workers|
  {
    s.(workers := s.workers[index := s.workers[index].(active := true, wake := true)],
       retireAt := s.retireAt - {index}, sched := Raising(index + 1, target, after))
  }

  lemma ComesActivated(s: State, m: State, index: nat, target: nat, after: Tick, gracefulStop: int)
    requires Comes(s, m, gracefulStop) && |m.since| == |m.workers|
    requires m.sched == Raising(index, target, after) && index < target <= |m.workers|
    ensures Comes(s, Activated(m, index, target, after), gracefulStop)
  {
    ComesOn(s, m, gracefulStop);
    var stored := SchedNext(m, gracefulStop);
    ComesOn(s, stored, gracefulStop);
    assert SchedNext(stored, gracefulStop).workers == Activated(m, index, target, after).workers;
  }

  /** Clearing the flag of a worker and noting when it is due. */
  function Deactivated(s: State, index: nat, target: nat, now: int, after: Tick, gracefulStop: int): State
    requires index < |s.workers| == |s.since|
  {
    s.(workers := s.workers[index := s.workers[index].(active := false)],
       retireAt := s.retireAt[index := now + gracefulStop], since := s.since[index := now],
       sched := Lowering(index + 1, target, now, after))
  }

  lemma ComesDeactivated(s: State, m: State, index: nat, target: nat, now: int, after: Tick, gracefulStop: int)
    requires Comes(s, m, gracefulStop) && |m.since| == |m.workers|
    requires m.sched == Lowering(index, target, now, after) && index < m.currentTarget <= |m.workers|
    ensures Comes(s, Deactivated(m, index, target, now, after, gracefulStop), gracefulStop)
  {
    ComesOn(s, m, gracefulStop);
  }

  /** The target is reached. */
  function Arrived(s: State, target: nat, after: Tick): State {
    var t := s.(currentTarget := target);
    t.(sched := VuScheduler.Reached(t, after))
  }

  lemma ComesLowered(s: State, m: State, target: nat, now: int, after: Tick, gracefulStop: int)
    requires Comes(s, m, gracefulStop) && |m.since| == |m.workers|
    requires m.sched.Lowering? && m.sched == Lowering(m.sched.index, target, now, after)
             && m.sched.index >= m.currentTarget
    ensures Comes(s, Arrived(m, target, after), gracefulStop)
  {
    ComesOn(s, m, gracefulStop);
  }

  /** A worker that is due is visited. */
  function Visited(s: State, index: nat): State
    requires s.sched.Forcing? && index < |s.workers|
  {
    s.(workers := s.workers[index := Force(s.workers[index])], retireAt := s.retireAt - {index},
       sched := s.sched.(due := s.sched.due - {index}))
  }

  lemma VisitIsStep(s: State, index: nat, gracefulStop: int)
    requires s.sched.Forcing? && index in s.sched.due && index < |s.workers| == |s.since|
    ensures Enabled(s, ForceStep(index), gracefulStop) && Next(s, ForceStep(index), gracefulStop) == Visited(s, index)
  {
  }

  /** Just these workers were retired by force. */
  ghost predicate ForcedIn(done: set<nat>, before: seq<Worker>, after: seq<Worker>) {
    |after| == |before|
    && forall i | 0 <= i < |after| :: after[i] == if i in done then Force(before[i]) else before[i]
  }

  lemma NoneForced(workers: seq<Worker>)
    ensures ForcedIn({}, workers, workers)
  {
  }

  lemma OneMoreForced(done: set<nat>, index: nat, before: seq<Worker>, after: seq<Worker>)
    requires ForcedIn(done, before, after) && index < |after| && index !in done
    ensures ForcedIn(done + {index}, before, after[index := Force(after[index])])
    ensures |after| == |before|
  {
  }

  class Controls {
    const gracefulStop: int
    var workers: seq<Worker>
    var retireAt: map<nat, int>
    var currentTarget: nat
    /** Where the machine is, and when workers were last told to stop. */
    ghost var state: State

    ghost predicate Valid()
      reads this
    {
      && workers == state.workers && retireAt == state.retireAt && currentTarget == state.currentTarget
      && |state.since| == |workers| && currentTarget <= |workers|
    }

    method SetActive(index: nat, active: bool)
      requires index < |workers|
      modifies this`workers
      ensures workers == old(workers)[index := if active then old(workers)[index].(active := true, wake := true)
                                               else old(workers)[index].(active := false)]
    {
      workers := workers[index := workers[index].(active := active)];
      if active {
        workers := workers[index := workers[index].(wake := true)];
      }
    }

    method Raise(target: nat, after: Tick)
      requires Valid() && currentTarget < target <= |workers| && state.sched == Raising(currentTarget, target, after)
      modifies this
      ensures Valid() && Comes(old(state), state, gracefulStop)
      ensures state.sched == Reached(state, after) && currentTarget == target
      ensures |workers| == |old(workers)|
      ensures forall i | 0 <= i < |workers| ::
                workers[i] == if old(currentTarget) <= i < target then old(workers)[i].(active := true, wake := true)
                              else old(workers)[i]
      ensures forall i :: i in retireAt <==> i in old(retireAt) && !(old(currentTarget) <= i < target)
      ensures forall i | i in retireAt :: retireAt[i] == old(retireAt)[i]
    {
      assert SchedLeads(state, 0, state, gracefulStop);
      for index := currentTarget to target
        invariant Valid() && Comes(old(state), state, gracefulStop) && currentTarget == old(currentTarget)
        invariant state.sched == Raising(index, target, after) && |workers| == |old(workers)|
        invariant forall i | 0 <= i < |workers| ::
                    workers[i] == if old(currentTarget) <= i < index then old(workers)[i].(active := true, wake := true)
                                  else old(workers)[i]
        invariant forall i :: i in retireAt <==> i in old(retireAt) && !(old(currentTarget) <= i < index)
        invariant forall i | i in retireAt :: retireAt[i] == old(retireAt)[i]
      {
        retireAt := retireAt - {index};
        SetActive(index, true);
        ComesActivated(old(state), state, index, target, after, gracefulStop);
        state := Activated(state, index, target, after);
      }
      ComesOn(old(state), state, gracefulStop);
      state := SchedNext(state, gracefulStop);
      currentTarget := target;
    }

    method Lower(target: nat, now: int, after: Tick)
      requires Valid() && target < currentTarget && state.sched == Lowering(target, target, now, after)
      modifies this
      ensures Valid() && Comes(old(state), state, gracefulStop)
      ensures state.sched == Reached(state, after) && currentTarget == target
      ensures |workers| == |old(workers)|
      ensures forall i | 0 <= i < |workers| ::
                workers[i] == if target <= i < old(currentTarget) then old(workers)[i].(active := false)
                              else old(workers)[i]
      ensures forall i :: i in retireAt <==> i in old(retireAt) || target <= i < old(currentTarget)
      ensures forall i | i in retireAt ::
                retireAt[i] == if target <= i < old(currentTarget) then now + gracefulStop else old(retireAt)[i]
    {
      ComesFirst(state, gracefulStop);
      hide SchedNext, SchedLeads, Comes;
      var deadline := now + gracefulStop;
      for index := target to currentTarget
        invariant Valid() && Comes(old(state), state, gracefulStop) && currentTarget == old(currentTarget)
        invariant state.sched == Lowering(index, target, now, after) && |workers| == |old(workers)|
        invariant forall i | 0 <= i < |workers| ::
                    workers[i] == if target <= i < index then old(workers)[i].(active := false) else old(workers)[i]
        invariant forall i :: i in retireAt <==> i in old(retireAt) || target <= i < index
        invariant forall i | i in retireAt ::
                    retireAt[i] == if target <= i < index then now + gracefulStop else old(retireAt)[i]
      {
        SetActive(index, false);
        retireAt := retireAt[index := deadline];
        ComesDeactivated(old(state), state, index, target, now, after, gracefulStop);
        state := Deactivated(state, index, target, now, after, gracefulStop);
      }
      ComesLowered(old(state), state, target, now, after, gracefulStop);
      state := Arrived(state, target, after);
      currentTarget := target;
    }

    /** Bring the number of active workers to the target. */
    method Reconcile(target: nat, now: int, after: Tick)
      requires Valid() && state.sched.Choosing? && target <= |workers|
      requires forall i | 0 <= i < |workers| :: workers[i].active <==> i < currentTarget
      modifies this
      ensures Valid() && Comes(VuScheduler.Reconcile(old(state), target, now, after), state, gracefulStop)
      ensures state.sched == Reached(state, after) && currentTarget == target && |workers| == |old(workers)|
      ensures forall i | 0 <= i < |workers| :: workers[i].active <==> i < target
    {
      state := VuScheduler.Reconcile(state, target, now, after);
      if target > currentTarget {
        Raise(target, after);
      } else if target < currentTarget {
        Lower(target, now, after);
      } else {
        assert SchedLeads(state, 0, state, gracefulStop);
      }
    }

    method ForceRetire(index: nat)
      requires index < |workers|
      modifies this`workers
      ensures workers == old(workers)[index := Force(old(workers)[index])]
    {
      if !workers[index].active && workers[index].hasCancel {
        workers := workers[index := workers[index].(contextCancelled := true)];
      }
    }

    /** Workers whose grace is over lose their context, unless they are active
        again. */
    method ForceRetiredWorkers(now: int)
      requires Valid() && state.sched.Forcing? && state.sched.now == now && state.sched.due == Due(retireAt, now)
      requires forall i | i in retireAt :: i < |workers|
      modifies this
      ensures Valid() && state.sched.Forcing? && state.sched.due == {} && currentTarget == old(currentTarget)
      ensures retireAt == old(retireAt) - Due(old(retireAt), now)
      ensures ForcedIn(Due(old(retireAt), now), old(workers), workers)
    {
      hide Next, Enabled, ForcedIn;
      NoneForced(workers);
      ghost var done: set<nat> := {};
      var left := Due(retireAt, now);
      while left != {}
        invariant Valid() && currentTarget == old(currentTarget) && |workers| == |old(workers)|
        invariant done !! left && done + left == Due(old(retireAt), now)
        invariant state.sched == old(state.sched).(due := left)
        invariant retireAt == old(retireAt) - done && ForcedIn(done, old(workers), workers)
        decreases left
      {
        var index :| index in left;
        assert index in old(retireAt);
        VisitIsStep(state, index, gracefulStop);
        OneMoreForced(done, index, old(workers), workers);
        state := Visited(state, index);
        ForceRetire(index);
        retireAt := retireAt - {index};
        left := left - {index};
        done := done + {index};
      }
      assert done == Due(old(retireAt), now);
    }

    method AllIdle() returns (idle: bool)
      ensures idle <==> forall i | 0 <= i < |workers| :: !workers[i].busy
    {
      for index := 0 to |workers|
        invariant forall i | 0 <= i < index :: !workers[i].busy
      {
        if workers[index].busy {
          return false;
        }
      }
      return true;
    }
  }
}
