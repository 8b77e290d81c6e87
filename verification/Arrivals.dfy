/** The arrival dispatcher: it hands the arrivals that are due to idle
    workers, starts new workers up to a limit, and drops what is left. */
module Arrivals {
  import opened LoadProfile
  import opened LoadSchedule

  /** What the select of the main loop receives, and what the workers do
      meanwhile. */
  datatype Event = TickAt(elapsed: int) | TakeReady | TakeDone | IterationEnds(worker: nat, ok: bool)

  ghost predicate NoRepeats(s: seq<nat>) {
    forall i, j | 0 <= i < j < |s| :: s[i] != s[j]
  }

  class Dispatcher {
    const profile: CompiledProfile
    /** Workers that wait for a job, and those that have said so. */
    var idle: seq<nat>
    var ready: seq<nat>
    /** How many workers have said that they are done. */
    var done: nat
    var liveWorkers: nat
    var nextWorker: nat
    var scheduled: nat
    var dropped: nat
    /** The goroutines in an iteration; the dispatcher never reads it. */
    var busy: set<nat>
    ghost var finished: set<nat>
    /** Iterations that were begun. */
    ghost var started: nat

    /** Every live worker is in one place: idle, ready, in an iteration, or
        about to be counted out. */
    ghost predicate Placed()
      reads this
    {
      && NoRepeats(idle) && NoRepeats(ready)
      && (forall w | w in idle :: w < nextWorker && w !in ready && w !in busy && w !in finished)
      && (forall w | w in ready :: w < nextWorker && w !in busy && w !in finished)
      && (forall w | w in busy :: w < nextWorker && w !in finished)
      && (forall w | w in finished :: w < nextWorker)
    }

    ghost predicate Counted()
      reads this
    {
      && |finished| == done
      && liveWorkers == |idle| + |ready| + |busy| + |finished|
      && liveWorkers <= profile.maxWorkers
    }

    ghost predicate Valid()
      reads this
    {
      && Schedule(profile) && profile.duration > 0 && 0 <= profile.preAllocatedVUs <= profile.maxWorkers
      && Placed() && Counted()
    }

    /** Nothing was lost: every arrival scheduled so far began or was dropped. */
    ghost predicate Conserved()
      reads this
    {
      started + dropped == scheduled
    }

    constructor (profile: CompiledProfile)
      requires Schedule(profile) && profile.duration > 0 && 0 <= profile.preAllocatedVUs <= profile.maxWorkers
      ensures Valid() && Conserved() && this.profile == profile
      ensures scheduled == 0 && started == 0 && dropped == 0
      ensures |idle| == liveWorkers == profile.preAllocatedVUs
    {
      this.profile := profile;
      idle, ready, done, liveWorkers, nextWorker := [], [], 0, 0, 0;
      scheduled, dropped, started, busy, finished := 0, 0, 0, {}, {};
      new;
      while liveWorkers < profile.preAllocatedVUs
        invariant Valid() && liveWorkers == |ready| <= profile.preAllocatedVUs
        invariant scheduled == 0 && started == 0 && dropped == 0 && idle == [] && done == 0
        invariant busy == {} && finished == {}
      {
        StartWorker(false);
      }
      while |idle| < profile.preAllocatedVUs
        invariant Valid() && liveWorkers == |idle| + |ready| == profile.preAllocatedVUs
        invariant scheduled == 0 && started == 0 && dropped == 0
      {
        ReceiveReady();
      }
    }

    method StartWorker(initialIteration: bool)
      requires Valid() && liveWorkers < profile.maxWorkers
      modifies this
      ensures Valid() && liveWorkers == old(liveWorkers) + 1
      ensures unchanged(`idle, `done, `scheduled, `dropped, `finished)
      ensures started == old(started) + if initialIteration then 1 else 0
      ensures busy == old(busy) + if initialIteration then {old(nextWorker)} else {}
      ensures ready == old(ready) + if initialIteration then [] else [old(nextWorker)]
      ensures nextWorker == old(nextWorker) + 1
    {
      hide Schedule;
      if initialIteration {
        assert nextWorker !in busy;
        busy := busy + {nextWorker};
        started := started + 1;
      } else {
        assert forall k | 0 <= k < |ready| :: ready[k] in ready;
        ready := ready + [nextWorker];
      }
      nextWorker := nextWorker + 1;
      liveWorkers := liveWorkers + 1;
    }

    method ReceiveReady()
      requires Valid() && ready != []
      modifies this`idle, this`ready
      ensures Valid() && idle == old(idle) + [old(ready)[0]] && ready == old(ready)[1..]
    {
      var jobs := ready[0];
      assert forall w | w in ready[1..] :: w in ready;
      assert jobs in ready;
      idle := idle + [jobs];
      ready := ready[1..];
    }

    method ReceiveDone()
      requires Valid() && done > 0
      modifies this`done, this`liveWorkers, this`finished
      ensures Valid() && done == old(done) - 1 && liveWorkers == old(liveWorkers) - 1
    {
      ghost var w :| w in finished;
      finished := finished - {w};
      done := done - 1;
      liveWorkers := liveWorkers - 1;
    }

    /** The goroutine of a worker ends an iteration: it reports ready, or
        leaves. */
    method EndIteration(worker: nat, ok: bool)
      requires Valid() && worker in busy
      modifies this`ready, this`done, this`busy, this`finished
      ensures Valid() && busy == old(busy) - {worker}
      ensures ready == old(ready) + if ok then [worker] else []
      ensures done == old(done) + if ok then 0 else 1
    {
      busy := busy - {worker};
      if ok {
        ready := ready + [worker];
      } else {
        finished := finished + {worker};
        done := done + 1;
      }
    }

    /** Take everything that was reported, in whatever order it is received. */
    method DrainReady()
      requires Valid()
      modifies this`idle, this`ready, this`done, this`liveWorkers, this`finished
      ensures Valid() && ready == [] && done == 0
      ensures idle == old(idle) + old(ready) && liveWorkers == old(liveWorkers) - old(done)
    {
      while |ready| > 0 || done > 0
        invariant Valid() && idle + ready == old(idle) + old(ready)
        invariant liveWorkers - done == old(liveWorkers) - old(done)
        decreases |ready| + done
      {
        if
        case ready != [] =>
          assert idle + [ready[0]] + ready[1..] == idle + ready;
          ReceiveReady();
        case done > 0 =>
          ReceiveDone();
      }
    }

    /** An idle worker, the last to have become so, begins an iteration. */
    method GiveJob()
      requires Valid() && idle != []
      modifies this`idle, this`busy, this`started
      ensures Valid() && idle == old(idle)[..|old(idle)| - 1] && started == old(started) + 1
      ensures busy == old(busy) + {old(idle)[|old(idle)| - 1]}
    {
      var last := |idle| - 1;
      var jobs := idle[last];
      assert forall w | w in idle[..last] :: w in idle;
      assert jobs in idle;
      idle := idle[..last];
      busy := busy + {jobs};
      started := started + 1;
    }

    /** Each of the arrivals begins an iteration as long as a worker is idle or
        another may be started; only the rest is dropped. */
    method Dispatch(count: nat)
      requires Valid()
      modifies this
      ensures Valid() && scheduled == old(scheduled)
      ensures started + dropped == old(started) + old(dropped) + count
      ensures dropped > old(dropped) ==> idle == [] && ready == [] && liveWorkers == profile.maxWorkers
      ensures dropped >= old(dropped) && started >= old(started)
      ensures started - old(started) ==
              if count <= |old(idle)| + |old(ready)| + (profile.maxWorkers - (old(liveWorkers) - old(done))) then count
              else |old(idle)| + |old(ready)| + (profile.maxWorkers - (old(liveWorkers) - old(done)))
    {
      DrainReady();
      ghost var capacity := |idle| + (profile.maxWorkers - liveWorkers);
      var left := count;
      while left > 0
        invariant Valid() && 0 <= left <= count && scheduled == old(scheduled) && dropped == old(dropped)
        invariant ready == [] && done == 0
        invariant started == old(started) + (count - left)
        invariant |idle| + (profile.maxWorkers - liveWorkers) == capacity - (count - left)
        decreases left
      {
        if |idle| > 0 {
          GiveJob();
          left := left - 1;
          continue;
        }
        if liveWorkers < profile.maxWorkers {
          StartWorker(true);
          left := left - 1;
          continue;
        }
        dropped := dropped + left;
        return;
      }
    }

    /** A tick: what became due since the last one is dispatched. */
    method OnTick(elapsed: int)
      requires Valid() && Conserved() && scheduled <= ArrivalsOf(profile, profile.duration)
      modifies this
      ensures Valid() && Conserved() && scheduled <= ArrivalsOf(profile, profile.duration)
      ensures scheduled == if ArrivalsOf(profile, elapsed) > old(scheduled) then ArrivalsOf(profile, elapsed)
                           else old(scheduled)
    {
      var expected := ArrivalsThrough(profile, elapsed);
      NeverBeyondEnd(profile, elapsed);
      if expected > scheduled {
        Dispatch(expected - scheduled);
        scheduled := expected;
      }
    }

    /** The events of a run up to the deadline, and the deadline. */
    method Run(events: seq<Event>)
      requires Valid() && Conserved() && scheduled == 0
      modifies this
      ensures Valid() && started + dropped == ArrivalsOf(profile, profile.duration)
      ensures liveWorkers <= profile.maxWorkers
    {
      ArrivalsMonotone(profile, 0, profile.duration);
      for k := 0 to |events|
        invariant Valid() && Conserved() && scheduled <= ArrivalsOf(profile, profile.duration)
      {
        match events[k] {
          case TickAt(elapsed) =>
            OnTick(elapsed);
          case TakeReady =>
            if ready != [] {
              ReceiveReady();
            }
          case TakeDone =>
            if done > 0 {
              ReceiveDone();
            }
          case IterationEnds(worker, ok) =>
            if worker in busy {
              EndIteration(worker, ok);
            }
        }
      }
      OnTick(profile.duration);
    }
  }

  lemma NeverBeyondEnd(c: CompiledProfile, elapsed: int)
    requires Schedule(c) && c.duration > 0
    ensures 0 <= ArrivalsOf(c, elapsed) <= ArrivalsOf(c, c.duration)
  {
    if elapsed <= c.duration {
      ArrivalsMonotone(c, elapsed, c.duration);
    } else {
      ArrivalsMonotone(c, 0, c.duration);
      assert LoadSchedule.Within(c, elapsed) == LoadSchedule.Within(c, c.duration);
    }
  }
}
