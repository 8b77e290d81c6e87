/** The permit pacer: a ticker puts permits into a bounded channel, carrying
    the remainder of the rate from tick to tick; workers take them. */
module Pacer {

  const MAX_PACER_TICKS: nat := 1000
  const SECOND: nat := 1000000000

  function Rate(rps: int): (r: nat)
    ensures r >= 1
  {
    if rps < 1 then 1 else rps
  }

  function PermitsPerTick(rps: int): nat {
    if Rate(rps) > MAX_PACER_TICKS then Rate(rps) / MAX_PACER_TICKS else 1
  }

  function RemainderPerTick(rps: int): nat {
    if Rate(rps) > MAX_PACER_TICKS then Rate(rps) % MAX_PACER_TICKS else 0
  }

  function Capacity(rps: int): (c: nat)
    ensures c >= 1
  {
    if Rate(rps) > MAX_PACER_TICKS then
      Rate(rps) / MAX_PACER_TICKS + if Rate(rps) % MAX_PACER_TICKS > 0 then 1 else 0
    else 1
  }

  // ----- the pacer as a machine

  /** `offered` and `granted` count what ticks tried to put in and what
      waiters were given. */
  datatype State = State(permits: nat, remainder: nat, ticks: nat, offered: nat, granted: nat)

  /** A waiter whose context ends while it takes a permit loses the permit. */
  datatype Event = Tick | Grant | Lose

  function Start(): State {
    State(1, 0, 0, 0, 0)
  }

  function TickCount(rps: int, s: State): nat {
    PermitsPerTick(rps) + if s.remainder + RemainderPerTick(rps) >= MAX_PACER_TICKS then 1 else 0
  }

  predicate Enabled(s: State, event: Event) {
    event == Tick || s.permits > 0
  }

  function Next(rps: int, s: State, event: Event): State
    requires Enabled(s, event)
  {
    match event
    case Tick =>
      var carried := s.remainder + RemainderPerTick(rps);
      var filled := s.permits + TickCount(rps, s);
      State(if filled > Capacity(rps) then Capacity(rps) else filled,
            if carried >= MAX_PACER_TICKS then carried - MAX_PACER_TICKS else carried,
            s.ticks + 1, s.offered + TickCount(rps, s), s.granted)
    case Grant => s.(permits := s.permits - 1, granted := s.granted + 1)
    case Lose => s.(permits := s.permits - 1)
  }

  ghost predicate Leads(rps: int, s: State, events: seq<Event>, t: State)
    decreases |events|
  {
    if events == [] then t == s
    else
      var before := events[..|events| - 1];
      exists m :: Leads(rps, s, before, m) && Enabled(m, events[|events| - 1])
                  && t == Next(rps, m, events[|events| - 1])
  }

  // ----- what is offered

  /** The permits that k ticks owe at the rate. */
  function Owed(rps: int, k: nat): nat {
    if Rate(rps) > MAX_PACER_TICKS then k * Rate(rps) / MAX_PACER_TICKS else k
  }

  ghost predicate OnSchedule(rps: int, s: State) {
    && s.permits <= Capacity(rps)
    && s.remainder < MAX_PACER_TICKS
    && (Rate(rps) > MAX_PACER_TICKS ==> s.ticks * Rate(rps) == MAX_PACER_TICKS * s.offered + s.remainder)
    && (Rate(rps) <= MAX_PACER_TICKS ==> s.offered == s.ticks && s.remainder == 0)
  }

  lemma StepOnSchedule(rps: int, s: State, event: Event)
    requires OnSchedule(rps, s) && Enabled(s, event)
    ensures OnSchedule(rps, Next(rps, s, event))
  {
    var rate := Rate(rps);
    assert rate > MAX_PACER_TICKS ==> rate == MAX_PACER_TICKS * PermitsPerTick(rps) + RemainderPerTick(rps);
    assert (s.ticks + 1) * rate == s.ticks * rate + rate;
  }

  lemma {:induction false} RunOnSchedule(rps: int, s: State, events: seq<Event>, t: State)
    requires OnSchedule(rps, s) && Leads(rps, s, events, t)
    ensures OnSchedule(rps, t)
    decreases |events|
  {
    if events != [] {
      var before := events[..|events| - 1];
      var m :| Leads(rps, s, before, m) && Enabled(m, events[|events| - 1])
               && t == Next(rps, m, events[|events| - 1]);
      RunOnSchedule(rps, s, before, m);
      StepOnSchedule(rps, m, events[|events| - 1]);
    }
  }

  /** The remainder that is carried makes up for the division exactly. */
  lemma OfferedIsOwed(rps: int, events: seq<Event>, t: State)
    requires Leads(rps, Start(), events, t)
    ensures t.offered == Owed(rps, t.ticks)
  {
    RunOnSchedule(rps, Start(), events, t);
    var rate := Rate(rps);
    if rate > MAX_PACER_TICKS {
      assert t.ticks * rate == MAX_PACER_TICKS * t.offered + t.remainder;
    }
  }

  /** A thousand ticks, which are a second, owe the rate. */
  lemma SecondOwesRate(rps: int, k: nat)
    requires Rate(rps) > MAX_PACER_TICKS
    ensures Owed(rps, k + MAX_PACER_TICKS) == Owed(rps, k) + Rate(rps)
  {
    var rate := Rate(rps);
    assert (k + MAX_PACER_TICKS) * rate == k * rate + MAX_PACER_TICKS * rate;
  }

  // ----- what is granted

  lemma {:induction false} GrantsFromPermits(rps: int, s: State, events: seq<Event>, t: State)
    requires OnSchedule(rps, s) && Leads(rps, s, events, t)
    ensures t.granted + t.permits <= s.granted + s.permits + (t.offered - s.offered)
    ensures s.offered <= t.offered && s.ticks <= t.ticks
    decreases |events|
  {
    if events != [] {
      var before := events[..|events| - 1];
      var m :| Leads(rps, s, before, m) && Enabled(m, events[|events| - 1])
               && t == Next(rps, m, events[|events| - 1]);
      GrantsFromPermits(rps, s, before, m);
    }
  }

  /** Whatever the waiters do, between two moments no more is granted than one
      capacity and what the ticks between them owe. */
  lemma WindowBound(rps: int, past: seq<Event>, s: State, events: seq<Event>, t: State)
    requires Leads(rps, Start(), past, s) && Leads(rps, s, events, t)
    ensures t.granted - s.granted <= Capacity(rps) + Owed(rps, t.ticks) - Owed(rps, s.ticks)
    ensures t.ticks >= s.ticks
  {
    RunOnSchedule(rps, Start(), past, s);
    OfferedIsOwed(rps, past, s);
    GrantsFromPermits(rps, s, events, t);
    LeadsOn(rps, Start(), past, s, events, t);
    OfferedIsOwed(rps, past + events, t);
  }

  /** The channel holds what one tick offers at most, and no more. */
  lemma CapacityIsOneTick(rps: int)
    ensures Rate(rps) <= MAX_PACER_TICKS ==> Capacity(rps) == 1
    ensures Rate(rps) > MAX_PACER_TICKS ==>
              MAX_PACER_TICKS * (Capacity(rps) - 1) < Rate(rps) <= MAX_PACER_TICKS * Capacity(rps)
  {
  }

  lemma OwedBetween(rps: int, j: nat, k: nat)
    requires j <= k
    ensures Rate(rps) > MAX_PACER_TICKS ==>
              MAX_PACER_TICKS * (Owed(rps, k) - Owed(rps, j)) < (k - j) * Rate(rps) + MAX_PACER_TICKS
  {
    var rate := Rate(rps);
    assert k * rate == j * rate + (k - j) * rate;
  }

  lemma OneTickMore(ticks: int, rate: int)
    ensures (ticks + 1) * rate == ticks * rate + rate
  {
  }

  /** In numbers: a slow pacer grants one permit more than there are ticks at
      most, a fast one less than two permits more than one tick more would give. */
  lemma RateIsKept(rps: int, past: seq<Event>, s: State, events: seq<Event>, t: State)
    requires Leads(rps, Start(), past, s) && Leads(rps, s, events, t)
    ensures Rate(rps) <= MAX_PACER_TICKS ==> t.granted - s.granted <= 1 + (t.ticks - s.ticks)
    ensures Rate(rps) > MAX_PACER_TICKS ==>
              MAX_PACER_TICKS * (t.granted - s.granted) < (t.ticks - s.ticks + 1) * Rate(rps) + 2 * MAX_PACER_TICKS
  {
    hide Leads, Capacity, Next, Rate;
    WindowBound(rps, past, s, events, t);
    CapacityIsOneTick(rps);
    if Rate(rps) > MAX_PACER_TICKS {
      hide Owed;
      OwedBetween(rps, s.ticks, t.ticks);
      OneTickMore(t.ticks - s.ticks, Rate(rps));
    }
  }

  // ----- nothing is lost while the waiters keep up

  /** Such a run in which every tick finds all permits taken. */
  ghost predicate KeepsUp(rps: int, s: State, events: seq<Event>, t: State)
    decreases |events|
  {
    if events == [] then t == s
    else
      var before := events[..|events| - 1];
      exists m :: KeepsUp(rps, s, before, m) && Enabled(m, events[|events| - 1])
                  && (events[|events| - 1] == Tick ==> m.permits == 0) && t == Next(rps, m, events[|events| - 1])
  }

  function Losses(events: seq<Event>): nat {
    if events == [] then 0
    else Losses(events[..|events| - 1]) + if events[|events| - 1] == Lose then 1 else 0
  }

  lemma TickFits(rps: int, s: State)
    ensures TickCount(rps, s) <= Capacity(rps) || s.remainder >= MAX_PACER_TICKS
  {
  }

  lemma {:induction false} KeptUpLeads(rps: int, s: State, events: seq<Event>, t: State)
    requires KeepsUp(rps, s, events, t)
    ensures Leads(rps, s, events, t)
    decreases |events|
  {
    if events != [] {
      var before := events[..|events| - 1];
      var m :| KeepsUp(rps, s, before, m) && Enabled(m, events[|events| - 1])
               && (events[|events| - 1] == Tick ==> m.permits == 0) && t == Next(rps, m, events[|events| - 1]);
      KeptUpLeads(rps, s, before, m);
    }
  }

  /** While the waiters keep up they are given everything that the ticks owe,
      but for the permits that are waiting and those lost. */
  lemma {:induction false} AllIsGranted(rps: int, events: seq<Event>, t: State)
    requires KeepsUp(rps, Start(), events, t)
    ensures t.permits + t.granted + Losses(events) == 1 + Owed(rps, t.ticks)
    decreases |events|
  {
    KeptUpLeads(rps, Start(), events, t);
    OfferedIsOwed(rps, events, t);
    if events != [] {
      var before := events[..|events| - 1];
      var m :| KeepsUp(rps, Start(), before, m) && Enabled(m, events[|events| - 1])
               && (events[|events| - 1] == Tick ==> m.permits == 0) && t == Next(rps, m, events[|events| - 1]);
      AllIsGranted(rps, before, m);
      KeptUpLeads(rps, Start(), before, m);
      OfferedIsOwed(rps, before, m);
      RunOnSchedule(rps, Start(), before, m);
      TickFits(rps, m);
    }
  }

  /** From the start on, one permit more than is owed at most. */
  lemma TotalBound(rps: int, events: seq<Event>, t: State)
    requires Leads(rps, Start(), events, t)
    ensures t.granted <= 1 + Owed(rps, t.ticks)
  {
    GrantsFromPermits(rps, Start(), events, t);
    OfferedIsOwed(rps, events, t);
  }

  lemma {:induction false} LeadsOn(rps: int, s: State, a: seq<Event>, m: State, b: seq<Event>, t: State)
    requires Leads(rps, s, a, m) && Leads(rps, m, b, t)
    ensures Leads(rps, s, a + b, t)
    decreases |b|
  {
    if b == [] {
      assert a + b == a;
    } else {
      var before := b[..|b| - 1];
      var n :| Leads(rps, m, before, n) && Enabled(n, b[|b| - 1]) && t == Next(rps, n, b[|b| - 1]);
      LeadsOn(rps, s, a, m, before, n);
      assert (a + b)[..|a + b| - 1] == a + before;
    }
  }

  // ----- the limiter

  class RateLimiter {
    ghost const rps: int
    const interval: nat
    const permitsPerTick: nat
    const remainderPerTick: nat
    const permitCapacity: nat
    /** How many permits the channel holds. */
    var permits: nat
    var remainder: nat
    ghost var state: State

    ghost predicate Valid()
      reads this
    {
      && permitsPerTick == PermitsPerTick(rps) && remainderPerTick == RemainderPerTick(rps)
      && permitCapacity == Capacity(rps)
      && permits == state.permits && remainder == state.remainder
      && OnSchedule(rps, state)
    }

    constructor (rps: int)
      ensures Valid() && this.rps == rps && state == Start()
      ensures interval == SECOND / if Rate(rps) > MAX_PACER_TICKS then MAX_PACER_TICKS else Rate(rps)
    {
      var rate := if rps < 1 then 1 else rps;
      var interval, perTick, remainderPerTick, capacity := SECOND / rate, 1, 0, 1;
      if rate > MAX_PACER_TICKS {
        interval := SECOND / MAX_PACER_TICKS;
        perTick := rate / MAX_PACER_TICKS;
        remainderPerTick := rate % MAX_PACER_TICKS;
        capacity := perTick;
        if remainderPerTick > 0 {
          capacity := capacity + 1;
        }
      }
      this.rps, this.interval := rps, interval;
      this.permitsPerTick, this.remainderPerTick, this.permitCapacity := perTick, remainderPerTick, capacity;
      permits, remainder := 1, 0;
      state := Start();
    }

    method OnTick()
      requires Valid()
      modifies this
      ensures Valid() && state == Next(rps, old(state), Tick)
    {
      var count := permitsPerTick;
      remainder := remainder + remainderPerTick;
      if remainder >= MAX_PACER_TICKS {
        count := count + 1;
        remainder := remainder - MAX_PACER_TICKS;
      }
      var sent := 0;
      while sent < count && permits < permitCapacity
        invariant sent <= count && permits == old(permits) + sent <= permitCapacity
        modifies this`permits
      {
        permits := permits + 1;
        sent := sent + 1;
      }
      StepOnSchedule(rps, state, Tick);
      state := Next(rps, state, Tick);
    }

    /** Take a permit if there is one; `done` tells whether the context had
        ended before, and after, the permit was taken. */
    method Take(doneBefore: bool, doneAfter: bool) returns (ok: bool)
      requires Valid()
      modifies this
      ensures Valid()
      ensures doneBefore || old(permits) == 0 ==> !ok && state == old(state)
      ensures !doneBefore && old(permits) > 0 ==>
                ok == !doneAfter && state == Next(rps, old(state), if ok then Grant else Lose)
    {
      if doneBefore || permits == 0 {
        return false;
      }
      permits := permits - 1;
      ok := !doneAfter;
      StepOnSchedule(rps, state, if ok then Grant else Lose);
      state := Next(rps, state, if ok then Grant else Lose);
    }
  }
}
