/** Piecewise linear load profiles: the target at each instant, and the number
    of arrivals through it as the integral of the target. */
module LoadProfile {

  const MAX_LOAD_STAGES: nat := 64
  const MAX_PROFILE_VIRTUAL_USERS: nat := 100000
  const MAX_RATE_LIMIT_RPS: nat := 10000000
  const MAX_INT64: int := 0x7FFF_FFFF_FFFF_FFFF
  const SECOND: real := 1000000000.0
  const EPSILON: real := 0.000000001

  datatype LoadMode = ConstantVUs | RampingVUs | ConstantArrival | RampingArrival | UnsupportedMode

  /** Durations are nanoseconds. */
  datatype LoadStage = LoadStage(duration: int, target: int)

  datatype LoadProfile = LoadProfile(mode: LoadMode, startTarget: int, stages: seq<LoadStage>,
                                     preAllocatedVUs: int, maxVUs: int, gracefulStop: int)

  datatype CompiledProfile = CompiledProfile(mode: LoadMode, startTarget: int, stages: seq<LoadStage>, duration: int,
                                             preAllocatedVUs: int, maxWorkers: int, gracefulStop: int)

  // ----- the target, over real time

  ghost predicate PositiveStages(stages: seq<LoadStage>) {
    forall i | 0 <= i < |stages| :: stages[i].duration > 0
  }

  /** The straight line of a stage. */
  function Line(from: real, to: real, duration: real, t: real): real
    requires duration > 0.0
  {
    from + (to - from) * (t / duration)
  }

  /** The target t nanoseconds after the stages began at `from`. */
  ghost function Target(from: real, stages: seq<LoadStage>, t: real): real
    requires PositiveStages(stages)
    decreases |stages|
  {
    if stages == [] then from
    else
      var d, to := stages[0].duration as real, stages[0].target as real;
      if t < d then Line(from, to, d, t) else Target(to, stages[1..], t - d)
  }

  /** The area under the target between 0 and t. */
  ghost function Area(from: real, stages: seq<LoadStage>, t: real): real
    requires PositiveStages(stages)
    decreases |stages|
  {
    if stages == [] then from * t
    else
      var d, to := stages[0].duration as real, stages[0].target as real;
      if t < d then (from + Line(from, to, d, t)) * 0.5 * t
      else (from + to) * 0.5 * d + Area(to, stages[1..], t - d)
  }

  ghost predicate Between(from: real, stages: seq<LoadStage>, s: real, t: real, lo: real, hi: real)
    requires PositiveStages(stages)
  {
    forall u: real | s <= u <= t :: lo <= Target(from, stages, u) <= hi
  }

  /** The area under a line of slope k. */
  function Trapezium(from: real, k: real, t: real): real {
    (from + (from + k * t)) * 0.5 * t
  }

  lemma Scale(x: real, y: real, w: real)
    requires x <= y && w >= 0.0
    ensures x * w <= y * w
  {
    assert (y - x) * w >= 0.0;
  }

  /** Half-way between the sides of a trapezium. */
  function Middle(from: real, k: real, s: real, t: real): real {
    ((from + k * s) + (from + k * t)) * 0.5
  }

  lemma TrapeziumBetween(from: real, k: real, s: real, t: real)
    ensures Trapezium(from, k, t) - Trapezium(from, k, s) == Middle(from, k, s, t) * (t - s)
  {
  }

  lemma MiddleBetween(from: real, k: real, s: real, t: real, lo: real, hi: real)
    requires lo <= from + k * s <= hi && lo <= from + k * t <= hi
    ensures lo <= Middle(from, k, s, t) <= hi
  {
  }

  /** A trapezium lies between its lowest and its highest side. */
  lemma TrapeziumBounds(from: real, k: real, s: real, t: real, lo: real, hi: real)
    requires s <= t
    requires lo <= from + k * s <= hi && lo <= from + k * t <= hi
    ensures lo * (t - s) <= Trapezium(from, k, t) - Trapezium(from, k, s) <= hi * (t - s)
  {
    hide Trapezium, Middle;
    TrapeziumBetween(from, k, s, t);
    MiddleBetween(from, k, s, t, lo, hi);
    Scale(lo, Middle(from, k, s, t), t - s);
    Scale(Middle(from, k, s, t), hi, t - s);
  }

  lemma LineIsSlope(from: real, to: real, duration: real, t: real)
    requires duration > 0.0
    ensures Line(from, to, duration, t) == from + ((to - from) / duration) * t
    ensures Line(from, to, duration, duration) == to
    ensures Line(from, to, duration, 0.0) == from
  {
  }

  lemma TargetAtZero(from: real, stages: seq<LoadStage>)
    requires PositiveStages(stages)
    ensures Target(from, stages, 0.0) == from && Area(from, stages, 0.0) == 0.0
  {
    if stages != [] {
      LineIsSlope(from, stages[0].target as real, stages[0].duration as real, 0.0);
    }
  }

  /** In the first stage, its end included, the target is a line. */
  lemma FirstStage(from: real, stages: seq<LoadStage>, t: real) returns (k: real)
    requires PositiveStages(stages) && stages != [] && 0.0 <= t <= stages[0].duration as real
    ensures k == (stages[0].target as real - from) / stages[0].duration as real
    ensures Target(from, stages, t) == from + k * t
    ensures Area(from, stages, t) == Trapezium(from, k, t)
  {
    var d, to := stages[0].duration as real, stages[0].target as real;
    k := (to - from) / d;
    LineIsSlope(from, to, d, t);
    LineIsSlope(from, to, d, d);
    if t == d {
      TargetAtZero(to, stages[1..]);
      assert Area(from, stages, t) == (from + to) * 0.5 * d;
    }
  }

  lemma {:induction false} AreaInStage(from: real, stages: seq<LoadStage>, s: real, t: real, lo: real, hi: real)
    requires PositiveStages(stages) && stages != [] && 0.0 <= s <= t <= stages[0].duration as real
    requires Between(from, stages, s, t, lo, hi)
    ensures lo * (t - s) <= Area(from, stages, t) - Area(from, stages, s) <= hi * (t - s)
  {
    assert lo <= Target(from, stages, s) <= hi && lo <= Target(from, stages, t) <= hi;
    var k := FirstStage(from, stages, s);
    var l := FirstStage(from, stages, t);
    assert Target(from, stages, s) == from + k * s && Target(from, stages, t) == from + k * t;
    TrapeziumBounds(from, k, s, t, lo, hi);
  }

  lemma Distribute(x: real, a: real, b: real)
    ensures x * (a + b) == x * a + x * b
  {
  }

  lemma LaterStages(from: real, stages: seq<LoadStage>, s: real, t: real, lo: real, hi: real)
    requires PositiveStages(stages) && stages != [] && 0.0 <= s <= t
    requires Between(from, stages, s + stages[0].duration as real, t + stages[0].duration as real, lo, hi)
    ensures Between(stages[0].target as real, stages[1..], s, t, lo, hi)
  {
    var d, to := stages[0].duration as real, stages[0].target as real;
    forall u: real | s <= u <= t
      ensures lo <= Target(to, stages[1..], u) <= hi
    {
      assert lo <= Target(from, stages, u + d) <= hi;
      assert u + d - d == u;
    }
  }

  lemma AreaLater(from: real, stages: seq<LoadStage>, t: real)
    requires PositiveStages(stages) && stages != [] && t >= stages[0].duration as real
    ensures Area(from, stages, t) == Area(from, stages, stages[0].duration as real)
                                     + Area(stages[0].target as real, stages[1..], t - stages[0].duration as real)
  {
    TargetAtZero(stages[0].target as real, stages[1..]);
  }

  lemma BoundsAdd(lo: real, hi: real, s: real, d: real, t: real, first: real, rest: real)
    requires lo * (d - s) <= first <= hi * (d - s) && lo * (t - d) <= rest <= hi * (t - d)
    ensures lo * (t - s) <= first + rest <= hi * (t - s)
  {
    Distribute(lo, d - s, t - d);
    Distribute(hi, d - s, t - d);
    assert (d - s) + (t - d) == t - s;
  }

  lemma AreaConstant(from: real, s: real, t: real, lo: real, hi: real)
    requires s <= t && Between(from, [], s, t, lo, hi)
    ensures lo * (t - s) <= Area(from, [], t) - Area(from, [], s) <= hi * (t - s)
  {
    assert lo <= Target(from, [], s) <= hi;
    Scale(lo, from, t - s);
    Scale(from, hi, t - s);
    Distribute(from, s, t - s);
    assert s + (t - s) == t;
  }

  ghost predicate AreaWithin(from: real, stages: seq<LoadStage>, s: real, t: real, lo: real, hi: real)
    requires PositiveStages(stages)
  {
    lo * (t - s) <= Area(from, stages, t) - Area(from, stages, s) <= hi * (t - s)
  }

  lemma AreaFromZero(from: real, stages: seq<LoadStage>, t: real, lo: real, hi: real)
    requires PositiveStages(stages) && AreaWithin(from, stages, 0.0, t, lo, hi)
    ensures lo * t <= Area(from, stages, t) <= hi * t
  {
    TargetAtZero(from, stages);
    assert t - 0.0 == t;
  }

  lemma AreaOfNothing(from: real, t: real)
    ensures Area(from, [], t) == from * t
  {
  }

  lemma AcrossStages(from: real, stages: seq<LoadStage>, s: real, t: real, lo: real, hi: real)
    requires PositiveStages(stages) && stages != [] && s < stages[0].duration as real < t
    requires AreaWithin(from, stages, s, stages[0].duration as real, lo, hi)
    requires AreaWithin(stages[0].target as real, stages[1..], 0.0, t - stages[0].duration as real, lo, hi)
    ensures AreaWithin(from, stages, s, t, lo, hi)
  {
    hide Area, Target;
    var d, to := stages[0].duration as real, stages[0].target as real;
    AreaFromZero(to, stages[1..], t - d, lo, hi);
    AreaLater(from, stages, t);
    BoundsAdd(lo, hi, s, d, t, Area(from, stages, d) - Area(from, stages, s), Area(to, stages[1..], t - d));
  }

  lemma BeyondStage(from: real, stages: seq<LoadStage>, s: real, t: real, lo: real, hi: real)
    requires PositiveStages(stages) && stages != [] && stages[0].duration as real <= s <= t
    requires var d := stages[0].duration as real;
             AreaWithin(stages[0].target as real, stages[1..], s - d, t - d, lo, hi)
    ensures AreaWithin(from, stages, s, t, lo, hi)
  {
    var d := stages[0].duration as real;
    AreaLater(from, stages, s);
    AreaLater(from, stages, t);
    assert (t - d) - (s - d) == t - s;
  }

  /** The area grows by as much as the target allows, over any stretch of time
      and for any bounds: that makes it the integral of the target. */
  lemma {:induction false} AreaIsIntegral(from: real, stages: seq<LoadStage>, s: real, t: real, lo: real, hi: real)
    requires PositiveStages(stages) && 0.0 <= s <= t && Between(from, stages, s, t, lo, hi)
    ensures AreaWithin(from, stages, s, t, lo, hi)
    decreases |stages|
  {
    if stages == [] {
      AreaConstant(from, s, t, lo, hi);
      return;
    }
    var d, to := stages[0].duration as real, stages[0].target as real;
    if t <= d {
      AreaInStage(from, stages, s, t, lo, hi);
    } else if d <= s {
      LaterStages(from, stages, s - d, t - d, lo, hi);
      AreaIsIntegral(to, stages[1..], s - d, t - d, lo, hi);
      BeyondStage(from, stages, s, t, lo, hi);
    } else {
      AreaInStage(from, stages, s, d, lo, hi);
      LaterStages(from, stages, 0.0, t - d, lo, hi);
      AreaIsIntegral(to, stages[1..], 0.0, t - d, lo, hi);
      AcrossStages(from, stages, s, t, lo, hi);
    }
  }
}
