/** The shards of a profile together follow the profile: at every instant
    their targets add up, and their arrivals all but do. */
module ShardedLoad {
  import opened LoadProfile
  import opened LoadSchedule
  import opened Sharding

  // ----- dividing a profile

  datatype Part = Part(start: real, stages: seq<LoadStage>)

  ghost predicate Shaped(parts: seq<Part>, stages: seq<LoadStage>) {
    forall i | 0 <= i < |parts| ::
      |parts[i].stages| == |stages|
      && forall k | 0 <= k < |stages| :: parts[i].stages[k].duration == stages[k].duration > 0
  }

  function SumStart(parts: seq<Part>): real {
    if parts == [] then 0.0 else SumStart(parts[..|parts| - 1]) + parts[|parts| - 1].start
  }

  ghost function SumStage(parts: seq<Part>, k: nat): real
    requires forall i | 0 <= i < |parts| :: k < |parts[i].stages|
  {
    if parts == [] then 0.0
    else SumStage(parts[..|parts| - 1], k) + parts[|parts| - 1].stages[k].target as real
  }

  ghost function SumTarget(parts: seq<Part>, t: real): real
    requires forall i | 0 <= i < |parts| :: PositiveStages(parts[i].stages)
  {
    if parts == [] then 0.0
    else SumTarget(parts[..|parts| - 1], t) + Target(parts[|parts| - 1].start, parts[|parts| - 1].stages, t)
  }

  ghost function SumArea(parts: seq<Part>, t: real): real
    requires forall i | 0 <= i < |parts| :: PositiveStages(parts[i].stages)
  {
    if parts == [] then 0.0
    else SumArea(parts[..|parts| - 1], t) + Area(parts[|parts| - 1].start, parts[|parts| - 1].stages, t)
  }

  /** The parts have the stages of the whole, and add up to it at the start
      and at the end of every stage. */
  ghost predicate Divides(parts: seq<Part>, from: real, stages: seq<LoadStage>) {
    && Shaped(parts, stages) && PositiveStages(stages) && SumStart(parts) == from
    && forall k: nat | k < |stages| :: SumStage(parts, k) == stages[k].target as real
  }

  ghost function Tails(parts: seq<Part>): (r: seq<Part>)
    requires forall i | 0 <= i < |parts| :: parts[i].stages != []
    ensures |r| == |parts|
    ensures forall i | 0 <= i < |parts| :: r[i] == Part(parts[i].stages[0].target as real, parts[i].stages[1..])
  {
    if parts == [] then []
    else
      var last := parts[|parts| - 1];
      Tails(parts[..|parts| - 1]) + [Part(last.stages[0].target as real, last.stages[1..])]
  }

  lemma {:induction false} TailSums(parts: seq<Part>, k: nat)
    requires forall i | 0 <= i < |parts| :: k + 1 < |parts[i].stages|
    ensures SumStage(Tails(parts), k) == SumStage(parts, k + 1)
  {
    if parts != [] {
      var shorter := parts[..|parts| - 1];
      assert Tails(parts)[..|parts| - 1] == Tails(shorter);
      TailSums(shorter, k);
    }
  }

  lemma {:induction false} TailStart(parts: seq<Part>)
    requires forall i | 0 <= i < |parts| :: parts[i].stages != []
    ensures SumStart(Tails(parts)) == SumStage(parts, 0)
  {
    if parts != [] {
      var shorter := parts[..|parts| - 1];
      assert Tails(parts)[..|parts| - 1] == Tails(shorter);
      TailStart(shorter);
    }
  }

  lemma TailsDivide(parts: seq<Part>, from: real, stages: seq<LoadStage>)
    requires Divides(parts, from, stages) && stages != []
    ensures Divides(Tails(parts), stages[0].target as real, stages[1..])
  {
    TailStart(parts);
    forall k: nat | k < |stages[1..]|
      ensures SumStage(Tails(parts), k) == stages[1..][k].target as real
    {
      TailSums(parts, k);
      assert SumStage(parts, k + 1) == stages[k + 1].target as real;
    }
    forall i | 0 <= i < |parts|
      ensures |Tails(parts)[i].stages| == |stages[1..]|
      ensures forall k | 0 <= k < |stages[1..]| :: Tails(parts)[i].stages[k].duration == stages[1..][k].duration > 0
    {
      assert parts[i].stages[0].duration == stages[0].duration;
    }
  }

  // ----- targets

  lemma LineAdds(a: real, b: real, c: real, d: real, duration: real, t: real)
    requires duration > 0.0
    ensures Line(a + b, c + d, duration, t) == Line(a, c, duration, t) + Line(b, d, duration, t)
  {
    var x := t / duration;
    Distribute(x, c - a, d - b);
    assert (c - a) + (d - b) == (c + d) - (a + b);
  }

  lemma LineZero(duration: real, t: real)
    requires duration > 0.0
    ensures Line(0.0, 0.0, duration, t) == 0.0
  {
  }

  lemma ShapedPrefix(parts: seq<Part>, stages: seq<LoadStage>)
    requires Shaped(parts, stages) && parts != []
    ensures Shaped(parts[..|parts| - 1], stages)
    ensures forall i | 0 <= i < |parts| :: PositiveStages(parts[i].stages)
  {
  }

  /** Before the first stage ends. */
  lemma {:induction false} SumLine(parts: seq<Part>, stages: seq<LoadStage>, t: real)
    requires Shaped(parts, stages) && stages != [] && stages[0].duration > 0 && t < stages[0].duration as real
    ensures SumTarget(parts, t) == Line(SumStart(parts), SumStage(parts, 0), stages[0].duration as real, t)
  {
    var d := stages[0].duration as real;
    if parts == [] {
      LineZero(d, t);
    } else {
      var shorter, last := parts[..|parts| - 1], parts[|parts| - 1];
      ShapedPrefix(parts, stages);
      SumLine(shorter, stages, t);
      LineAdds(SumStart(shorter), last.start, SumStage(shorter, 0), last.stages[0].target as real, d, t);
    }
  }

  lemma {:induction false} SumLater(parts: seq<Part>, stages: seq<LoadStage>, t: real)
    requires Shaped(parts, stages) && stages != [] && t >= stages[0].duration as real
    ensures SumTarget(parts, t) == SumTarget(Tails(parts), t - stages[0].duration as real)
  {
    if parts != [] {
      var shorter := parts[..|parts| - 1];
      ShapedPrefix(parts, stages);
      SumLater(shorter, stages, t);
      assert Tails(parts)[..|parts| - 1] == Tails(shorter);
    }
  }

  lemma {:induction false} SumConstant(parts: seq<Part>, t: real)
    requires Shaped(parts, [])
    ensures SumTarget(parts, t) == SumStart(parts)
  {
    if parts != [] {
      ShapedPrefix(parts, []);
      SumConstant(parts[..|parts| - 1], t);
    }
  }

  /** The targets of the parts add up at every instant between as well. */
  lemma {:induction false} TargetsAddUp(parts: seq<Part>, from: real, stages: seq<LoadStage>, t: real)
    requires Divides(parts, from, stages)
    ensures SumTarget(parts, t) == Target(from, stages, t)
    decreases |stages|
  {
    if stages == [] {
      SumConstant(parts, t);
    } else if t < stages[0].duration as real {
      SumLine(parts, stages, t);
      assert SumStage(parts, 0) == stages[0].target as real;
    } else {
      SumLater(parts, stages, t);
      TailsDivide(parts, from, stages);
      TargetsAddUp(Tails(parts), stages[0].target as real, stages[1..], t - stages[0].duration as real);
    }
  }

  // ----- areas

  function StageSum(from: real, to: real, t: real): real {
    (from + to) * 0.5 * t
  }

  lemma StageSumAdds(a: real, b: real, c: real, d: real, t: real)
    ensures StageSum(a + b, c + d, t) == StageSum(a, c, t) + StageSum(b, d, t)
    ensures StageSum(0.0, 0.0, t) == 0.0
  {
    Distribute(0.5 * t, a + c, b + d);
  }

  lemma AreaOfLine(from: real, stages: seq<LoadStage>, t: real)
    requires PositiveStages(stages) && stages != [] && t < stages[0].duration as real
    ensures Area(from, stages, t) == StageSum(from, Target(from, stages, t), t)
  {
  }

  lemma AreaOfStage(from: real, stages: seq<LoadStage>, t: real)
    requires PositiveStages(stages) && stages != [] && t >= stages[0].duration as real
    ensures Area(from, stages, t) == StageSum(from, stages[0].target as real, stages[0].duration as real)
                                     + Area(stages[0].target as real, stages[1..], t - stages[0].duration as real)
  {
  }

  lemma {:induction false} SumAreaLine(parts: seq<Part>, stages: seq<LoadStage>, t: real)
    requires Shaped(parts, stages) && stages != [] && t < stages[0].duration as real
    ensures SumArea(parts, t) == StageSum(SumStart(parts), SumTarget(parts, t), t)
  {
    if parts == [] {
      StageSumAdds(0.0, 0.0, 0.0, 0.0, t);
    } else {
      var shorter, last := parts[..|parts| - 1], parts[|parts| - 1];
      ShapedPrefix(parts, stages);
      SumAreaLine(shorter, stages, t);
      AreaOfLine(last.start, last.stages, t);
      StageSumAdds(SumStart(shorter), last.start, SumTarget(shorter, t), Target(last.start, last.stages, t), t);
    }
  }

  lemma {:induction false} SumAreaLater(parts: seq<Part>, stages: seq<LoadStage>, t: real)
    requires Shaped(parts, stages) && stages != [] && t >= stages[0].duration as real
    ensures SumArea(parts, t) == StageSum(SumStart(parts), SumStage(parts, 0), stages[0].duration as real)
                                 + SumArea(Tails(parts), t - stages[0].duration as real)
  {
    var d := stages[0].duration as real;
    if parts == [] {
      StageSumAdds(0.0, 0.0, 0.0, 0.0, d);
    } else {
      var shorter, last := parts[..|parts| - 1], parts[|parts| - 1];
      ShapedPrefix(parts, stages);
      SumAreaLater(shorter, stages, t);
      AreaOfStage(last.start, last.stages, t);
      assert Tails(parts)[..|parts| - 1] == Tails(shorter);
      StageSumAdds(SumStart(shorter), last.start, SumStage(shorter, 0), last.stages[0].target as real, d);
    }
  }

  lemma {:induction false} SumAreaConstant(parts: seq<Part>, t: real)
    requires Shaped(parts, [])
    ensures SumArea(parts, t) == SumStart(parts) * t
  {
    if parts != [] {
      var shorter, last := parts[..|parts| - 1], parts[|parts| - 1];
      ShapedPrefix(parts, []);
      SumAreaConstant(shorter, t);
      Distribute(t, SumStart(shorter), last.start);
    }
  }

  lemma {:induction false} AreasAddUp(parts: seq<Part>, from: real, stages: seq<LoadStage>, t: real)
    requires Divides(parts, from, stages)
    ensures SumArea(parts, t) == Area(from, stages, t)
    decreases |stages|
  {
    if stages == [] {
      SumAreaConstant(parts, t);
    } else if t < stages[0].duration as real {
      SumAreaLine(parts, stages, t);
      TargetsAddUp(parts, from, stages, t);
      AreaOfLine(from, stages, t);
    } else {
      SumAreaLater(parts, stages, t);
      assert SumStage(parts, 0) == stages[0].target as real;
      TailsDivide(parts, from, stages);
      AreasAddUp(Tails(parts), stages[0].target as real, stages[1..], t - stages[0].duration as real);
      AreaOfStage(from, stages, t);
    }
  }

  // ----- the shards are such a division

  ghost function PartOf(c: CompiledProfile): Part {
    Part(c.startTarget as real, c.stages)
  }

  ghost function PartsOf(shards: seq<CompiledProfile>): (r: seq<Part>)
    ensures |r| == |shards| && forall i | 0 <= i < |shards| :: r[i] == PartOf(shards[i])
  {
    if shards == [] then [] else PartsOf(shards[..|shards| - 1]) + [PartOf(shards[|shards| - 1])]
  }

  /** The compiled profiles of the shards of one profile. */
  ghost predicate CompiledShards(p: LoadProfile, c: CompiledProfile, shards: seq<CompiledProfile>,
                                 requestTimeout: int) {
    && |shards| > 0 && CompiledFrom(c, p, requestTimeout) && Schedule(c)
    && (forall i | 0 <= i < |shards| ::
          CompiledFrom(shards[i], ShardProfile(p, i, |shards|), requestTimeout) && Schedule(shards[i]))
  }

  lemma AcceptedSchedule(c: CompiledProfile, p: LoadProfile, rateLimit: int, requestTimeout: int)
    requires ProfileAccepted(p, rateLimit) && CompiledFrom(c, p, requestTimeout)
    ensures Schedule(c)
  {
  }

  /** What sharding and compilation produce together: the shards of an accepted
      configuration, as many as it affords, compile to such profiles. */
  lemma ShardsCompile(cfg: LoadConfig, shards: seq<LoadConfig>, c: CompiledProfile, compiled: seq<CompiledProfile>,
                      requestTimeout: int)
    requires LoadAccepted(cfg) && cfg.profile.Some?
    requires |shards| >= 1 && Affordable(cfg, |shards|) && shards == ShardsOf(cfg, |shards|, |shards|)
    requires CompiledFrom(c, cfg.profile.value, requestTimeout) && |compiled| == |shards|
    requires forall i | 0 <= i < |shards| ::
               shards[i].profile.Some? && CompiledFrom(compiled[i], shards[i].profile.value, requestTimeout)
    ensures CompiledShards(cfg.profile.value, c, compiled, requestTimeout)
    ensures |compiled| <= MAX_PROFILE_VIRTUAL_USERS
  {
    var p := cfg.profile.value;
    AcceptedSchedule(c, p, cfg.rateLimit, requestTimeout);
    forall i: nat | i < |compiled|
      ensures CompiledFrom(compiled[i], ShardProfile(p, i, |compiled|), requestTimeout) && Schedule(compiled[i])
    {
      ShardAccepted(cfg, i, |shards|);
      assert shards[i] == Shard(cfg, i, |shards|);
      AcceptedSchedule(compiled[i], shards[i].profile.value, shards[i].rateLimit, requestTimeout);
    }
  }

  lemma ShardSchedule(p: LoadProfile, c: CompiledProfile, shards: seq<CompiledProfile>, requestTimeout: int, i: nat)
    requires CompiledShards(p, c, shards, requestTimeout) && i < |shards|
    ensures shards[i].startTarget == SplitInteger(p.startTarget, i, |shards|)
    ensures shards[i].stages == ShardStages(p.stages, i, |shards|)
    ensures shards[i].duration == c.duration && Schedule(shards[i])
  {
    ShardDurations(p.stages, i, |shards|);
  }

  lemma {:induction false} StartsSplit(parts: seq<Part>, total: int, count: int)
    requires 0 < count
    requires forall i | 0 <= i < |parts| :: parts[i].start == SplitInteger(total, i, count) as real
    ensures SumStart(parts) == SumSplits(total, |parts|, count) as real
  {
    if parts != [] {
      StartsSplit(parts[..|parts| - 1], total, count);
    }
  }

  lemma {:induction false} StagesSplit(parts: seq<Part>, k: nat, total: int, count: int)
    requires 0 < count && forall i | 0 <= i < |parts| :: k < |parts[i].stages|
    requires forall i | 0 <= i < |parts| :: parts[i].stages[k].target == SplitInteger(total, i, count)
    ensures SumStage(parts, k) == SumSplits(total, |parts|, count) as real
  {
    if parts != [] {
      StagesSplit(parts[..|parts| - 1], k, total, count);
    }
  }

  /** Each part has its share of the totals. */
  ghost predicate Shares(parts: seq<Part>, start: int, stages: seq<LoadStage>) {
    forall i | 0 <= i < |parts| ::
      && parts[i].start == SplitInteger(start, i, |parts|) as real
      && parts[i].stages == ShardStages(stages, i, |parts|)
  }

  lemma {:induction false} SharesDivide(parts: seq<Part>, start: int, stages: seq<LoadStage>)
    requires parts != [] && Shares(parts, start, stages) && PositiveStages(stages)
    ensures Divides(parts, start as real, stages)
  {
    var count := |parts|;
    StartsSplit(parts, start, count);
    SplitsAddUp(start, count);
    forall k: nat | k < |stages|
      ensures SumStage(parts, k) == stages[k].target as real
    {
      StagesSplit(parts, k, stages[k].target, count);
      SplitsAddUp(stages[k].target, count);
    }
  }

  lemma {:induction false} ShardsDivide(p: LoadProfile, c: CompiledProfile, shards: seq<CompiledProfile>,
                                        requestTimeout: int)
    requires CompiledShards(p, c, shards, requestTimeout)
    ensures Divides(PartsOf(shards), c.startTarget as real, c.stages)
    ensures forall i | 0 <= i < |shards| :: shards[i].duration == c.duration
  {
    forall i: nat | i < |shards|
      ensures shards[i].startTarget == SplitInteger(p.startTarget, i, |shards|)
      ensures shards[i].stages == ShardStages(p.stages, i, |shards|) && shards[i].duration == c.duration
    {
      ShardSchedule(p, c, shards, requestTimeout, i);
    }
    SharesDivide(PartsOf(shards), p.startTarget, p.stages);
  }

  ghost function SumTargets(shards: seq<CompiledProfile>, elapsed: int): real
    requires forall i | 0 <= i < |shards| :: Schedule(shards[i])
  {
    if shards == [] then 0.0
    else SumTargets(shards[..|shards| - 1], elapsed) + TargetOf(shards[|shards| - 1], elapsed)
  }

  ghost function SumIntegrals(shards: seq<CompiledProfile>, elapsed: int): real
    requires forall i | 0 <= i < |shards| :: Schedule(shards[i])
  {
    if shards == [] then 0.0
    else SumIntegrals(shards[..|shards| - 1], elapsed) + Integral(shards[|shards| - 1], elapsed)
  }

  ghost function SumArrivals(shards: seq<CompiledProfile>, elapsed: int): int
    requires forall i | 0 <= i < |shards| :: Schedule(shards[i])
  {
    if shards == [] then 0
    else SumArrivals(shards[..|shards| - 1], elapsed) + ArrivalsOf(shards[|shards| - 1], elapsed)
  }

  lemma {:induction false} PartTargets(shards: seq<CompiledProfile>, elapsed: int)
    requires forall i | 0 <= i < |shards| :: Schedule(shards[i])
    ensures SumTargets(shards, elapsed) == SumTarget(PartsOf(shards), Clamped(elapsed) as real)
  {
    if shards != [] {
      PartTargets(shards[..|shards| - 1], elapsed);
      assert PartsOf(shards)[..|shards| - 1] == PartsOf(shards[..|shards| - 1]);
    }
  }

  /** The targets of the shards add up to the original at every instant. */
  lemma ShardTargetsAddUp(p: LoadProfile, c: CompiledProfile, shards: seq<CompiledProfile>, requestTimeout: int,
                          elapsed: int)
    requires CompiledShards(p, c, shards, requestTimeout)
    ensures SumTargets(shards, elapsed) == TargetOf(c, elapsed)
  {
    PartTargets(shards, elapsed);
    ShardsDivide(p, c, shards, requestTimeout);
    TargetsAddUp(PartsOf(shards), c.startTarget as real, c.stages, Clamped(elapsed) as real);
  }

  lemma {:induction false} PartIntegrals(shards: seq<CompiledProfile>, c: CompiledProfile, elapsed: int)
    requires forall i | 0 <= i < |shards| :: Schedule(shards[i]) && shards[i].duration == c.duration
    ensures SumIntegrals(shards, elapsed) == SumArea(PartsOf(shards), LoadSchedule.Within(c, elapsed) as real) / SECOND
  {
    if shards != [] {
      PartIntegrals(shards[..|shards| - 1], c, elapsed);
      assert PartsOf(shards)[..|shards| - 1] == PartsOf(shards[..|shards| - 1]);
    }
  }

  lemma ShardIntegralsAddUp(p: LoadProfile, c: CompiledProfile, shards: seq<CompiledProfile>, requestTimeout: int,
                            elapsed: int)
    requires CompiledShards(p, c, shards, requestTimeout)
    ensures SumIntegrals(shards, elapsed) == Integral(c, elapsed)
  {
    ShardsDivide(p, c, shards, requestTimeout);
    PartIntegrals(shards, c, elapsed);
    AreasAddUp(PartsOf(shards), c.startTarget as real, c.stages, LoadSchedule.Within(c, elapsed) as real);
  }

  /** Each shard loses less than one arrival and gains at most the epsilon. */
  lemma {:induction false} FloorsOfShards(shards: seq<CompiledProfile>, elapsed: int)
    requires forall i | 0 <= i < |shards| :: Schedule(shards[i])
    ensures SumArrivals(shards, elapsed) as real <= SumIntegrals(shards, elapsed) + |shards| as real * EPSILON
    ensures shards != [] ==>
              SumArrivals(shards, elapsed) as real
              > SumIntegrals(shards, elapsed) + |shards| as real * EPSILON - |shards| as real
  {
    if shards != [] {
      FloorsOfShards(shards[..|shards| - 1], elapsed);
    }
  }

  /** The arrivals of the shards fall short of those of the original by fewer
      than the number of shards, and exceed them by one at most. */
  lemma ShardArrivals(p: LoadProfile, c: CompiledProfile, shards: seq<CompiledProfile>, requestTimeout: int,
                      elapsed: int)
    requires CompiledShards(p, c, shards, requestTimeout) && |shards| <= MAX_PROFILE_VIRTUAL_USERS
    ensures -(|shards| - 1) <= SumArrivals(shards, elapsed) - ArrivalsOf(c, elapsed) <= 1
  {
    ShardIntegralsAddUp(p, c, shards, requestTimeout, elapsed);
    FloorsOfShards(shards, elapsed);
  }

  /** So it is for the shards of every accepted configuration with a profile. */
  lemma ShardedLoadAddsUp(cfg: LoadConfig, shards: seq<LoadConfig>, c: CompiledProfile, compiled: seq<CompiledProfile>,
                          requestTimeout: int, elapsed: int)
    requires LoadAccepted(cfg) && cfg.profile.Some?
    requires |shards| >= 1 && Affordable(cfg, |shards|) && shards == ShardsOf(cfg, |shards|, |shards|)
    requires CompiledFrom(c, cfg.profile.value, requestTimeout) && |compiled| == |shards|
    requires forall i | 0 <= i < |shards| ::
               shards[i].profile.Some? && CompiledFrom(compiled[i], shards[i].profile.value, requestTimeout)
    ensures Schedule(c) && forall i | 0 <= i < |compiled| :: Schedule(compiled[i])
    ensures SumTargets(compiled, elapsed) == TargetOf(c, elapsed)
    ensures -(|shards| - 1) <= SumArrivals(compiled, elapsed) - ArrivalsOf(c, elapsed) <= 1
  {
    ShardsCompile(cfg, shards, c, compiled, requestTimeout);
    ShardTargetsAddUp(cfg.profile.value, c, compiled, requestTimeout, elapsed);
    ShardArrivals(cfg.profile.value, c, compiled, requestTimeout, elapsed);
  }
}
