/** Splitting a load over workers: totals are kept, every shard is valid, and
    the shards together offer the load of the original at every instant. */
module Sharding {
  import opened LoadProfile
  import opened LoadSchedule
  import opened Options

  const DEFAULT_VIRTUAL_USERS: int := 1
  const DEFAULT_MAX_CONNS_PER_HOST: int := 10000
  const DEFAULT_REQUEST_TIMEOUT: int := 5000000000

  /** The parts of a configuration that concern the load. */
  datatype LoadConfig = LoadConfig(virtualUsers: int, maxConnsPerHost: int, rateLimit: int, requestTimeout: int,
                                   duration: int, rampUp: int, profile: Option<LoadProfile>)

  predicate LoadAccepted(cfg: LoadConfig) {
    && cfg.virtualUsers >= 0 && cfg.maxConnsPerHost >= 0 && cfg.requestTimeout >= 0
    && cfg.duration >= 0 && cfg.rampUp >= 0
    && 0 <= cfg.rateLimit <= MAX_RATE_LIMIT_RPS
    && (cfg.profile.Some? ==> ProfileAccepted(cfg.profile.value, cfg.rateLimit))
  }

  method ValidateConfig(cfg: LoadConfig) returns (ok: bool)
    ensures ok <==> LoadAccepted(cfg)
  {
    if cfg.virtualUsers < 0 || cfg.maxConnsPerHost < 0 || cfg.requestTimeout < 0 || cfg.duration < 0
       || cfg.rampUp < 0 || cfg.rateLimit < 0 || cfg.rateLimit > MAX_RATE_LIMIT_RPS {
      return false;
    }
    if cfg.profile.Some? {
      var timeout := if cfg.requestTimeout == 0 then DEFAULT_REQUEST_TIMEOUT else cfg.requestTimeout;
      var compiled := CompileLoadProfile(cfg.profile.value, cfg.rateLimit, timeout);
      return compiled.Success?;
    }
    return true;
  }

  // ----- splitting a number

  function SplitInteger(total: int, index: int, count: int): int
    requires count > 0
  {
    total / count + if index < total % count then 1 else 0
  }

  function SumSplits(total: int, n: nat, count: int): int
    requires count > 0
  {
    if n == 0 then 0 else SumSplits(total, n - 1, count) + SplitInteger(total, n - 1, count)
  }

  lemma {:induction false} PartialSum(total: int, n: nat, count: int)
    requires 0 < count && n <= count
    ensures SumSplits(total, n, count) == n * (total / count) + if n < total % count then n else total % count
  {
    if n > 0 {
      PartialSum(total, n - 1, count);
      assert n * (total / count) == (n - 1) * (total / count) + total / count;
    }
  }

  /** The parts add up to the whole. */
  lemma SplitsAddUp(total: int, count: int)
    requires 0 < count
    ensures SumSplits(total, count, count) == total
  {
    PartialSum(total, count, count);
  }

  /** Parts differ by at most one, larger ones first; a larger total has no
      smaller part. */
  lemma SplitsEven(total: int, i: int, j: int, count: int)
    requires 0 <= i <= j < count
    ensures 0 <= SplitInteger(total, i, count) - SplitInteger(total, j, count) <= 1
  {
  }

  lemma QuotientAtLeast(b: int, count: int, k: int)
    requires 0 < count && count * k <= b
    ensures k <= b / count
  {
    if k > b / count {
      Multiples(count, b / count, k);
    }
  }

  lemma QuotientMonotone(a: int, b: int, count: int)
    requires 0 < count && a <= b
    ensures a / count <= b / count
  {
    QuotientAtLeast(b, count, a / count);
  }

  lemma {:induction false} Multiples(count: int, a: int, b: int)
    requires 0 < count && a < b
    ensures count * a + count <= count * b
    decreases b - a
  {
    assert count * b == count * (b - 1) + count;
    if a < b - 1 {
      Multiples(count, a, b - 1);
    }
  }

  lemma RestMonotone(a: int, b: int, count: int)
    requires 0 < count && a <= b && a / count == b / count
    ensures a % count <= b % count
  {
    var q := a / count;
    assert a == count * q + a % count && b == count * q + b % count;
  }

  lemma SplitMonotone(a: int, b: int, i: int, count: int)
    requires 0 <= i < count && a <= b
    ensures SplitInteger(a, i, count) <= SplitInteger(b, i, count)
  {
    QuotientMonotone(a, b, count);
    if a / count == b / count {
      RestMonotone(a, b, count);
    }
  }

  lemma {:induction false} ProductAtLeast(count: int, q: nat)
    requires 0 < count
    ensures count * q >= q
  {
    if q > 0 {
      ProductAtLeast(count, q - 1);
      assert count * q == count * (q - 1) + count;
    }
  }

  lemma QuotientRange(total: int, count: int)
    requires 0 < count && 0 <= total
    ensures 0 <= total / count <= total - total % count
    ensures 0 <= total % count < count
  {
    var q, r := total / count, total % count;
    assert total == count * q + r;
    QuotientMonotone(0, total, count);
    ProductAtLeast(count, q);
  }

  lemma SplitRange(total: int, i: int, count: int)
    requires 0 <= i < count && 0 <= total
    ensures 0 <= SplitInteger(total, i, count) <= total
    ensures total >= count ==> SplitInteger(total, i, count) >= 1
  {
    QuotientRange(total, count);
    if total >= count {
      QuotientAtLeast(total, count, 1);
    }
  }

  // ----- the shards

  function OrDefault(value: int, default: int): int {
    if value == 0 then default else value
  }

  function Minimum(a: int, b: int): int {
    if a < b then a else b
  }

  function ShardStages(stages: seq<LoadStage>, i: int, count: int): (r: seq<LoadStage>)
    requires count > 0
    ensures |r| == |stages|
    ensures forall k | 0 <= k < |stages| ::
              r[k] == LoadStage(stages[k].duration, SplitInteger(stages[k].target, i, count))
  {
    if stages == [] then []
    else
      var last := stages[|stages| - 1];
      ShardStages(stages[..|stages| - 1], i, count) + [LoadStage(last.duration, SplitInteger(last.target, i, count))]
  }

  function ShardProfile(p: LoadProfile, i: int, count: int): LoadProfile
    requires count > 0
  {
    LoadProfile(p.mode, SplitInteger(p.startTarget, i, count), ShardStages(p.stages, i, count),
                if ArrivalMode(p.mode) then SplitInteger(p.preAllocatedVUs, i, count) else p.preAllocatedVUs,
                if ArrivalMode(p.mode) then SplitInteger(p.maxVUs, i, count) else p.maxVUs, p.gracefulStop)
  }

  function Shard(cfg: LoadConfig, i: int, count: int): LoadConfig
    requires count > 0
  {
    LoadConfig(
      if cfg.profile.None? then SplitInteger(OrDefault(cfg.virtualUsers, DEFAULT_VIRTUAL_USERS), i, count)
      else cfg.virtualUsers,
      SplitInteger(OrDefault(cfg.maxConnsPerHost, DEFAULT_MAX_CONNS_PER_HOST), i, count),
      if cfg.rateLimit > 0 then SplitInteger(cfg.rateLimit, i, count) else cfg.rateLimit,
      cfg.requestTimeout, cfg.duration, cfg.rampUp,
      if cfg.profile.Some? then Some(ShardProfile(cfg.profile.value, i, count)) else None)
  }

  function ShardsOf(cfg: LoadConfig, n: nat, count: int): (r: seq<LoadConfig>)
    requires count > 0
    ensures |r| == n && forall i | 0 <= i < n :: r[i] == Shard(cfg, i, count)
  {
    if n == 0 then [] else ShardsOf(cfg, n - 1, count) + [Shard(cfg, n - 1, count)]
  }

  predicate ProfileRestKept(p: LoadProfile, shard: LoadProfile) {
    && shard.mode == p.mode && shard.gracefulStop == p.gracefulStop && |shard.stages| == |p.stages|
    && (forall k | 0 <= k < |p.stages| :: shard.stages[k].duration == p.stages[k].duration)
    && (!ArrivalMode(p.mode) ==> shard.preAllocatedVUs == p.preAllocatedVUs && shard.maxVUs == p.maxVUs)
  }

  /** What is not divided is the same in every shard. */
  predicate RestKept(cfg: LoadConfig, shard: LoadConfig) {
    && shard.requestTimeout == cfg.requestTimeout && shard.duration == cfg.duration && shard.rampUp == cfg.rampUp
    && (cfg.rateLimit == 0 ==> shard.rateLimit == 0)
    && match cfg.profile
       case None => shard.profile.None?
       case Some(p) =>
         shard.virtualUsers == cfg.virtualUsers && shard.profile.Some? && ProfileRestKept(p, shard.profile.value)
  }

  /** No more shards than connections, requests per second or users, so that
      each has its part of everything. */
  predicate Affordable(cfg: LoadConfig, count: int) {
    && count <= OrDefault(cfg.maxConnsPerHost, DEFAULT_MAX_CONNS_PER_HOST)
    && (cfg.rateLimit > 0 ==> count <= cfg.rateLimit)
    && match cfg.profile
       case None => count <= OrDefault(cfg.virtualUsers, DEFAULT_VIRTUAL_USERS)
       case Some(p) => count <= Peak(p.startTarget, p.stages)
                       && (ArrivalMode(p.mode) ==> count <= p.preAllocatedVUs && count <= p.maxVUs)
  }

  // ----- every shard is valid

  lemma {:induction false} ShardDurations(stages: seq<LoadStage>, i: int, count: int)
    requires count > 0
    ensures TotalDuration(ShardStages(stages, i, count)) == TotalDuration(stages)
  {
    if stages != [] {
      var shard := ShardStages(stages, i, count);
      assert shard[..|shard| - 1] == ShardStages(stages[..|stages| - 1], i, count);
      ShardDurations(stages[..|stages| - 1], i, count);
    }
  }

  /** The peak of a shard is its part of the peak. */
  lemma {:induction false} ShardPeak(start: int, stages: seq<LoadStage>, i: int, count: int)
    requires 0 <= i < count
    ensures Peak(SplitInteger(start, i, count), ShardStages(stages, i, count))
         == SplitInteger(Peak(start, stages), i, count)
  {
    if stages != [] {
      var shard := ShardStages(stages, i, count);
      assert shard[..|shard| - 1] == ShardStages(stages[..|stages| - 1], i, count);
      ShardPeak(start, stages[..|stages| - 1], i, count);
      var rest, last := Peak(start, stages[..|stages| - 1]), stages[|stages| - 1].target;
      if rest > last {
        SplitMonotone(last, rest, i, count);
      } else {
        SplitMonotone(rest, last, i, count);
      }
    }
  }

  lemma ShardStagesValid(stages: seq<LoadStage>, i: int, count: int)
    requires StagesValid(stages) && 0 <= i < count
    ensures StagesValid(ShardStages(stages, i, count))
  {
    var shard := ShardStages(stages, i, count);
    ShardDurations(stages, i, count);
    forall k | 0 <= k < |shard|
      ensures shard[k].duration > 0 && shard[k].target >= 0
    {
      SplitRange(stages[k].target, i, count);
    }
  }

  lemma ShardConstant(p: LoadProfile, i: int, count: int)
    requires IsConstant(p) && 0 <= i < count <= p.startTarget
    ensures IsConstant(ShardProfile(p, i, count))
  {
    SplitRange(p.startTarget, i, count);
  }

  lemma ShardWorkers(p: LoadProfile, i: int, count: int)
    requires ArrivalWorkersValid(p) && 0 <= i < count <= p.preAllocatedVUs && ArrivalMode(p.mode)
    ensures ArrivalWorkersValid(ShardProfile(p, i, count))
  {
    SplitRange(p.preAllocatedVUs, i, count);
    SplitRange(p.maxVUs, i, count);
    SplitMonotone(p.preAllocatedVUs, p.maxVUs, i, count);
  }

  lemma ConstantPeak(p: LoadProfile)
    requires IsConstant(p)
    ensures Peak(p.startTarget, p.stages) == p.startTarget
  {
  }

  lemma ShardPeakRange(p: LoadProfile, i: int, count: int)
    requires 0 <= i < count <= Peak(p.startTarget, p.stages)
    ensures 1 <= Peak(ShardProfile(p, i, count).startTarget, ShardProfile(p, i, count).stages)
              <= Peak(p.startTarget, p.stages)
  {
    ShardPeak(p.startTarget, p.stages, i, count);
    SplitRange(Peak(p.startTarget, p.stages), i, count);
  }

  lemma ShardModeAccepted(p: LoadProfile, rateLimit: int, i: int, count: int)
    requires ModeAccepted(p, rateLimit) && 0 <= i < count <= Peak(p.startTarget, p.stages)
    requires ArrivalMode(p.mode) ==> count <= p.preAllocatedVUs
    ensures ModeAccepted(ShardProfile(p, i, count), if ArrivalMode(p.mode) then 0 else rateLimit)
  {
    ShardPeakRange(p, i, count);
    if ArrivalMode(p.mode) {
      ShardWorkers(p, i, count);
    }
    if p.mode == ConstantVUs || p.mode == ConstantArrival {
      ConstantPeak(p);
      ShardConstant(p, i, count);
    }
  }

  lemma ShardProfileAccepted(p: LoadProfile, rateLimit: int, i: int, count: int)
    requires ProfileAccepted(p, rateLimit) && 0 <= i < count <= Peak(p.startTarget, p.stages)
    requires ArrivalMode(p.mode) ==> count <= p.preAllocatedVUs
    ensures ProfileAccepted(ShardProfile(p, i, count), if ArrivalMode(p.mode) then 0 else rateLimit)
  {
    ShardModeAccepted(p, rateLimit, i, count);
    ShardStagesValid(p.stages, i, count);
    ShardPeakRange(p, i, count);
    SplitRange(p.startTarget, i, count);
  }

  lemma ModeIgnoresRate(p: LoadProfile, a: int, b: int)
    requires ProfileAccepted(p, a) && (ArrivalMode(p.mode) ==> b == 0)
    ensures ProfileAccepted(p, b)
  {
  }

  /** Whatever was accepted is accepted in parts. */
  lemma ShardAccepted(cfg: LoadConfig, i: int, count: int)
    requires LoadAccepted(cfg) && 0 <= i < count && Affordable(cfg, count)
    ensures LoadAccepted(Shard(cfg, i, count))
  {
    SplitRange(OrDefault(cfg.maxConnsPerHost, DEFAULT_MAX_CONNS_PER_HOST), i, count);
    SplitRange(OrDefault(cfg.virtualUsers, DEFAULT_VIRTUAL_USERS), i, count);
    SplitRange(cfg.rateLimit, i, count);
    if cfg.profile.Some? {
      var p := cfg.profile.value;
      ShardProfileAccepted(p, cfg.rateLimit, i, count);
      ModeIgnoresRate(ShardProfile(p, i, count), if ArrivalMode(p.mode) then 0 else cfg.rateLimit,
                      Shard(cfg, i, count).rateLimit);
    }
  }

  lemma ShardKeepsRest(cfg: LoadConfig, i: int, count: int)
    requires 0 < count && cfg.rateLimit >= 0
    ensures RestKept(cfg, Shard(cfg, i, count))
  {
  }

  lemma AcceptedRate(cfg: LoadConfig)
    requires LoadAccepted(cfg)
    ensures cfg.rateLimit >= 0
  {
  }

  datatype ShardError = NoWorkers | InvalidConfig | NoCapacity | InvalidShard

  datatype ShardResult = Sharded(shards: seq<LoadConfig>) | Refused(error: ShardError)

  method ActiveShards(cfg: LoadConfig, workerCount: int) returns (active: int)
    requires workerCount >= 1 && LoadAccepted(cfg)
    ensures 1 <= active <= workerCount && Affordable(cfg, active)
    ensures forall more | active < more <= workerCount :: !Affordable(cfg, more)
  {
    active := Minimum(workerCount, OrDefault(cfg.maxConnsPerHost, DEFAULT_MAX_CONNS_PER_HOST));
    if cfg.rateLimit > 0 {
      active := Minimum(active, cfg.rateLimit);
    }
    match cfg.profile {
      case None =>
        active := Minimum(active, OrDefault(cfg.virtualUsers, DEFAULT_VIRTUAL_USERS));
      case Some(p) =>
        var peakTarget := p.startTarget;
        for k := 0 to |p.stages|
          invariant peakTarget == Peak(p.startTarget, p.stages[..k])
        {
          assert p.stages[..k + 1][..k] == p.stages[..k];
          peakTarget := MaxOf(peakTarget, p.stages[k].target);
        }
        assert p.stages[..|p.stages|] == p.stages;
        active := Minimum(active, peakTarget);
        if ArrivalMode(p.mode) {
          active := Minimum(active, p.preAllocatedVUs);
          active := Minimum(active, p.maxVUs);
        }
    }
  }

  /** Sharding a valid configuration never fails. */
  method ShardConfigs(cfg: LoadConfig, workerCount: int) returns (result: ShardResult)
    ensures result.Sharded? <==> workerCount >= 1 && LoadAccepted(cfg)
    ensures result == Refused(NoWorkers) <==> workerCount < 1
    ensures result.Sharded? ==>
              var count := |result.shards|;
              && 1 <= count <= workerCount && Affordable(cfg, count)
              && (forall more | count < more <= workerCount :: !Affordable(cfg, more))
              && result.shards == ShardsOf(cfg, count, count)
              && forall i | 0 <= i < count :: LoadAccepted(result.shards[i]) && RestKept(cfg, result.shards[i])
  {
    hide RestKept, LoadAccepted, Affordable, Shard;
    if workerCount < 1 {
      return Refused(NoWorkers);
    }
    var valid := ValidateConfig(cfg);
    if !valid {
      return Refused(InvalidConfig);
    }
    AcceptedRate(cfg);
    var active := ActiveShards(cfg, workerCount);
    var shards: seq<LoadConfig> := [];
    for index := 0 to active
      invariant shards == ShardsOf(cfg, index, active)
      invariant valid && forall i | 0 <= i < index :: LoadAccepted(shards[i]) && RestKept(cfg, shards[i])
    {
      var shard := Shard(cfg, index, active);
      ShardAccepted(cfg, index, active);
      ShardKeepsRest(cfg, index, active);
      var shardValid := ValidateConfig(shard);
      valid := valid && shardValid;
      shards := shards + [shard];
    }
    return if valid then Sharded(shards) else Refused(InvalidShard);
  }

  // ----- totals

  function Total(shards: seq<LoadConfig>, field: LoadConfig -> int): int {
    if shards == [] then 0 else Total(shards[..|shards| - 1], field) + field(shards[|shards| - 1])
  }

  lemma {:induction false} TotalOfSplits(cfg: LoadConfig, n: nat, count: int, field: LoadConfig -> int, total: int)
    requires 0 < count && n <= count
    requires forall i | 0 <= i < count :: field(Shard(cfg, i, count)) == SplitInteger(total, i, count)
    ensures Total(ShardsOf(cfg, n, count), field) == SumSplits(total, n, count)
  {
    if n > 0 {
      var shards := ShardsOf(cfg, n, count);
      assert shards[..n - 1] == ShardsOf(cfg, n - 1, count);
      TotalOfSplits(cfg, n - 1, count, field, total);
    }
  }

  lemma TotalKept(cfg: LoadConfig, count: int, field: LoadConfig -> int, total: int)
    requires 0 < count
    requires forall i | 0 <= i < count :: field(Shard(cfg, i, count)) == SplitInteger(total, i, count)
    ensures Total(ShardsOf(cfg, count, count), field) == total
  {
    TotalOfSplits(cfg, count, count, field, total);
    SplitsAddUp(total, count);
  }

  /** Connections, rate limits and users are divided without loss. */
  lemma LimitsKept(cfg: LoadConfig, count: int)
    requires 0 < count
    ensures Total(ShardsOf(cfg, count, count), (c: LoadConfig) => c.maxConnsPerHost)
         == OrDefault(cfg.maxConnsPerHost, DEFAULT_MAX_CONNS_PER_HOST)
    ensures cfg.rateLimit > 0 ==>
              Total(ShardsOf(cfg, count, count), (c: LoadConfig) => c.rateLimit) == cfg.rateLimit
    ensures cfg.profile.None? ==>
              Total(ShardsOf(cfg, count, count), (c: LoadConfig) => c.virtualUsers)
              == OrDefault(cfg.virtualUsers, DEFAULT_VIRTUAL_USERS)
  {
    TotalKept(cfg, count, (c: LoadConfig) => c.maxConnsPerHost,
              OrDefault(cfg.maxConnsPerHost, DEFAULT_MAX_CONNS_PER_HOST));
    if cfg.rateLimit > 0 {
      TotalKept(cfg, count, (c: LoadConfig) => c.rateLimit, cfg.rateLimit);
    }
    if cfg.profile.None? {
      TotalKept(cfg, count, (c: LoadConfig) => c.virtualUsers, OrDefault(cfg.virtualUsers, DEFAULT_VIRTUAL_USERS));
    }
  }

  function StageTarget(c: LoadConfig, k: nat): int {
    if c.profile.Some? && k < |c.profile.value.stages| then c.profile.value.stages[k].target else 0
  }

  /** So are the targets of each stage and the workers of arrival profiles. */
  lemma ProfileTotalsKept(cfg: LoadConfig, count: int, k: nat)
    requires 0 < count && cfg.profile.Some? && k < |cfg.profile.value.stages|
    ensures Total(ShardsOf(cfg, count, count), (c: LoadConfig) => StageTarget(c, k))
         == cfg.profile.value.stages[k].target
    ensures ArrivalMode(cfg.profile.value.mode) ==>
              Total(ShardsOf(cfg, count, count),
                    (c: LoadConfig) => if c.profile.Some? then c.profile.value.maxVUs else 0)
              == cfg.profile.value.maxVUs
    ensures ArrivalMode(cfg.profile.value.mode) ==>
              Total(ShardsOf(cfg, count, count),
                    (c: LoadConfig) => if c.profile.Some? then c.profile.value.preAllocatedVUs else 0)
              == cfg.profile.value.preAllocatedVUs
  {
    TotalKept(cfg, count, (c: LoadConfig) => StageTarget(c, k), cfg.profile.value.stages[k].target);
    if ArrivalMode(cfg.profile.value.mode) {
      TotalKept(cfg, count, (c: LoadConfig) => if c.profile.Some? then c.profile.value.maxVUs else 0,
                cfg.profile.value.maxVUs);
      TotalKept(cfg, count, (c: LoadConfig) => if c.profile.Some? then c.profile.value.preAllocatedVUs else 0,
                cfg.profile.value.preAllocatedVUs);
    }
  }
}
