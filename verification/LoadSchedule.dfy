/** Compiling a load profile, and reading the schedule from it. */
module LoadSchedule {
  import opened LoadProfile

  datatype ProfileError =
    | NegativeGracefulStop | WrongStageCount | InvalidStage(index: nat) | DurationTooLarge
    | NegativeStart | NoPositiveTarget | NotConstant | TargetTooHigh | InvalidWorkers
    | RateLimitWithArrivals | UnsupportedProfile

  datatype Result<+T> = Success(value: T) | Failure(error: ProfileError)

  predicate ArrivalMode(mode: LoadMode) {
    mode == ConstantArrival || mode == RampingArrival
  }

  function MaxOf(a: int, b: int): int {
    if a > b then a else b
  }

  function Peak(start: int, stages: seq<LoadStage>): (p: int)
    ensures p >= start && forall i | 0 <= i < |stages| :: p >= stages[i].target
    ensures p == start || exists i :: 0 <= i < |stages| && p == stages[i].target
  {
    if stages == [] then start
    else
      var rest := Peak(start, stages[..|stages| - 1]);
      MaxOf(rest, stages[|stages| - 1].target)
  }

  function TotalDuration(stages: seq<LoadStage>): int {
    if stages == [] then 0 else TotalDuration(stages[..|stages| - 1]) + stages[|stages| - 1].duration
  }

  // ----- what is accepted

  predicate StagesValid(stages: seq<LoadStage>) {
    && 1 <= |stages| <= MAX_LOAD_STAGES
    && (forall i | 0 <= i < |stages| :: stages[i].duration > 0 && stages[i].target >= 0)
    && TotalDuration(stages) <= MAX_INT64
  }

  predicate IsConstant(p: LoadProfile) {
    p.startTarget >= 1 && |p.stages| == 1 && p.stages[0].target == p.startTarget
  }

  predicate ArrivalWorkersValid(p: LoadProfile) {
    1 <= p.preAllocatedVUs <= p.maxVUs <= MAX_PROFILE_VIRTUAL_USERS
  }

  predicate ModeAccepted(p: LoadProfile, rateLimit: int) {
    var peak := Peak(p.startTarget, p.stages);
    match p.mode
    case ConstantVUs => IsConstant(p) && peak <= MAX_PROFILE_VIRTUAL_USERS
    case RampingVUs => peak <= MAX_PROFILE_VIRTUAL_USERS
    case ConstantArrival => IsConstant(p) && peak <= MAX_RATE_LIMIT_RPS && ArrivalWorkersValid(p) && rateLimit == 0
    case RampingArrival => peak <= MAX_RATE_LIMIT_RPS && ArrivalWorkersValid(p) && rateLimit == 0
    case UnsupportedMode => false
  }

  predicate ProfileAccepted(p: LoadProfile, rateLimit: int) {
    && p.gracefulStop >= 0 && StagesValid(p.stages) && p.startTarget >= 0
    && Peak(p.startTarget, p.stages) > 0
    && ModeAccepted(p, rateLimit)
  }

  /** A compiled profile stands for the definition it came from. */
  predicate CompiledFrom(c: CompiledProfile, p: LoadProfile, requestTimeout: int) {
    && c.mode == p.mode && c.startTarget == p.startTarget && c.stages == p.stages
    && c.duration == TotalDuration(p.stages)
    && c.gracefulStop == (if p.gracefulStop == 0 then requestTimeout else p.gracefulStop)
    && c.maxWorkers == (if ArrivalMode(p.mode) then p.maxVUs else Peak(p.startTarget, p.stages))
    && (ArrivalMode(p.mode) ==> c.preAllocatedVUs == p.preAllocatedVUs)
  }

  lemma {:induction false} DurationsAddUp(stages: seq<LoadStage>, n: nat)
    requires n <= |stages| && forall i | 0 <= i < |stages| :: stages[i].duration > 0
    ensures 0 <= TotalDuration(stages[..n]) <= TotalDuration(stages)
    decreases |stages|
  {
    if n < |stages| {
      DurationsAddUp(stages[..|stages| - 1], n);
      assert stages[..|stages| - 1][..n] == stages[..n];
    } else {
      assert stages[..n] == stages;
      if n > 0 {
        DurationsAddUp(stages[..n - 1], n - 1);
      }
    }
  }

  method ScanStages(p: LoadProfile) returns (r: Result<(int, int, bool)>)
    requires 1 <= |p.stages| <= MAX_LOAD_STAGES
    ensures r.Success? <==> StagesValid(p.stages)
    ensures r.Success? ==> r.value.0 == TotalDuration(p.stages) && r.value.1 == Peak(p.startTarget, p.stages)
                           && (r.value.2 <==> Peak(p.startTarget, p.stages) > 0)
  {
    var totalDuration, maxTarget, positiveTarget := 0, p.startTarget, p.startTarget > 0;
    assert p.stages[..0] == [];
    for index := 0 to |p.stages|
      invariant forall i | 0 <= i < index :: p.stages[i].duration > 0 && p.stages[i].target >= 0
      invariant 0 <= totalDuration == TotalDuration(p.stages[..index]) <= MAX_INT64
      invariant maxTarget == Peak(p.startTarget, p.stages[..index])
      invariant positiveTarget <==> maxTarget > 0
    {
      var stage := p.stages[index];
      assert p.stages[..index + 1][..index] == p.stages[..index];
      if stage.duration <= 0 || stage.target < 0 {
        return Failure(InvalidStage(index));
      }
      if totalDuration > MAX_INT64 - stage.duration {
        if StagesValid(p.stages) {
          DurationsAddUp(p.stages, index + 1);
        }
        return Failure(DurationTooLarge);
      }
      totalDuration := totalDuration + stage.duration;
      maxTarget := MaxOf(maxTarget, stage.target);
      positiveTarget := positiveTarget || stage.target > 0;
    }
    assert p.stages[..|p.stages|] == p.stages;
    return Success((totalDuration, maxTarget, positiveTarget));
  }

  method CompileLoadProfile(p: LoadProfile, rateLimit: int, requestTimeout: int) returns (r: Result<CompiledProfile>)
    ensures r.Success? <==> ProfileAccepted(p, rateLimit)
    ensures r.Success? ==> CompiledFrom(r.value, p, requestTimeout)
  {
    if p.gracefulStop < 0 {
      return Failure(NegativeGracefulStop);
    }
    if |p.stages| == 0 || |p.stages| > MAX_LOAD_STAGES {
      return Failure(WrongStageCount);
    }
    var scanned := ScanStages(p);
    if scanned.Failure? {
      return Failure(scanned.error);
    }
    var (duration, maxTarget, positiveTarget) := scanned.value;
    if p.startTarget < 0 {
      return Failure(NegativeStart);
    }
    if !positiveTarget {
      return Failure(NoPositiveTarget);
    }
    var gracefulStop := if p.gracefulStop == 0 then requestTimeout else p.gracefulStop;
    var compiled := CompiledProfile(p.mode, p.startTarget, p.stages, duration, 0, 0, gracefulStop);
    match p.mode {
      case ConstantVUs =>
        if !IsConstant(p) {
          return Failure(NotConstant);
        }
        if maxTarget > MAX_PROFILE_VIRTUAL_USERS {
          return Failure(TargetTooHigh);
        }
        return Success(compiled.(maxWorkers := maxTarget));
      case RampingVUs =>
        if maxTarget > MAX_PROFILE_VIRTUAL_USERS {
          return Failure(TargetTooHigh);
        }
        return Success(compiled.(maxWorkers := maxTarget));
      case ConstantArrival =>
        if !IsConstant(p) {
          return Failure(NotConstant);
        }
        r := CompileArrivals(p, compiled, maxTarget, rateLimit);
      case RampingArrival =>
        r := CompileArrivals(p, compiled, maxTarget, rateLimit);
      case UnsupportedMode =>
        return Failure(UnsupportedProfile);
    }
  }

  method CompileArrivals(p: LoadProfile, compiled: CompiledProfile, maxTarget: int, rateLimit: int)
    returns (r: Result<CompiledProfile>)
    ensures r.Success? <==> maxTarget <= MAX_RATE_LIMIT_RPS && ArrivalWorkersValid(p) && rateLimit == 0
    ensures r.Success? ==> r.value == compiled.(preAllocatedVUs := p.preAllocatedVUs, maxWorkers := p.maxVUs)
  {
    if maxTarget > MAX_RATE_LIMIT_RPS {
      return Failure(TargetTooHigh);
    }
    if p.preAllocatedVUs < 1 || p.preAllocatedVUs > MAX_PROFILE_VIRTUAL_USERS
       || p.maxVUs < p.preAllocatedVUs || p.maxVUs > MAX_PROFILE_VIRTUAL_USERS {
      return Failure(InvalidWorkers);
    }
    if rateLimit != 0 {
      return Failure(RateLimitWithArrivals);
    }
    return Success(compiled.(preAllocatedVUs := p.preAllocatedVUs, maxWorkers := p.maxVUs));
  }

  // ----- bounds on the target

  ghost predicate TargetsWithin(from: real, stages: seq<LoadStage>, lo: real, hi: real) {
    lo <= from <= hi && forall i | 0 <= i < |stages| :: lo <= stages[i].target as real <= hi
  }

  function Times(d: real, x: real): real {
    d * x
  }

  /** A part of a difference lies between nothing and all of it. */
  lemma PartOf(d: real, x: real)
    requires 0.0 <= x <= 1.0
    ensures if d >= 0.0 then 0.0 <= Times(d, x) <= d else d <= Times(d, x) <= 0.0
  {
    if d >= 0.0 {
      Scale(0.0, x, d);
      Scale(x, 1.0, d);
    } else {
      Scale(0.0, x, -d);
      Scale(x, 1.0, -d);
    }
  }

  lemma FractionWithin(t: real, duration: real)
    requires 0.0 <= t < duration
    ensures 0.0 <= t / duration <= 1.0
  {
  }

  lemma LineWithin(from: real, to: real, duration: real, t: real, lo: real, hi: real)
    requires lo <= from <= hi && lo <= to <= hi && 0.0 <= t < duration
    ensures lo <= Line(from, to, duration, t) <= hi
  {
    assert Line(from, to, duration, t) == from + Times(to - from, t / duration);
    hide Line, Times;
    FractionWithin(t, duration);
    PartOf(to - from, t / duration);
  }

  lemma {:induction false} TargetWithin(from: real, stages: seq<LoadStage>, t: real, lo: real, hi: real)
    requires PositiveStages(stages) && TargetsWithin(from, stages, lo, hi) && t >= 0.0
    ensures lo <= Target(from, stages, t) <= hi
    decreases |stages|
  {
    if stages != [] {
      var d, to := stages[0].duration as real, stages[0].target as real;
      if t < d {
        LineWithin(from, to, d, t, lo, hi);
      } else {
        TargetWithin(to, stages[1..], t - d, lo, hi);
      }
    }
  }

  // ----- reading the schedule

  ghost predicate Schedule(c: CompiledProfile) {
    && PositiveStages(c.stages) && c.startTarget >= 0
    && forall i | 0 <= i < |c.stages| :: c.stages[i].target >= 0
  }

  function Clamped(elapsed: int): int {
    if elapsed < 0 then 0 else elapsed
  }

  ghost function TargetOf(c: CompiledProfile, elapsed: int): real
    requires Schedule(c)
  {
    Target(c.startTarget as real, c.stages, Clamped(elapsed) as real)
  }

  /** The time at which stage k begins, and the target it begins with. */
  function BeginOf(stages: seq<LoadStage>, k: nat): int
    requires k <= |stages|
  {
    TotalDuration(stages[..k])
  }

  function FromOf(start: real, stages: seq<LoadStage>, k: nat): real
    requires k <= |stages|
  {
    if k == 0 then start else stages[k - 1].target as real
  }

  lemma {:induction false} DurationFromFront(stages: seq<LoadStage>)
    requires stages != []
    ensures TotalDuration(stages) == stages[0].duration + TotalDuration(stages[1..])
  {
    var last := |stages| - 1;
    if last > 0 {
      DurationFromFront(stages[..last]);
      assert stages[..last][1..] == stages[1..][..last - 1];
    }
  }

  lemma BeginLater(stages: seq<LoadStage>, k: nat)
    requires 0 < k <= |stages|
    ensures BeginOf(stages, k) == stages[0].duration + BeginOf(stages[1..], k - 1)
  {
    DurationFromFront(stages[..k]);
    assert stages[..k][1..] == stages[1..][..k - 1];
  }

  lemma {:induction false} BeginNotNegative(stages: seq<LoadStage>, k: nat)
    requires PositiveStages(stages) && k <= |stages|
    ensures BeginOf(stages, k) >= 0
  {
    if k > 0 {
      BeginNotNegative(stages, k - 1);
      assert stages[..k][..k - 1] == stages[..k - 1];
    }
  }

  /** Within a stage the target moves in a straight line from the target of the
      stage before to its own. */
  lemma {:induction false} TargetIsLinear(start: real, stages: seq<LoadStage>, k: nat, t: real)
    requires PositiveStages(stages) && k < |stages| && 0.0 <= t <= stages[k].duration as real
    ensures Target(start, stages, BeginOf(stages, k) as real + t)
         == Line(FromOf(start, stages, k), stages[k].target as real, stages[k].duration as real, t)
    decreases |stages|
  {
    var d, to := stages[0].duration as real, stages[0].target as real;
    if k == 0 {
      LineIsSlope(start, to, d, d);
      TargetAtZero(to, stages[1..]);
    } else {
      hide Line;
      BeginLater(stages, k);
      BeginNotNegative(stages[1..], k - 1);
      TargetIsLinear(to, stages[1..], k - 1, t);
      assert BeginOf(stages, k) as real + t - d == BeginOf(stages[1..], k - 1) as real + t;
    }
  }

  /** After all stages the last target stays. */
  lemma {:induction false} TargetAfterEnd(start: real, stages: seq<LoadStage>, t: real)
    requires PositiveStages(stages) && t >= TotalDuration(stages) as real
    ensures Target(start, stages, t) == FromOf(start, stages, |stages|)
    decreases |stages|
  {
    if stages != [] {
      DurationFromFront(stages);
      assert stages[1..][..|stages| - 1] == stages[1..];
      BeginNotNegative(stages[1..], |stages| - 1);
      TargetAfterEnd(stages[0].target as real, stages[1..], t - stages[0].duration as real);
    }
  }

  predicate InStage(stages: seq<LoadStage>, k: nat, elapsed: int) {
    k < |stages| && BeginOf(stages, k) <= elapsed <= BeginOf(stages, k) + stages[k].duration
  }

  /** The target at a time, read off the stages. */
  ghost predicate OnSchedule(c: CompiledProfile, elapsed: int, target: real)
    requires Schedule(c)
  {
    && (elapsed <= 0 ==> target == c.startTarget as real)
    && (forall k: nat | InStage(c.stages, k, elapsed) ::
          target == Line(FromOf(c.startTarget as real, c.stages, k), c.stages[k].target as real,
                         c.stages[k].duration as real, (elapsed - BeginOf(c.stages, k)) as real))
    && (elapsed >= TotalDuration(c.stages) && elapsed >= 0 ==>
          target == FromOf(c.startTarget as real, c.stages, |c.stages|))
  }

  lemma TargetIsOnSchedule(c: CompiledProfile, elapsed: int)
    requires Schedule(c)
    ensures OnSchedule(c, elapsed, TargetOf(c, elapsed))
  {
    TargetAtZero(c.startTarget as real, c.stages);
    forall k: nat | InStage(c.stages, k, elapsed)
      ensures TargetOf(c, elapsed) == Line(FromOf(c.startTarget as real, c.stages, k), c.stages[k].target as real,
                                           c.stages[k].duration as real, (elapsed - BeginOf(c.stages, k)) as real)
    {
      BeginNotNegative(c.stages, k);
      TargetIsLinear(c.startTarget as real, c.stages, k, (elapsed - BeginOf(c.stages, k)) as real);
    }
    if elapsed >= TotalDuration(c.stages) && elapsed >= 0 {
      TargetAfterEnd(c.startTarget as real, c.stages, elapsed as real);
    }
  }

  lemma LineByFraction(from: real, to: real, duration: real, t: real, fraction: real)
    requires duration > 0.0 && fraction == t / duration
    ensures from + (to - from) * fraction == Line(from, to, duration, t)
  {
  }

  method TargetAt(c: CompiledProfile, elapsed: int) returns (target: real)
    requires Schedule(c)
    ensures target == TargetOf(c, elapsed) && OnSchedule(c, elapsed, target)
  {
    hide OnSchedule, Line;
    TargetIsOnSchedule(c, elapsed);
    if elapsed <= 0 || |c.stages| == 0 {
      TargetAtZero(c.startTarget as real, c.stages);
      return c.startTarget as real;
    }
    var remaining, from := elapsed, c.startTarget as real;
    assert c.stages[0..] == c.stages;
    for i := 0 to |c.stages|
      invariant remaining >= 0 && Target(from, c.stages[i..], remaining as real) == TargetOf(c, elapsed)
    {
      var stage := c.stages[i];
      assert c.stages[i..][0] == stage && c.stages[i..][1..] == c.stages[i + 1..];
      var to := stage.target as real;
      if remaining < stage.duration {
        var fraction := remaining as real / stage.duration as real;
        assert Target(from, c.stages[i..], remaining as real)
            == Line(from, to, stage.duration as real, remaining as real);
        LineByFraction(from, to, stage.duration as real, remaining as real, fraction);
        return from + (to - from) * fraction;
      }
      remaining := remaining - stage.duration;
      from := to;
    }
    return from;
  }

  /** Half away from zero. */
  function Round(x: real): int {
    if x < 0.0 then -((0.5 - x).Floor) else (x + 0.5).Floor
  }

  method VirtualUsersAt(c: CompiledProfile, elapsed: int) returns (users: int)
    requires Schedule(c) && c.maxWorkers >= 0
    ensures 0 <= users <= c.maxWorkers
    ensures TargetOf(c, elapsed) <= c.maxWorkers as real ==>
              users as real - 0.5 <= TargetOf(c, elapsed) < users as real + 0.5
    ensures TargetOf(c, elapsed) >= c.maxWorkers as real ==> users == c.maxWorkers
  {
    var exact := TargetAt(c, elapsed);
    var target := Round(exact);
    ghost var peak := Peak(c.startTarget, c.stages) as real;
    TargetWithin(c.startTarget as real, c.stages, Clamped(elapsed) as real, 0.0, peak);
    if target < 0 {
      return 0;
    }
    if target > c.maxWorkers {
      return c.maxWorkers;
    }
    return target;
  }

  /** In the profiles of virtual users the limit never binds. */
  lemma PeakIsEnough(c: CompiledProfile, p: LoadProfile, requestTimeout: int, rateLimit: int, elapsed: int)
    requires ProfileAccepted(p, rateLimit) && CompiledFrom(c, p, requestTimeout) && !ArrivalMode(p.mode)
    ensures Schedule(c) && 0.0 <= TargetOf(c, elapsed) <= c.maxWorkers as real
  {
    TargetWithin(c.startTarget as real, c.stages, Clamped(elapsed) as real, 0.0, c.maxWorkers as real);
  }

  // ----- arrivals

  function Within(c: CompiledProfile, elapsed: int): int {
    if elapsed <= 0 then 0 else if c.duration > 0 && elapsed > c.duration then c.duration else elapsed
  }

  /** The integral of the target, in arrivals. */
  ghost function Integral(c: CompiledProfile, elapsed: int): real
    requires Schedule(c)
  {
    Area(c.startTarget as real, c.stages, Within(c, elapsed) as real) / SECOND
  }

  ghost function ArrivalsOf(c: CompiledProfile, elapsed: int): int
    requires Schedule(c)
  {
    (Integral(c, elapsed) + EPSILON).Floor
  }

  lemma IntegralGrows(c: CompiledProfile, s: int, t: int)
    requires Schedule(c) && s <= t
    ensures 0.0 <= Integral(c, s) <= Integral(c, t)
  {
    var from, peak := c.startTarget as real, Peak(c.startTarget, c.stages) as real;
    var a, b := Within(c, s) as real, Within(c, t) as real;
    forall u: real | 0.0 <= u <= b
      ensures 0.0 <= Target(from, c.stages, u) <= peak
    {
      TargetWithin(from, c.stages, u, 0.0, peak);
    }
    AreaIsIntegral(from, c.stages, 0.0, a, 0.0, peak);
    AreaIsIntegral(from, c.stages, a, b, 0.0, peak);
    TargetAtZero(from, c.stages);
  }

  lemma SegmentArea(from: real, to: real, segment: real, arrivals: real)
    ensures (arrivals + (from + to) * 0.5 * (segment / SECOND)) * SECOND
         == arrivals * SECOND + (from + to) * 0.5 * segment
  {
  }

  /** What one segment contributes. */
  lemma StageArea(from: real, stages: seq<LoadStage>, remaining: real, segment: real, to: real)
    requires PositiveStages(stages) && stages != [] && remaining > 0.0
    requires segment == if remaining < stages[0].duration as real then remaining else stages[0].duration as real
    requires to == Line(from, stages[0].target as real, stages[0].duration as real, segment)
    ensures Area(from, stages, remaining) == (from + to) * 0.5 * segment
              + if remaining == segment then 0.0 else Area(stages[0].target as real, stages[1..], remaining - segment)
  {
    LineIsSlope(from, stages[0].target as real, stages[0].duration as real, segment);
    TargetAtZero(stages[0].target as real, stages[1..]);
  }

  /** The area that is left when no time is left is not looked at. */
  ghost function AreaLeft(from: real, stages: seq<LoadStage>, remaining: int): real
    requires PositiveStages(stages)
  {
    if remaining == 0 then 0.0 else Area(from, stages, remaining as real)
  }

  lemma SegmentLine(from: real, to: real, duration: real, segment: real)
    requires duration > 0.0
    ensures from + (to - from) * (segment / duration) == Line(from, to, duration, segment)
  {
  }

  /** What is left of the area after a segment. */
  lemma SegmentLeaves(stage: LoadStage, from: real, remaining: int, segment: int, to: real, stages: seq<LoadStage>)
    requires PositiveStages(stages) && stages != [] && stages[0] == stage && remaining > 0
    requires segment == if remaining < stage.duration then remaining else stage.duration
    requires to == Line(from, stage.target as real, stage.duration as real, segment as real)
    ensures AreaLeft(from, stages, remaining)
         == (from + to) * 0.5 * segment as real + AreaLeft(stage.target as real, stages[1..], remaining - segment)
  {
    hide Area, Line;
    StageArea(from, stages, remaining as real, segment as real, to);
    assert (remaining - segment) as real == remaining as real - segment as real;
  }

  method AddSegment(stage: LoadStage, from: real, remaining: int, sum: real, ghost stages: seq<LoadStage>)
    returns (segment: int, more: real)
    requires PositiveStages(stages) && stages != [] && stages[0] == stage && remaining > 0
    ensures 0 < segment <= remaining
    ensures more * SECOND + AreaLeft(stage.target as real, stages[1..], remaining - segment)
         == sum * SECOND + AreaLeft(from, stages, remaining)
  {
    segment := if remaining < stage.duration then remaining else stage.duration;
    var fraction := segment as real / stage.duration as real;
    var to := from + (stage.target as real - from) * fraction;
    more := sum + (from + to) * 0.5 * (segment as real / SECOND);
    hide AreaLeft, Line;
    SegmentLine(from, stage.target as real, stage.duration as real, segment as real);
    SegmentLeaves(stage, from, remaining, segment, to, stages);
    SegmentArea(from, to, segment as real, sum);
  }

  method SumSegments(start: real, stages: seq<LoadStage>, elapsed: int) returns (sum: real)
    requires PositiveStages(stages) && elapsed > 0
    ensures sum * SECOND == Area(start, stages, elapsed as real)
  {
    hide Area;
    var remaining, from := elapsed, start;
    sum := 0.0;
    assert stages[0..] == stages;
    var i := 0;
    while i < |stages| && remaining > 0
      invariant 0 <= i <= |stages| && remaining >= 0
      invariant sum * SECOND + AreaLeft(from, stages[i..], remaining) == Area(start, stages, elapsed as real)
    {
      assert stages[i..][1..] == stages[i + 1..];
      var segment;
      segment, sum := AddSegment(stages[i], from, remaining, sum, stages[i..]);
      remaining := remaining - segment;
      from := stages[i].target as real;
      i := i + 1;
    }
    if remaining > 0 {
      AreaOfNothing(from, remaining as real);
      SegmentArea(from, from, remaining as real, sum);
      sum := sum + from * (remaining as real / SECOND);
    }
  }

  method ArrivalsThrough(c: CompiledProfile, elapsed: int) returns (arrivals: nat)
    requires Schedule(c)
    ensures arrivals == ArrivalsOf(c, elapsed)
    ensures elapsed <= 0 ==> arrivals == 0
    ensures elapsed > 0 ==>
              var time := if c.duration > 0 && elapsed > c.duration then c.duration else elapsed;
              var area := Area(c.startTarget as real, c.stages, time as real);
              arrivals as real <= area / SECOND + EPSILON < arrivals as real + 1.0
  {
    IntegralGrows(c, elapsed, elapsed);
    if elapsed <= 0 {
      TargetAtZero(c.startTarget as real, c.stages);
      return 0;
    }
    var sum := SumSegments(c.startTarget as real, c.stages,
                           if c.duration > 0 && elapsed > c.duration then c.duration else elapsed);
    assert sum == Integral(c, elapsed);
    if sum <= 0.0 {
      return 0;
    }
    return (sum + EPSILON).Floor;
  }

  /** More time never means fewer arrivals. */
  lemma ArrivalsMonotone(c: CompiledProfile, s: int, t: int)
    requires Schedule(c) && s <= t
    ensures 0 <= ArrivalsOf(c, s) <= ArrivalsOf(c, t)
  {
    IntegralGrows(c, s, t);
  }

  /** The number of arrivals is the integral rounded down, or one more exactly
      when the integral is within the epsilon of the next whole number. */
  lemma ArrivalsAreFloor(c: CompiledProfile, elapsed: int)
    requires Schedule(c)
    ensures var exact := Integral(c, elapsed);
            var rest := exact - exact.Floor as real;
            ArrivalsOf(c, elapsed) == if rest >= 1.0 - EPSILON then exact.Floor + 1 else exact.Floor
  {
  }
}
