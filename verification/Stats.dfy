/** The statistics shards that workers record into, and the snapshot that
    merges them. */
module Stats {
  import opened Latency

  const FIRST_TRACKED_STATUS := 100
  const TRACKED_STATUSES := 500

  datatype FailureKind = FailureTimeout | FailureDNS | FailureTLS | FailureConnectionRefused | FailureOther

  datatype AssertionType =
    | StatusAssertion | HeaderAssertion | JSONAssertion | ResponseLatencyAssertion | StepLatencyAssertion
    | UnknownAssertion

  /** The plain counters. */
  datatype Counters = Counters(
    total: nat, success: nat, failed: nat,
    timeouts: nat, dns: nat, tls: nat, refused: nat, other: nat,
    assertionFailures: nat, captureFailures: nat, templateFailures: nat,
    status: nat, header: nat, json: nat, responseLatency: nat, stepLatency: nat, countOnly: nat,
    bytesRead: nat, bytesWritten: nat)
  {
    function Plus(c: Counters): Counters {
      Counters(total + c.total, success + c.success, failed + c.failed,
               timeouts + c.timeouts, dns + c.dns, tls + c.tls, refused + c.refused, other + c.other,
               assertionFailures + c.assertionFailures, captureFailures + c.captureFailures,
               templateFailures + c.templateFailures,
               status + c.status, header + c.header, json + c.json, responseLatency + c.responseLatency,
               stepLatency + c.stepLatency, countOnly + c.countOnly,
               bytesRead + c.bytesRead, bytesWritten + c.bytesWritten)
    }

    /** Every request succeeded or failed, for one reason; captures and
        templates that failed are among the failed assertions. */
    predicate Balanced() {
      && total == success + failed
      && failed == timeouts + dns + tls + refused + other
      && captureFailures + templateFailures <= assertionFailures
    }
  }

  function NoCounters(): Counters {
    Counters(0, 0, 0, 0, 0, 0, 0, 0, 0, 0, 0, 0, 0, 0, 0, 0, 0, 0, 0)
  }

  function WithFailure(c: Counters, failure: FailureKind): Counters {
    match failure
    case FailureTimeout => c.(timeouts := c.timeouts + 1)
    case FailureDNS => c.(dns := c.dns + 1)
    case FailureTLS => c.(tls := c.tls + 1)
    case FailureConnectionRefused => c.(refused := c.refused + 1)
    case FailureOther => c.(other := c.other + 1)
  }

  function WithAssertion(c: Counters, kind: AssertionType): Counters {
    match kind
    case StatusAssertion => c.(status := c.status + 1)
    case HeaderAssertion => c.(header := c.header + 1)
    case JSONAssertion => c.(json := c.json + 1)
    case ResponseLatencyAssertion => c.(responseLatency := c.responseLatency + 1)
    case StepLatencyAssertion => c.(stepLatency := c.stepLatency + 1)
    case UnknownAssertion => c
  }

  /** Whatever order its counters are set in, a failure keeps the balance. */
  lemma FailureCounted(c: Counters, failure: FailureKind, bytes: nat)
    requires c.Balanced()
    ensures var counted := WithFailure(c, failure).(total := c.total + 1, failed := c.failed + 1,
                                                    bytesWritten := c.bytesWritten + bytes);
            var kind := WithFailure(c.(total := c.total + 1, failed := c.failed + 1), failure);
            counted.Balanced() && kind.(bytesWritten := kind.bytesWritten + bytes) == counted
  {
  }

  // ----- status codes

  /** How many of the codes are this one. */
  function CountCode(codes: seq<int>, code: int): nat {
    if codes == [] then 0
    else CountCode(codes[..|codes| - 1], code) + if codes[|codes| - 1] == code then 1 else 0
  }

  /** Slot i counts the code FIRST_TRACKED_STATUS + i. */
  ghost predicate CountsCodes(codes: seq<int>, slots: seq<nat>) {
    |slots| == TRACKED_STATUSES
    && forall i | 0 <= i < TRACKED_STATUSES :: slots[i] == CountCode(codes, FIRST_TRACKED_STATUS + i)
  }

  lemma {:induction false} CountCodeAppended(a: seq<int>, b: seq<int>, code: int)
    ensures CountCode(a + b, code) == CountCode(a, code) + CountCode(b, code)
  {
    if b == [] {
      assert a + b == a;
    } else {
      assert (a + b)[..|a + b| - 1] == a + b[..|b| - 1];
      CountCodeAppended(a, b[..|b| - 1], code);
    }
  }

  lemma CodesAppended(codes: seq<int>, slots: seq<nat>, code: int, longer: seq<nat>)
    requires CountsCodes(codes, slots)
    requires var i := code - FIRST_TRACKED_STATUS;
             longer == if 0 <= i < TRACKED_STATUSES then slots[i := slots[i] + 1] else slots
    ensures CountsCodes(codes + [code], longer)
  {
    forall i | 0 <= i < TRACKED_STATUSES
      ensures longer[i] == CountCode(codes + [code], FIRST_TRACKED_STATUS + i)
    {
      CountCodeAppended(codes, [code], FIRST_TRACKED_STATUS + i);
      assert CountCode([], FIRST_TRACKED_STATUS + i) == 0;
      assert [code][..0] == [];
    }
  }

  lemma NoCodes(slots: seq<nat>)
    requires |slots| == TRACKED_STATUSES && forall i | 0 <= i < |slots| :: slots[i] == 0
    ensures CountsCodes([], slots)
  {
  }

  lemma CodesMerged(a: seq<int>, b: seq<int>, left: seq<nat>, right: seq<nat>, sums: seq<nat>)
    requires CountsCodes(a, left) && CountsCodes(b, right) && |sums| == TRACKED_STATUSES
    requires forall i | 0 <= i < TRACKED_STATUSES :: sums[i] == left[i] + right[i]
    ensures CountsCodes(a + b, sums)
  {
    forall i | 0 <= i < TRACKED_STATUSES
      ensures sums[i] == CountCode(a + b, FIRST_TRACKED_STATUS + i)
    {
      CountCodeAppended(a, b, FIRST_TRACKED_STATUS + i);
    }
  }

  // ----- latencies

  /** The smallest and the largest of the samples, given initial values. */
  function Smallest(samples: seq<nat>, start: nat): nat {
    if samples == [] then start
    else
      var rest := Smallest(samples[..|samples| - 1], start);
      if samples[|samples| - 1] < rest then samples[|samples| - 1] else rest
  }

  function Largest(samples: seq<nat>): nat {
    if samples == [] then 0
    else
      var rest := Largest(samples[..|samples| - 1]);
      if samples[|samples| - 1] > rest then samples[|samples| - 1] else rest
  }

  function Sum(samples: seq<nat>): nat {
    if samples == [] then 0 else Sum(samples[..|samples| - 1]) + samples[|samples| - 1]
  }

  function Clamp(latency: int): nat {
    if latency < 0 then 0 else latency
  }

  lemma Appended(samples: seq<nat>, value: nat)
    ensures (samples + [value])[..|samples + [value]| - 1] == samples
  {
  }

  lemma CountAppended(t: seq<nat>, samples: seq<nat>, counts: seq<nat>, value: nat, index: nat, longer: seq<nat>)
    requires ValidTable(t) && Histogram(t, samples, counts) && Covers(t, index, value)
    requires longer == counts[index := counts[index] + 1]
    ensures Histogram(t, samples + [value], longer)
  {
    Appended(samples, value);
    forall i | 0 <= i < |t|
      ensures longer[i] == InBucket(t, samples + [value], i)
    {
      if Covers(t, i, value) {
        CoverUnique(t, i, index, value);
      }
    }
  }

  /** How many latencies there are, their sum, and the smallest and largest. */
  ghost predicate Summary(recorded: seq<nat>, samples: nat, total: nat, min: nat, max: nat) {
    && InRange(recorded) && samples == |recorded| && total == Sum(recorded)
    && min == Smallest(recorded, MAX_UINT64) && max == Largest(recorded)
  }

  lemma NothingSummed()
    ensures Summary([], 0, 0, MAX_UINT64, 0)
  {
  }

  lemma EmptyHistogram(t: seq<nat>, counts: seq<nat>)
    requires |counts| == |t| && forall i | 0 <= i < |counts| :: counts[i] == 0
    ensures Histogram(t, [], counts)
  {
  }

  method Zeros(n: nat) returns (a: array<nat>)
    ensures fresh(a) && a.Length == n && forall i | 0 <= i < n :: a[..][i] == 0
  {
    a := new nat[n](_ => 0);
  }

  class StatsShard {
    const table: seq<nat>
    const latencyBuckets: array<nat>
    const statusCodes: array<nat>
    var counters: Counters
    var latencySamples: nat
    var totalLatency: nat
    var minLatency: nat
    var maxLatency: nat
    /** The latencies and the status codes recorded so far. */
    ghost var recorded: seq<nat>
    ghost var codes: seq<int>

    ghost predicate LatenciesValid()
      reads this, latencyBuckets
    {
      && ValidTable(table) && Histogram(table, recorded, latencyBuckets[..])
      && Summary(recorded, latencySamples, totalLatency, minLatency, maxLatency)
    }

    ghost predicate Valid()
      reads this, latencyBuckets, statusCodes
    {
      && latencyBuckets != statusCodes && LatenciesValid() && CountsCodes(codes, statusCodes[..])
      && counters.Balanced() && counters.total == |codes| && latencySamples <= counters.total
    }

    constructor (table: seq<nat>)
      requires ValidTable(table)
      ensures Valid() && this.table == table && recorded == [] && codes == [] && counters == NoCounters()
      ensures fresh(latencyBuckets) && fresh(statusCodes)
    {
      hide CountsCodes, Histogram, Summary, ValidTable, NoCounters, Counters.Balanced;
      NoneBalanced();
      NothingSummed();
      var buckets := Zeros(|table|);
      var slots := Zeros(TRACKED_STATUSES);
      EmptyHistogram(table, buckets[..]);
      NoCodes(slots[..]);
      this.table := table;
      latencyBuckets, statusCodes := buckets, slots;
      counters := NoCounters();
      latencySamples, totalLatency, minLatency, maxLatency := 0, 0, MAX_UINT64, 0;
      recorded, codes := [], [];
    }

    method RecordLatency(latency: nat)
      requires LatenciesValid() && latency <= MAX_INT64
      modifies this`latencySamples, this`totalLatency, this`minLatency, this`maxLatency, this`recorded, latencyBuckets
      ensures LatenciesValid() && recorded == old(recorded) + [latency] && latencySamples == old(latencySamples) + 1
    {
      Appended(recorded, latency);
      ghost var before := latencyBuckets[..];
      latencySamples := latencySamples + 1;
      totalLatency := totalLatency + latency;
      var index := BucketIndex(table, latency);
      latencyBuckets[index] := latencyBuckets[index] + 1;
      CountAppended(table, recorded, before, latency, index, latencyBuckets[..]);
      if latency < minLatency {
        minLatency := latency;
      }
      if latency > maxLatency {
        maxLatency := latency;
      }
      recorded := recorded + [latency];
    }

    method RecordStatusCode(statusCode: int)
      requires CountsCodes(codes, statusCodes[..])
      modifies this`codes, statusCodes
      ensures CountsCodes(codes, statusCodes[..]) && codes == old(codes) + [statusCode]
    {
      ghost var before := statusCodes[..];
      if FIRST_TRACKED_STATUS <= statusCode < FIRST_TRACKED_STATUS + TRACKED_STATUSES {
        var slot := statusCode - FIRST_TRACKED_STATUS;
        statusCodes[slot] := statusCodes[slot] + 1;
      }
      CodesAppended(codes, before, statusCode, statusCodes[..]);
      codes := codes + [statusCode];
    }

    method RecordSuccess(latency: int, bytesRead: int, bytesWritten: int, sampleLatency: bool, statusCode: int)
      requires Valid() && latency <= MAX_INT64
      modifies this, latencyBuckets, statusCodes
      ensures Valid() && codes == old(codes) + [statusCode]
      ensures recorded == old(recorded) + if sampleLatency then [Clamp(latency)] else []
      ensures counters == old(counters).(total := old(counters).total + 1, success := old(counters).success + 1,
                                         bytesRead := old(counters).bytesRead + Clamp(bytesRead),
                                         bytesWritten := old(counters).bytesWritten + Clamp(bytesWritten))
    {
      hide CountsCodes, Histogram, Summary, ValidTable;
      counters := counters.(total := counters.total + 1, success := counters.success + 1);
      RecordStatusCode(statusCode);
      if bytesRead > 0 {
        counters := counters.(bytesRead := counters.bytesRead + bytesRead);
      }
      if bytesWritten > 0 {
        counters := counters.(bytesWritten := counters.bytesWritten + bytesWritten);
      }
      if sampleLatency {
        RecordLatency(Clamp(latency));
      }
    }

    method RecordFailureKind(failure: FailureKind)
      modifies this`counters
      ensures counters == WithFailure(old(counters), failure)
    {
      match failure {
        case FailureTimeout => counters := counters.(timeouts := counters.timeouts + 1);
        case FailureDNS => counters := counters.(dns := counters.dns + 1);
        case FailureTLS => counters := counters.(tls := counters.tls + 1);
        case FailureConnectionRefused => counters := counters.(refused := counters.refused + 1);
        case FailureOther => counters := counters.(other := counters.other + 1);
      }
    }

    method RecordFailure(latency: int, bytesWritten: int, sampleLatency: bool, failure: FailureKind, statusCode: int)
      requires Valid() && latency <= MAX_INT64
      modifies this, latencyBuckets, statusCodes
      ensures Valid() && codes == old(codes) + [statusCode]
      ensures recorded == old(recorded) + if sampleLatency then [Clamp(latency)] else []
      ensures counters == WithFailure(old(counters), failure).(
                            total := old(counters).total + 1, failed := old(counters).failed + 1,
                            bytesWritten := old(counters).bytesWritten + Clamp(bytesWritten))
    {
      hide CountsCodes, Histogram, Summary, ValidTable, WithFailure, Counters.Balanced;
      FailureCounted(counters, failure, Clamp(bytesWritten));
      counters := counters.(total := counters.total + 1, failed := counters.failed + 1);
      RecordFailureKind(failure);
      RecordStatusCode(statusCode);
      if bytesWritten > 0 {
        counters := counters.(bytesWritten := counters.bytesWritten + bytesWritten);
      }
      if sampleLatency {
        RecordLatency(Clamp(latency));
      }
    }

    method RecordAssertionFailure()
      requires Valid()
      modifies this`counters
      ensures Valid() && counters == old(counters).(assertionFailures := old(counters).assertionFailures + 1)
    {
      counters := counters.(assertionFailures := counters.assertionFailures + 1);
    }

    /** A verdict that is only counted is not a failed assertion. */
    method RecordScenarioAssertionFailure(kind: AssertionType, countOnly: bool)
      requires Valid()
      modifies this`counters
      ensures Valid()
      ensures counters == if countOnly
                          then WithAssertion(old(counters), kind).(countOnly := old(counters).countOnly + 1)
                          else WithAssertion(old(counters), kind).(
                                 assertionFailures := old(counters).assertionFailures + 1)
    {
      match kind {
        case StatusAssertion => counters := counters.(status := counters.status + 1);
        case HeaderAssertion => counters := counters.(header := counters.header + 1);
        case JSONAssertion => counters := counters.(json := counters.json + 1);
        case ResponseLatencyAssertion => counters := counters.(responseLatency := counters.responseLatency + 1);
        case StepLatencyAssertion => counters := counters.(stepLatency := counters.stepLatency + 1);
        case UnknownAssertion =>
      }
      if countOnly {
        counters := counters.(countOnly := counters.countOnly + 1);
        return;
      }
      RecordAssertionFailure();
    }

    method RecordCaptureFailure()
      requires Valid()
      modifies this`counters
      ensures Valid()
      ensures counters == old(counters).(captureFailures := old(counters).captureFailures + 1,
                                         assertionFailures := old(counters).assertionFailures + 1)
    {
      counters := counters.(captureFailures := counters.captureFailures + 1,
                            assertionFailures := counters.assertionFailures + 1);
    }

    method RecordTemplateFailure()
      requires Valid()
      modifies this`counters
      ensures Valid()
      ensures counters == old(counters).(templateFailures := old(counters).templateFailures + 1,
                                         assertionFailures := old(counters).assertionFailures + 1)
    {
      counters := counters.(templateFailures := counters.templateFailures + 1,
                            assertionFailures := counters.assertionFailures + 1);
    }
  }

  // ----- the snapshot

  /** The latencies recorded in the first n shards, shard after shard. */
  ghost function AllRecorded(shards: seq<StatsShard>, n: nat): seq<nat>
    requires n <= |shards|
    reads shards
  {
    if n == 0 then [] else AllRecorded(shards, n - 1) + shards[n - 1].recorded
  }

  ghost function AllCodes(shards: seq<StatsShard>, n: nat): seq<int>
    requires n <= |shards|
    reads shards
  {
    if n == 0 then [] else AllCodes(shards, n - 1) + shards[n - 1].codes
  }

  function CountersOf(shards: seq<StatsShard>, n: nat): Counters
    requires n <= |shards|
    reads shards
  {
    if n == 0 then NoCounters() else CountersOf(shards, n - 1).Plus(shards[n - 1].counters)
  }

  /** One counter of the first n shards, added up. */
  function Added(shards: seq<StatsShard>, n: nat, counter: Counters -> nat): nat
    requires n <= |shards|
    reads shards
  {
    if n == 0 then 0 else Added(shards, n - 1, counter) + counter(shards[n - 1].counters)
  }

  /** Every counter is the sum of that counter over the first n shards. */
  ghost predicate EachAdded(c: Counters, shards: seq<StatsShard>, n: nat)
    requires n <= |shards|
    reads shards
  {
    && c.total == Added(shards, n, (x: Counters) => x.total)
    && c.success == Added(shards, n, (x: Counters) => x.success)
    && c.failed == Added(shards, n, (x: Counters) => x.failed)
    && c.timeouts == Added(shards, n, (x: Counters) => x.timeouts)
    && c.dns == Added(shards, n, (x: Counters) => x.dns)
    && c.tls == Added(shards, n, (x: Counters) => x.tls)
    && c.refused == Added(shards, n, (x: Counters) => x.refused)
    && c.other == Added(shards, n, (x: Counters) => x.other)
    && c.assertionFailures == Added(shards, n, (x: Counters) => x.assertionFailures)
    && c.captureFailures == Added(shards, n, (x: Counters) => x.captureFailures)
    && c.templateFailures == Added(shards, n, (x: Counters) => x.templateFailures)
    && c.status == Added(shards, n, (x: Counters) => x.status)
    && c.header == Added(shards, n, (x: Counters) => x.header)
    && c.json == Added(shards, n, (x: Counters) => x.json)
    && c.responseLatency == Added(shards, n, (x: Counters) => x.responseLatency)
    && c.stepLatency == Added(shards, n, (x: Counters) => x.stepLatency)
    && c.countOnly == Added(shards, n, (x: Counters) => x.countOnly)
    && c.bytesRead == Added(shards, n, (x: Counters) => x.bytesRead)
    && c.bytesWritten == Added(shards, n, (x: Counters) => x.bytesWritten)
  }

  lemma {:induction false} CountersAreSums(shards: seq<StatsShard>, n: nat)
    requires n <= |shards|
    ensures EachAdded(CountersOf(shards, n), shards, n)
  {
    if n > 0 {
      CountersAreSums(shards, n - 1);
    }
  }

  /** `statusCodes` holds the tracked codes only. */
  datatype Snapshot = Snapshot(counters: Counters, droppedIterations: nat, latencySamples: nat, totalLatency: nat,
                               minLatency: nat, maxLatency: nat, latencyBuckets: seq<nat>, statusCodes: seq<nat>,
                               p95: nat, p99: nat, p999: nat)

  lemma {:induction false} SmallestAppended(a: seq<nat>, b: seq<nat>)
    ensures Smallest(a + b, MAX_UINT64)
         == if Smallest(b, MAX_UINT64) < Smallest(a, MAX_UINT64) then Smallest(b, MAX_UINT64)
            else Smallest(a, MAX_UINT64)
  {
    if b == [] {
      assert a + b == a;
      SmallestBelow(a);
    } else {
      assert (a + b)[..|a + b| - 1] == a + b[..|b| - 1];
      SmallestAppended(a, b[..|b| - 1]);
    }
  }

  lemma {:induction false} SmallestBelow(a: seq<nat>)
    ensures Smallest(a, MAX_UINT64) <= MAX_UINT64
  {
    if a != [] {
      SmallestBelow(a[..|a| - 1]);
    }
  }

  lemma {:induction false} LargestAppended(a: seq<nat>, b: seq<nat>)
    ensures Largest(a + b) == if Largest(b) > Largest(a) then Largest(b) else Largest(a)
  {
    if b == [] {
      assert a + b == a;
    } else {
      assert (a + b)[..|a + b| - 1] == a + b[..|b| - 1];
      LargestAppended(a, b[..|b| - 1]);
    }
  }

  lemma {:induction false} SumAppended(a: seq<nat>, b: seq<nat>)
    ensures Sum(a + b) == Sum(a) + Sum(b)
  {
    if b == [] {
      assert a + b == a;
    } else {
      assert (a + b)[..|a + b| - 1] == a + b[..|b| - 1];
      SumAppended(a, b[..|b| - 1]);
    }
  }

  function Smaller(a: nat, b: nat): nat {
    if b < a then b else a
  }

  function Larger(a: nat, b: nat): nat {
    if b > a then b else a
  }

  lemma MergedSummary(a: seq<nat>, b: seq<nat>, samples: nat, total: nat, min: nat, max: nat,
                      samples': nat, total': nat, min': nat, max': nat)
    requires Summary(a, samples, total, min, max) && Summary(b, samples', total', min', max')
    ensures Summary(a + b, samples + samples', total + total', Smaller(min, min'), Larger(max, max'))
  {
    SumAppended(a, b);
    SmallestAppended(a, b);
    LargestAppended(a, b);
  }

  /** Every bucket gets the count of the shard added. */
  method AddBuckets(t: seq<nat>, into: array<nat>, from: array<nat>, ghost a: seq<nat>, ghost b: seq<nat>)
    requires into != from && Histogram(t, a, into[..]) && Histogram(t, b, from[..])
    modifies into
    ensures Histogram(t, a + b, into[..])
  {
    ghost var left, right := into[..], from[..];
    for i := 0 to into.Length
      invariant forall j | 0 <= j < i :: into[j] == left[j] + right[j]
      invariant forall j | i <= j < into.Length :: into[j] == left[j]
    {
      into[i] := into[i] + from[i];
    }
    MergedHistogram(t, a, b, left, right, into[..]);
  }

  method AddCodes(into: array<nat>, from: array<nat>, ghost a: seq<int>, ghost b: seq<int>)
    requires into != from && CountsCodes(a, into[..]) && CountsCodes(b, from[..])
    modifies into
    ensures CountsCodes(a + b, into[..])
  {
    ghost var left, right := into[..], from[..];
    for i := 0 to into.Length
      invariant forall j | 0 <= j < i :: into[j] == left[j] + right[j]
      invariant forall j | i <= j < into.Length :: into[j] == left[j]
    {
      into[i] := into[i] + from[i];
    }
    CodesMerged(a, b, left, right, into[..]);
  }

  ghost predicate ShardsValid(shards: seq<StatsShard>, t: seq<nat>)
    reads shards, set s | s in shards :: s.latencyBuckets, set s | s in shards :: s.statusCodes
  {
    ValidTable(t) && forall s | s in shards :: s.Valid() && s.table == t
  }

  /** A snapshot is what a single shard would show had it recorded
      everything. */
  ghost predicate Shows(s: Snapshot, t: seq<nat>, recorded: seq<nat>, codes: seq<int>) {
    && Histogram(t, recorded, s.latencyBuckets) && CountsCodes(codes, s.statusCodes)
    && InRange(recorded) && s.latencySamples == |recorded| && s.totalLatency == Sum(recorded)
    && s.minLatency == (if Smallest(recorded, MAX_UINT64) == MAX_UINT64 then 0 else Smallest(recorded, MAX_UINT64))
    && s.maxLatency == Largest(recorded)
    && s.counters.Balanced() && s.counters.total == |codes| && s.latencySamples <= s.counters.total
  }

  method Percentile(t: seq<nat>, counts: seq<nat>, samples: nat, percentile: real, ghost recorded: seq<nat>)
    returns (bound: nat)
    requires ValidTable(t) && Histogram(t, recorded, counts) && InRange(recorded) && samples == |recorded|
    requires 0.0 <= percentile <= 1.0
    ensures ReportsPercentile(t, recorded, percentile, bound)
  {
    bound := PercentileLatency(t, counts, samples, percentile);
    PercentileIsExactToBucket(t, recorded, counts, percentile, bound);
  }

  /** The buckets of the first n shards added up. */
  method MergeBuckets(shards: seq<StatsShard>, t: seq<nat>) returns (buckets: seq<nat>)
    requires ShardsValid(shards, t)
    ensures Histogram(t, AllRecorded(shards, |shards|), buckets)
  {
    var sums := new nat[|t|](_ => 0);
    EmptyHistogram(t, sums[..]);
    for n := 0 to |shards|
      invariant Histogram(t, AllRecorded(shards, n), sums[..])
    {
      assert shards[n] in shards && shards[n].Valid();
      AddBuckets(t, sums, shards[n].latencyBuckets, AllRecorded(shards, n), shards[n].recorded);
    }
    return sums[..];
  }

  method MergeCodes(shards: seq<StatsShard>, t: seq<nat>) returns (codes: seq<nat>)
    requires ShardsValid(shards, t)
    ensures CountsCodes(AllCodes(shards, |shards|), codes)
  {
    var sums := new nat[TRACKED_STATUSES](_ => 0);
    for n := 0 to |shards|
      invariant CountsCodes(AllCodes(shards, n), sums[..])
    {
      assert shards[n] in shards && shards[n].Valid();
      AddCodes(sums, shards[n].statusCodes, AllCodes(shards, n), shards[n].codes);
    }
    return sums[..];
  }

  lemma NoneBalanced()
    ensures NoCounters().Balanced() && NoCounters().total == 0
  {
  }

  lemma PlusBalanced(a: Counters, b: Counters)
    requires a.Balanced() && b.Balanced()
    ensures a.Plus(b).Balanced() && a.Plus(b).total == a.total + b.total
  {
  }

  method MergeCounters(shards: seq<StatsShard>, t: seq<nat>) returns (counters: Counters)
    requires ShardsValid(shards, t)
    ensures counters == CountersOf(shards, |shards|) && counters.Balanced()
    ensures counters.total == |AllCodes(shards, |shards|)|
  {
    hide Counters.Plus, Counters.Balanced, NoCounters;
    NoneBalanced();
    counters := NoCounters();
    for n := 0 to |shards|
      invariant counters == CountersOf(shards, n) && counters.Balanced()
      invariant counters.total == |AllCodes(shards, n)|
    {
      assert shards[n] in shards && shards[n].Valid();
      PlusBalanced(counters, shards[n].counters);
      counters := counters.Plus(shards[n].counters);
    }
  }

  /** The number and the sum of all latencies, and their extremes. */
  method MergeLatencies(shards: seq<StatsShard>, t: seq<nat>) returns (samples: nat, total: nat, min: nat, max: nat)
    requires ShardsValid(shards, t)
    ensures Summary(AllRecorded(shards, |shards|), samples, total, min, max)
  {
    samples, total, min, max := 0, 0, MAX_UINT64, 0;
    for n := 0 to |shards|
      invariant Summary(AllRecorded(shards, n), samples, total, min, max)
    {
      var shard := shards[n];
      assert shard in shards && shard.Valid();
      MergedSummary(AllRecorded(shards, n), shard.recorded, samples, total, min, max,
                    shard.latencySamples, shard.totalLatency, shard.minLatency, shard.maxLatency);
      samples := samples + shard.latencySamples;
      total := total + shard.totalLatency;
      min := Smaller(min, shard.minLatency);
      max := Larger(max, shard.maxLatency);
    }
  }

  /** No shard has more latencies than requests. */
  lemma {:induction false} SamplesWithinRequests(shards: seq<StatsShard>, t: seq<nat>, n: nat)
    requires ShardsValid(shards, t) && n <= |shards|
    ensures |AllRecorded(shards, n)| <= |AllCodes(shards, n)|
  {
    if n > 0 {
      SamplesWithinRequests(shards, t, n - 1);
      assert shards[n - 1] in shards && shards[n - 1].Valid();
    }
  }

  function Presented(min: nat): nat {
    if min == MAX_UINT64 then 0 else min
  }

  lemma ShowsMerged(s: Snapshot, t: seq<nat>, recorded: seq<nat>, codes: seq<int>, min: nat)
    requires Histogram(t, recorded, s.latencyBuckets) && CountsCodes(codes, s.statusCodes)
    requires Summary(recorded, s.latencySamples, s.totalLatency, min, s.maxLatency) && s.minLatency == Presented(min)
    requires s.counters.Balanced() && s.counters.total == |codes| && |recorded| <= |codes|
    ensures Shows(s, t, recorded, codes)
  {
  }

  lemma SummaryFacts(recorded: seq<nat>, samples: nat, total: nat, min: nat, max: nat)
    requires Summary(recorded, samples, total, min, max)
    ensures InRange(recorded) && samples == |recorded|
  {
  }

  method TakeSnapshot(shards: seq<StatsShard>, t: seq<nat>, droppedIterations: nat) returns (snapshot: Snapshot)
    requires ShardsValid(shards, t)
    ensures Shows(snapshot, t, AllRecorded(shards, |shards|), AllCodes(shards, |shards|))
    ensures EachAdded(snapshot.counters, shards, |shards|) && snapshot.droppedIterations == droppedIterations
    ensures ReportsPercentile(t, AllRecorded(shards, |shards|), 0.95, snapshot.p95)
    ensures ReportsPercentile(t, AllRecorded(shards, |shards|), 0.99, snapshot.p99)
    ensures ReportsPercentile(t, AllRecorded(shards, |shards|), 0.999, snapshot.p999)
  {
    hide Counters.Balanced, CountsCodes, Histogram, ReportsPercentile, CountersOf, EachAdded, Summary, Shows,
         AllRecorded, AllCodes, ValidTable, InRange, Presented;
    ghost var recorded, recordedCodes := AllRecorded(shards, |shards|), AllCodes(shards, |shards|);
    var buckets := MergeBuckets(shards, t);
    var codes := MergeCodes(shards, t);
    var counters := MergeCounters(shards, t);
    CountersAreSums(shards, |shards|);
    var samples, total, min, max := MergeLatencies(shards, t);
    SamplesWithinRequests(shards, t, |shards|);
    SummaryFacts(recorded, samples, total, min, max);
    var p95 := Percentile(t, buckets, samples, 0.95, recorded);
    var p99 := Percentile(t, buckets, samples, 0.99, recorded);
    var p999 := Percentile(t, buckets, samples, 0.999, recorded);
    snapshot := Snapshot(counters, droppedIterations, samples, total, Presented(min), max, buckets, codes, p95, p99,
                           p999);
    ShowsMerged(snapshot, t, recorded, recordedCodes, min);
  }
}
