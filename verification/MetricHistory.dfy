/** The bounded metric history of the front end against the full list of
    points: buckets are merged until they fit, and keep the extremes. */
module MetricHistory {

  const MAX_BUCKET_CANDIDATES: nat := 8

  /** Points are objects: two with the same readings differ in identity. */
  datatype Point = Point(identity: nat, timestamp: int, rps: real, total: nat, failed: nat, p95: real, p99: real)

  datatype Bucket = Bucket(key: int, first: Point, last: Point, minRps: Point, maxRps: Point,
                           minP95: Point, maxP95: Point, minP99: Point, maxP99: Point)

  datatype Cutoff = Unbounded | From(timestamp: int)

  predicate Retained(p: Point, cutoff: Cutoff) {
    cutoff.From? ==> p.timestamp >= cutoff.timestamp
  }

  function Held(b: Bucket): seq<Point> {
    [b.first, b.minRps, b.maxRps, b.minP95, b.maxP95, b.minP99, b.maxP99, b.last]
  }

  // ----- what the buckets say about a set of points

  /** How points are told apart by buckets. */
  type Grouping = Point -> int

  function Power(n: nat): (r: nat)
    ensures r >= 1
  {
    if n == 0 then 1 else 2 * Power(n - 1)
  }

  /** The largest number below infinity: 53 binary ones, then 971 zeros. */
  function MaxNumber(): (r: nat)
    ensures r >= 1
  {
    PositiveProduct(Power(971), 2 * Power(52) - 1);
    Power(971) * (2 * Power(52) - 1)
  }

  lemma PositiveProduct(a: nat, b: nat)
    requires a >= 1 && b >= 1
    ensures a * b >= 1
  {
  }

  /** Widths are floating-point numbers: doubled often enough they are
      infinite. */
  datatype Width = Finite(size: int) | Infinite

  predicate Proper(width: Width) {
    width.Finite? ==> 0 < width.size <= MaxNumber()
  }

  function WidthOf(size: int): Width {
    if size <= MaxNumber() then Finite(size) else Infinite
  }

  function Doubled(width: Width): Width {
    if width.Finite? then WidthOf(2 * width.size) else Infinite
  }

  /** A finite time divided by infinity is zero, of either sign. */
  function KeyAt(timestamp: int, width: Width): int
    requires Proper(width)
  {
    if width.Finite? then timestamp / width.size else 0
  }

  function ByWidth(width: Width): Grouping
    requires Proper(width)
  {
    (p: Point) => KeyAt(p.timestamp, width)
  }

  predicate InGroup(p: Point, group: Grouping, key: int) {
    group(p) == key
  }

  predicate Bounds(b: Bucket, p: Point) {
    && b.first.timestamp <= p.timestamp <= b.last.timestamp
    && b.minRps.rps <= p.rps <= b.maxRps.rps
    && b.minP95.p95 <= p.p95 <= b.maxP95.p95
    && b.minP99.p99 <= p.p99 <= b.maxP99.p99
  }

  predicate Member(p: Point, points: set<Point>, group: Grouping, key: int) {
    p in points && InGroup(p, group, key)
  }

  predicate HoldsOnly(b: Bucket, points: set<Point>, group: Grouping) {
    && Member(b.first, points, group, b.key) && Member(b.last, points, group, b.key)
    && Member(b.minRps, points, group, b.key) && Member(b.maxRps, points, group, b.key)
    && Member(b.minP95, points, group, b.key) && Member(b.maxP95, points, group, b.key)
    && Member(b.minP99, points, group, b.key) && Member(b.maxP99, points, group, b.key)
  }

  /** Buckets in order of their keys, each holding points of its group. */
  ghost predicate Structured(buckets: seq<Bucket>, points: set<Point>, group: Grouping) {
    && (forall i, j | 0 <= i < j < |buckets| :: buckets[i].key < buckets[j].key)
    && (forall i {:trigger HoldsOnly(buckets[i], points, group)} | 0 <= i < |buckets| ::
          HoldsOnly(buckets[i], points, group))
  }

  ghost predicate CoveredBy(buckets: seq<Bucket>, p: Point, group: Grouping) {
    exists i :: 0 <= i < |buckets| && InGroup(p, group, buckets[i].key) && Bounds(buckets[i], p)
  }

  ghost predicate AllCovered(buckets: seq<Bucket>, points: set<Point>, group: Grouping) {
    forall p {:trigger CoveredBy(buckets, p, group)} | p in points :: CoveredBy(buckets, p, group)
  }

  ghost predicate HasBucket(buckets: seq<Bucket>, key: int) {
    exists i :: 0 <= i < |buckets| && buckets[i].key == key
  }

  ghost predicate HasPoint(points: set<Point>, group: Grouping, key: int) {
    exists p :: Member(p, points, group, key)
  }

  /** The bucket holds the extreme values of its group. */
  ghost predicate Extremes(b: Bucket, points: set<Point>, group: Grouping) {
    HoldsOnly(b, points, group) && forall p | Member(p, points, group, b.key) :: Bounds(b, p)
  }

  /** The buckets are exactly the groups of the points, each with the extreme
      values of its group. */
  lemma BucketsAreGroups(buckets: seq<Bucket>, points: set<Point>, group: Grouping)
    requires Structured(buckets, points, group) && AllCovered(buckets, points, group)
    ensures forall key {:trigger HasBucket(buckets, key)} {:trigger HasPoint(points, group, key)} ::
              HasBucket(buckets, key) <==> HasPoint(points, group, key)
    ensures forall i | 0 <= i < |buckets| :: Extremes(buckets[i], points, group)
  {
    forall key {:trigger HasBucket(buckets, key)}
      ensures HasBucket(buckets, key) <==> HasPoint(points, group, key)
    {
      if i :| 0 <= i < |buckets| && buckets[i].key == key {
        assert HoldsOnly(buckets[i], points, group);
        assert Member(buckets[i].first, points, group, key);
      }
      if p :| Member(p, points, group, key) {
        assert CoveredBy(buckets, p, group);
      }
    }
    forall i, p | 0 <= i < |buckets| && Member(p, points, group, buckets[i].key)
      ensures Bounds(buckets[i], p)
    {
      assert CoveredBy(buckets, p, group);
      var j :| 0 <= j < |buckets| && InGroup(p, group, buckets[j].key) && Bounds(buckets[j], p);
      assert i == j;
    }
  }

  // ----- one bucket

  function CreateBucket(key: int, p: Point): Bucket {
    Bucket(key, p, p, p, p, p, p, p, p)
  }

  function UpdateBucket(b: Bucket, p: Point): (r: Bucket)
    ensures r.key == b.key && Bounds(r, p)
    ensures forall q | Bounds(b, q) :: Bounds(r, q)
  {
    Bucket(b.key,
           if p.timestamp < b.first.timestamp then p else b.first,
           if p.timestamp >= b.last.timestamp then p else b.last,
           if p.rps < b.minRps.rps then p else b.minRps,
           if p.rps > b.maxRps.rps then p else b.maxRps,
           if p.p95 < b.minP95.p95 then p else b.minP95,
           if p.p95 > b.maxP95.p95 then p else b.maxP95,
           if p.p99 < b.minP99.p99 then p else b.minP99,
           if p.p99 > b.maxP99.p99 then p else b.maxP99)
  }

  lemma UpdatedHolds(b: Bucket, points: set<Point>, group: Grouping, p: Point)
    requires HoldsOnly(b, points, group) && InGroup(p, group, b.key)
    ensures HoldsOnly(UpdateBucket(b, p), points + {p}, group)
  {
  }

  lemma MorePoints(buckets: seq<Bucket>, points: set<Point>, more: set<Point>, group: Grouping)
    requires Structured(buckets, points, group) && points <= more
    ensures Structured(buckets, more, group)
  {
    forall i | 0 <= i < |buckets|
      ensures HoldsOnly(buckets[i], more, group)
    {
      assert HoldsOnly(buckets[i], points, group);
    }
  }

  lemma AfterUpdate(buckets: seq<Bucket>, points: set<Point>, group: Grouping, i: nat, p: Point)
    requires Structured(buckets, points, group) && i < |buckets| && InGroup(p, group, buckets[i].key)
    ensures Structured(buckets[i := UpdateBucket(buckets[i], p)], points + {p}, group)
    ensures AllCovered(buckets, points, group) ==>
              AllCovered(buckets[i := UpdateBucket(buckets[i], p)], points + {p}, group)
  {
    var r := buckets[i := UpdateBucket(buckets[i], p)];
    MorePoints(buckets, points, points + {p}, group);
    UpdatedHolds(buckets[i], points, group, p);
    if AllCovered(buckets, points, group) {
      forall q | q in points + {p}
        ensures CoveredBy(r, q, group)
      {
        if q in points {
          assert CoveredBy(buckets, q, group);
          var j :| 0 <= j < |buckets| && InGroup(q, group, buckets[j].key) && Bounds(buckets[j], q);
          assert InGroup(q, group, r[j].key) && Bounds(r[j], q);
        } else {
          assert InGroup(p, group, r[i].key) && Bounds(r[i], p);
        }
      }
    }
  }

  function Inserted(buckets: seq<Bucket>, at: nat, b: Bucket): (r: seq<Bucket>)
    requires at <= |buckets|
    ensures |r| == |buckets| + 1 && r[at] == b
    ensures forall i | 0 <= i < at :: r[i] == buckets[i]
    ensures forall i {:trigger r[i + 1]} {:trigger buckets[i]} | at <= i < |buckets| :: r[i + 1] == buckets[i]
  {
    buckets[..at] + [b] + buckets[at..]
  }

  lemma InsertedStructured(buckets: seq<Bucket>, points: set<Point>, group: Grouping, at: nat, p: Point, b: Bucket)
    requires Structured(buckets, points, group) && at <= |buckets| && b == CreateBucket(group(p), p)
    requires forall j | 0 <= j < at :: buckets[j].key < b.key
    requires forall j | at <= j < |buckets| :: b.key < buckets[j].key
    ensures Structured(Inserted(buckets, at, b), points + {p}, group)
  {
    var r := Inserted(buckets, at, b);
    MorePoints(buckets, points, points + {p}, group);
    assert HoldsOnly(b, points + {p}, group);
    forall i | 0 <= i < |r|
      ensures HoldsOnly(r[i], points + {p}, group)
      ensures i < at ==> r[i].key < b.key
      ensures i > at ==> b.key < r[i].key
    {
      if i > at {
        assert r[(i - 1) + 1] == buckets[i - 1];
        assert HoldsOnly(buckets[i - 1], points + {p}, group);
      } else if i < at {
        assert HoldsOnly(buckets[i], points + {p}, group);
      }
    }
    forall i, j | 0 <= i < j < |r|
      ensures r[i].key < r[j].key
    {
      if at < i {
        assert r[(i - 1) + 1] == buckets[i - 1] && r[(j - 1) + 1] == buckets[j - 1];
      }
    }
  }

  lemma InsertedCovers(buckets: seq<Bucket>, points: set<Point>, group: Grouping, at: nat, p: Point, b: Bucket)
    requires AllCovered(buckets, points, group) && at <= |buckets| && b == CreateBucket(group(p), p)
    ensures AllCovered(Inserted(buckets, at, b), points + {p}, group)
  {
    var r := Inserted(buckets, at, b);
    forall q | q in points + {p}
      ensures CoveredBy(r, q, group)
    {
      if q in points {
        assert CoveredBy(buckets, q, group);
        var j :| 0 <= j < |buckets| && InGroup(q, group, buckets[j].key) && Bounds(buckets[j], q);
        var k := if j < at then j else j + 1;
        assert r[k] == buckets[j];
      } else {
        assert r[at] == b && InGroup(p, group, b.key) && Bounds(b, p);
      }
    }
  }

  // ----- candidates

  predicate TimeOrdered(s: seq<Point>) {
    forall i, j | 0 <= i < j < |s| :: s[i].timestamp <= s[j].timestamp
  }

  /** A stable sort puts a later point behind the earlier ones of its time. */
  function InsertByTime(s: seq<Point>, p: Point): (r: seq<Point>)
    requires TimeOrdered(s)
    ensures TimeOrdered(r) && |r| == |s| + 1 && forall q :: q in r <==> q in s || q == p
  {
    if s == [] || s[|s| - 1].timestamp <= p.timestamp then s + [p]
    else
      var last := s[|s| - 1];
      var rest := InsertByTime(s[..|s| - 1], p);
      assert s == s[..|s| - 1] + [last];
      assert forall q | q in rest :: q.timestamp <= last.timestamp;
      rest + [last]
  }

  ghost predicate IsCandidate(buckets: seq<Bucket>, n: nat, cutoff: Cutoff, p: Point)
    requires n <= |buckets|
  {
    Retained(p, cutoff) && exists i :: 0 <= i < n && p in Held(buckets[i])
  }

  /** The distinct points of one bucket. */
  method BucketPoints(b: Bucket) returns (r: seq<Point>)
    ensures |r| <= MAX_BUCKET_CANDIDATES && forall p :: p in r <==> p in Held(b)
  {
    r := [];
    var held := Held(b);
    for k := 0 to |held|
      invariant |r| <= k && forall p :: p in r <==> p in held[..k]
    {
      assert held[..k + 1] == held[..k] + [held[k]];
      if held[k] !in r {
        r := r + [held[k]];
      }
    }
    assert held[..|held|] == held;
  }

  method CandidateValues(buckets: seq<Bucket>, cutoff: Cutoff) returns (r: seq<Point>)
    ensures TimeOrdered(r) && |r| <= MAX_BUCKET_CANDIDATES * |buckets|
    ensures forall p :: p in r <==> IsCandidate(buckets, |buckets|, cutoff, p)
  {
    r := [];
    for i := 0 to |buckets|
      invariant TimeOrdered(r) && |r| <= MAX_BUCKET_CANDIDATES * i
      invariant forall p :: p in r <==> IsCandidate(buckets, i, cutoff, p)
    {
      var points := BucketPoints(buckets[i]);
      ghost var before := r;
      for k := 0 to |points|
        invariant TimeOrdered(r) && |r| <= |before| + k
        invariant forall p :: p in r <==> p in before || (p in points[..k] && Retained(p, cutoff))
      {
        assert points[..k + 1] == points[..k] + [points[k]];
        if Retained(points[k], cutoff) {
          r := InsertByTime(r, points[k]);
        }
      }
      assert points[..|points|] == points;
    }
  }

  // ----- widening

  lemma WiderGroup(t: int, width: int)
    requires width > 0
    ensures t / (2 * width) == (t / width) / 2
  {
    var key := t / width;
    var rest := t - width * key;
    assert 0 <= rest < width;
    var half := key / 2;
    assert t == 2 * width * half + (width * (key - 2 * half) + rest);
    assert 0 <= width * (key - 2 * half) + rest < 2 * width by {
      assert key - 2 * half == 0 || key - 2 * half == 1;
    }
    SameQuotient(2 * width, half, t / (2 * width), width * (key - 2 * half) + rest, t % (2 * width));
  }

  lemma {:induction false} Scale(width: int, a: int, b: int)
    requires 0 < width && a < b
    ensures width * a + width <= width * b
    decreases b - a
  {
    assert width * b == width * (b - 1) + width;
    if a < b - 1 {
      Scale(width, a, b - 1);
    }
  }

  lemma SameQuotient(width: int, a: int, b: int, r: int, s: int)
    requires 0 <= r < width && 0 <= s < width && width * a + r == width * b + s
    ensures a == b
  {
    if a > b {
      Scale(width, b, a);
    } else if a < b {
      Scale(width, a, b);
    }
  }

  /** The second grouping only merges groups of the first. */
  ghost predicate Coarser(group: Grouping, wide: Grouping) {
    forall p, q | group(p) == group(q) :: wide(p) == wide(q)
  }

  lemma DoubleIsCoarser(width: Width)
    requires Proper(width)
    ensures Proper(Doubled(width)) && Coarser(ByWidth(width), ByWidth(Doubled(width)))
  {
    hide MaxNumber;
    forall p, q | ByWidth(width)(p) == ByWidth(width)(q)
      ensures ByWidth(Doubled(width))(p) == ByWidth(Doubled(width))(q)
    {
      if Doubled(width).Finite? {
        WiderGroup(p.timestamp, width.size);
        WiderGroup(q.timestamp, width.size);
      }
    }
  }

  /** What a bucket holds stays together with the points of its group. */
  lemma HeldRegrouped(buckets: seq<Bucket>, i: nat, points: set<Point>, candidates: set<Point>,
                      group: Grouping, wide: Grouping, p: Point)
    requires i < |buckets| && Coarser(group, wide) && HoldsOnly(buckets[i], points, group)
    requires forall q :: q in candidates <==> IsCandidate(buckets, |buckets|, Unbounded, q)
    requires InGroup(p, group, buckets[i].key)
    ensures HoldsOnly(buckets[i].(key := wide(p)), candidates, wide)
  {
    var b := buckets[i];
    HeldMembers(b);
    forall q | q in Held(b) && InGroup(q, group, b.key)
      ensures Member(q, candidates, wide, wide(p))
    {
      assert IsCandidate(buckets, |buckets|, Unbounded, q);
    }
  }

  /** The wider bucket of a point has the extremes of the candidates, and so
      those of the bucket that stands for the point. */
  lemma CandidateCovers(buckets: seq<Bucket>, wider: seq<Bucket>, points: set<Point>, candidates: set<Point>,
                        group: Grouping, wide: Grouping, p: Point, i: nat, j: nat)
    requires i < |buckets| && InGroup(p, group, buckets[i].key) && Bounds(buckets[i], p)
    requires HoldsOnly(buckets[i].(key := wide(p)), candidates, wide)
    requires j < |wider| && wider[j].key == wide(p) && Extremes(wider[j], candidates, wide)
    ensures InGroup(p, wide, wider[j].key) && Bounds(wider[j], p)
  {
    var b := buckets[i];
    assert Bounds(wider[j], b.first) && Bounds(wider[j], b.last);
    assert Bounds(wider[j], b.minRps) && Bounds(wider[j], b.maxRps);
    assert Bounds(wider[j], b.minP95) && Bounds(wider[j], b.maxP95);
    assert Bounds(wider[j], b.minP99) && Bounds(wider[j], b.maxP99);
  }

  /** The candidates stand for all points: buckets of a coarser grouping that
      cover them cover everything. */
  lemma CandidatesSuffice(buckets: seq<Bucket>, wider: seq<Bucket>, points: set<Point>, candidates: set<Point>,
                          group: Grouping, wide: Grouping)
    requires Coarser(group, wide)
    requires Structured(buckets, points, group) && AllCovered(buckets, points, group)
    requires forall p :: p in candidates <==> IsCandidate(buckets, |buckets|, Unbounded, p)
    requires Structured(wider, candidates, wide) && AllCovered(wider, candidates, wide)
    ensures AllCovered(wider, points, wide)
  {
    hide Bounds, InGroup, Coarser, Extremes, IsCandidate;
    BucketsAreGroups(wider, candidates, wide);
    forall p | p in points
      ensures CoveredBy(wider, p, wide)
    {
      assert CoveredBy(buckets, p, group);
      var i :| 0 <= i < |buckets| && InGroup(p, group, buckets[i].key) && Bounds(buckets[i], p);
      assert HoldsOnly(buckets[i], points, group);
      HeldRegrouped(buckets, i, points, candidates, group, wide, p);
      assert HasPoint(candidates, wide, wide(p)) by {
        assert Member(buckets[i].(key := wide(p)).first, candidates, wide, wide(p));
      }
      assert HasBucket(wider, wide(p));
      var j :| 0 <= j < |wider| && wider[j].key == wide(p);
      CandidateCovers(buckets, wider, points, candidates, group, wide, p, i, j);
    }
  }

  lemma HeldMembers(b: Bucket)
    ensures b.first in Held(b) && b.last in Held(b) && b.minRps in Held(b) && b.maxRps in Held(b)
    ensures b.minP95 in Held(b) && b.maxP95 in Held(b) && b.minP99 in Held(b) && b.maxP99 in Held(b)
  {
    assert Held(b)[0] == b.first && Held(b)[1] == b.minRps && Held(b)[2] == b.maxRps && Held(b)[3] == b.minP95;
    assert Held(b)[4] == b.maxP95 && Held(b)[5] == b.minP99 && Held(b)[6] == b.maxP99 && Held(b)[7] == b.last;
  }
}
