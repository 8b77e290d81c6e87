/** The history object: points are added, old ones pruned, and buckets merged
    two by two while there are too many of them. */
module BoundedHistory {
  import opened MetricHistory

  function Max(a: int, b: int): int {
    if a > b then a else b
  }

  function CeilDivide(a: int, b: int): int
    requires b > 0
  {
    (a + b - 1) / b
  }

  lemma {:induction false} KeysSpread(buckets: seq<Bucket>, points: set<Point>, group: Grouping, i: nat)
    requires Structured(buckets, points, group) && i < |buckets|
    ensures buckets[i].key >= buckets[0].key + i
  {
    if i > 0 {
      KeysSpread(buckets, points, group, i - 1);
    }
  }

  // ----- wide buckets

  /** How far the width can still grow. */
  function Room(width: Width): int {
    if width.Finite? then MaxNumber() + 1 - width.size else 0
  }

  predicate SameSign(b: Bucket, c: Bucket) {
    b.first.timestamp < 0 <==> c.first.timestamp < 0
  }

  /** No bucket of negative times beside another one. */
  predicate OneSign(buckets: seq<Bucket>) {
    forall i, j | 0 <= i < |buckets| && 0 <= j < |buckets| :: SameSign(buckets[i], buckets[j])
  }

  /** With an infinite width all points share a bucket. */
  lemma InfiniteIsOne(buckets: seq<Bucket>, points: set<Point>)
    requires Structured(buckets, points, ByWidth(Infinite))
    ensures |buckets| <= 1
  {
    forall i | 0 <= i < |buckets|
      ensures buckets[i].key == 0
    {
      assert HoldsOnly(buckets[i], points, ByWidth(Infinite));
    }
    if buckets != [] {
      KeysSpread(buckets, points, ByWidth(Infinite), |buckets| - 1);
    }
  }

  predicate Near(points: set<Point>, bound: int) {
    forall p | p in points :: -bound <= p.timestamp < bound
  }

  lemma NearKey(t: int, size: int)
    requires size > 0 && -size <= t < size
    ensures t / size == if t < 0 then -1 else 0
  {
  }

  /** Buckets wider than all times are at most two, and one if the signs are
      the same. */
  lemma FewWhenNear(buckets: seq<Bucket>, points: set<Point>, size: int)
    requires 0 < size <= MaxNumber() && Near(points, size)
    requires Structured(buckets, points, ByWidth(Finite(size)))
    ensures |buckets| <= 2
    ensures OneSign(buckets) ==> |buckets| <= 1
  {
    hide MaxNumber;
    if |buckets| >= 2 {
      var group, last := ByWidth(Finite(size)), |buckets| - 1;
      KeysSpread(buckets, points, group, last);
      assert HoldsOnly(buckets[0], points, group) && HoldsOnly(buckets[last], points, group);
      NearKey(buckets[0].first.timestamp, size);
      NearKey(buckets[last].first.timestamp, size);
      assert !SameSign(buckets[0], buckets[last]);
    }
  }

  lemma KeySign(t: int, size: int)
    requires size > 0
    ensures t / size < 0 <==> t < 0
  {
  }

  // ----- one rebuild

  ghost predicate AreCandidates(buckets: seq<Bucket>, cutoff: Cutoff, candidates: set<Point>) {
    forall p :: p in candidates <==> IsCandidate(buckets, |buckets|, cutoff, p)
  }

  /** The buckets of this width are those of the retained values of the
      buckets before. */
  ghost predicate RebuiltFrom(before: seq<Bucket>, after: seq<Bucket>, width: Width, cutoff: Cutoff,
                              candidates: set<Point>)
    requires Proper(width)
  {
    && AreCandidates(before, cutoff, candidates)
    && Structured(after, candidates, ByWidth(width)) && AllCovered(after, candidates, ByWidth(width))
  }

  ghost predicate Rebuilt(before: seq<Bucket>, after: seq<Bucket>, width: Width, cutoff: Cutoff)
    requires Proper(width)
  {
    exists candidates :: RebuiltFrom(before, after, width, cutoff, candidates)
  }

  /** All points of a bucket of finite width have the same sign. */
  lemma BucketSign(b: Bucket, points: set<Point>, size: int, p: Point)
    requires 0 < size <= MaxNumber() && HoldsOnly(b, points, ByWidth(Finite(size)))
    requires InGroup(p, ByWidth(Finite(size)), b.key)
    ensures p.timestamp < 0 <==> b.first.timestamp < 0
    ensures b.last.timestamp < 0 <==> b.first.timestamp < 0
  {
    KeySign(p.timestamp, size);
    KeySign(b.first.timestamp, size);
    KeySign(b.last.timestamp, size);
  }

  /** The first value of a rebuilt bucket comes from a bucket of its sign. */
  lemma SignComesFrom(before: seq<Bucket>, after: seq<Bucket>, points: set<Point>, size: int, cutoff: Cutoff, i: nat)
    returns (j: nat)
    requires 0 < size <= MaxNumber() && Structured(before, points, ByWidth(Finite(size)))
    requires Rebuilt(before, after, Doubled(Finite(size)), cutoff) && i < |after|
    ensures j < |before| && SameSign(after[i], before[j])
  {
    var wide := Doubled(Finite(size));
    var candidates :| RebuiltFrom(before, after, wide, cutoff, candidates);
    assert HoldsOnly(after[i], candidates, ByWidth(wide));
    j := CandidateGroup(before, points, ByWidth(Finite(size)), cutoff, after[i].first);
    assert HoldsOnly(before[j], points, ByWidth(Finite(size)));
    BucketSign(before[j], points, size, after[i].first);
  }

  lemma SignsStayOne(before: seq<Bucket>, after: seq<Bucket>, points: set<Point>, size: int, cutoff: Cutoff)
    requires 0 < size <= MaxNumber() && Structured(before, points, ByWidth(Finite(size)))
    requires Rebuilt(before, after, Doubled(Finite(size)), cutoff) && OneSign(before)
    ensures OneSign(after)
  {
    forall i, j | 0 <= i < |after| && 0 <= j < |after|
      ensures SameSign(after[i], after[j])
    {
      var k := SignComesFrom(before, after, points, size, cutoff, i);
      var l := SignComesFrom(before, after, points, size, cutoff, j);
      assert SameSign(before[k], before[l]);
    }
  }

  // ----- signs that mix

  /** A bucket of negative times and another one, with values not cut off. */
  predicate Mixes(buckets: seq<Bucket>, cutoff: Cutoff) {
    exists i, j :: 0 <= i < |buckets| && 0 <= j < |buckets| && MixedAt(buckets, cutoff, i, j)
  }

  predicate MixedAt(buckets: seq<Bucket>, cutoff: Cutoff, i: nat, j: nat)
    requires i < |buckets| && j < |buckets|
  {
    && buckets[i].first.timestamp < 0 <= buckets[j].first.timestamp
    && Retained(buckets[i].last, cutoff) && Retained(buckets[j].last, cutoff)
  }

  /** The last value of a bucket is in a rebuilt bucket of its sign, which is
      not cut off either. */
  lemma SignSurvives(before: seq<Bucket>, after: seq<Bucket>, points: set<Point>, size: int, cutoff: Cutoff, i: nat)
    returns (k: nat)
    requires 0 < size && 2 * size <= MaxNumber() && Structured(before, points, ByWidth(Finite(size)))
    requires Rebuilt(before, after, Finite(2 * size), cutoff)
    requires i < |before| && Retained(before[i].last, cutoff)
    ensures k < |after| && SameSign(after[k], before[i]) && Retained(after[k].last, cutoff)
  {
    hide MaxNumber;
    var wide := Finite(2 * size);
    var candidates :| RebuiltFrom(before, after, wide, cutoff, candidates);
    var p := before[i].last;
    HeldMembers(before[i]);
    assert IsCandidate(before, |before|, cutoff, p);
    assert CoveredBy(after, p, ByWidth(wide));
    k :| 0 <= k < |after| && InGroup(p, ByWidth(wide), after[k].key) && Bounds(after[k], p);
    assert HoldsOnly(before[i], points, ByWidth(Finite(size))) && HoldsOnly(after[k], candidates, ByWidth(wide));
    BucketSign(before[i], points, size, p);
    BucketSign(after[k], candidates, 2 * size, p);
  }

  /** As long as the width is finite, signs that mix keep two buckets apart. */
  lemma MixesStill(before: seq<Bucket>, after: seq<Bucket>, points: set<Point>, width: Width, cutoff: Cutoff)
    requires Proper(width) && Structured(before, points, ByWidth(width)) && Doubled(width).Finite?
    requires Rebuilt(before, after, Doubled(width), cutoff) && Mixes(before, cutoff)
    ensures Mixes(after, cutoff) && |after| >= 2
  {
    var i, j :| 0 <= i < |before| && 0 <= j < |before| && MixedAt(before, cutoff, i, j);
    var k := SignSurvives(before, after, points, width.size, cutoff, i);
    var l := SignSurvives(before, after, points, width.size, cutoff, j);
    assert MixedAt(after, cutoff, k, l);
  }

  /** The point has the sign of whatever is not cut off. */
  predicate FitsIn(buckets: seq<Bucket>, p: Point, cutoff: Cutoff) {
    forall i | 0 <= i < |buckets| && Retained(buckets[i].last, cutoff) ::
      buckets[i].first.timestamp < 0 <==> p.timestamp < 0
  }

  // ----- the history

  /** Buckets with other keys than that of the point stay, and no others come. */
  ghost predicate Places(r: seq<Bucket>, buckets: seq<Bucket>, p: Point, key: int) {
    && (exists k :: 0 <= k < |r| && r[k].key == key && r[k].last.timestamp >= p.timestamp)
    && (forall b | b in buckets && b.key != key :: b in r)
    && (forall b | b in r && b.key != key :: b in buckets)
  }

  lemma InsertedPlaces(buckets: seq<Bucket>, at: nat, p: Point, key: int)
    requires at <= |buckets|
    ensures Places(Inserted(buckets, at, CreateBucket(key, p)), buckets, p, key)
  {
    var r := Inserted(buckets, at, CreateBucket(key, p));
    assert r[at].key == key && r[at].last.timestamp >= p.timestamp;
    forall b | b in buckets
      ensures b in r
    {
      var i :| 0 <= i < |buckets| && buckets[i] == b;
      assert r[if i < at then i else i + 1] == b;
    }
    forall i | 0 <= i < |r| && r[i].key != key
      ensures r[i] in buckets
    {
      if i < at {
        assert buckets[i] == r[i];
      } else {
        assert r[(i - 1) + 1] == buckets[i - 1];
      }
    }
  }

  lemma UpdatedPlaces(buckets: seq<Bucket>, at: nat, p: Point)
    requires at < |buckets|
    ensures Places(buckets[at := UpdateBucket(buckets[at], p)], buckets, p, buckets[at].key)
  {
    var r := buckets[at := UpdateBucket(buckets[at], p)];
    assert r[at].key == buckets[at].key && r[at].last.timestamp >= p.timestamp;
    forall b | b in buckets && b.key != buckets[at].key
      ensures b in r
    {
      var i :| 0 <= i < |buckets| && buckets[i] == b;
      assert r[i] == b;
    }
  }

  /** Find or make the bucket of a point, from the last bucket on. */
  method Place(buckets: seq<Bucket>, p: Point, key: int, ghost seen: set<Point>, ghost group: Grouping)
    returns (r: seq<Bucket>)
    requires Structured(buckets, seen, group) && group(p) == key
    ensures Structured(r, seen + {p}, group) && |r| <= |buckets| + 1
    ensures AllCovered(buckets, seen, group) ==> AllCovered(r, seen + {p}, group)
    ensures Places(r, buckets, p, key)
  {
    var at := |buckets|;
    while at > 0 && buckets[at - 1].key > key
      invariant 0 <= at <= |buckets| && forall j | at <= j < |buckets| :: key < buckets[j].key
    {
      at := at - 1;
    }
    if at > 0 && buckets[at - 1].key == key {
      AfterUpdate(buckets, seen, group, at - 1, p);
      UpdatedPlaces(buckets, at - 1, p);
      return buckets[at - 1 := UpdateBucket(buckets[at - 1], p)];
    }
    var created := CreateBucket(key, p);
    InsertedStructured(buckets, seen, group, at, p, created);
    InsertedPlaces(buckets, at, p, key);
    if AllCovered(buckets, seen, group) {
      InsertedCovers(buckets, seen, group, at, p, created);
    }
    return Inserted(buckets, at, created);
  }

  /** The points fall into more groups than the limit. */
  ghost predicate TooMany(points: set<Point>, width: Width, limit: nat) {
    Proper(width) && exists buckets :: Structured(buckets, points, ByWidth(width)) && |buckets| > limit
  }

  /** The width was doubled only where the points fell into too many groups. */
  ghost predicate Widened(before: Width, after: Width, points: set<Point>, limit: nat) {
    after == before || exists width :: after == Doubled(width) && TooMany(points, width, limit)
  }

  /** Bucket k is the first whose last value is not cut off. */
  predicate PrunedAt(buckets: seq<Bucket>, cutoff: Cutoff, k: nat) {
    && k <= |buckets| && (forall i | 0 <= i < k :: !Retained(buckets[i].last, cutoff))
    && (k < |buckets| ==> Retained(buckets[k].last, cutoff))
  }

  ghost predicate Pruned(before: seq<Bucket>, after: seq<Bucket>, cutoff: Cutoff) {
    exists k: nat :: PrunedAt(before, cutoff, k) && after == before[k..]
  }

  function PointSet(s: seq<Point>): set<Point> {
    set p | p in s
  }

  lemma PointSetGrows(s: seq<Point>, k: nat)
    requires k < |s|
    ensures PointSet(s[..k + 1]) == PointSet(s[..k]) + {s[k]}
  {
    assert s[..k + 1] == s[..k] + [s[k]];
  }

  class BoundedMetricHistory {
    const maxPoints: nat
    const maxBuckets: nat
    var bucketWidth: Width
    var buckets: seq<Bucket>
    ghost var points: set<Point>
    /** No point was dropped by a cutoff. */
    ghost var complete: bool

    ghost predicate Summarises(points: set<Point>)
      reads this
    {
      && Proper(bucketWidth)
      && Structured(buckets, points, ByWidth(bucketWidth))
      && (complete ==> AllCovered(buckets, points, ByWidth(bucketWidth)))
    }

    ghost predicate Valid()
      reads this
    {
      && 1 <= maxBuckets && MAX_BUCKET_CANDIDATES * maxBuckets <= maxPoints
      && Summarises(points)
      && |buckets| <= maxBuckets
    }

    constructor (expectedSpan: int, maxPoints: int)
      ensures Valid() && points == {} && complete && buckets == []
      ensures this.maxPoints == Max(8, maxPoints) && maxBuckets == this.maxPoints / 8
      ensures bucketWidth == WidthOf(Max(1, CeilDivide(Max(1, expectedSpan), maxBuckets)))
    {
      this.maxPoints := Max(MAX_BUCKET_CANDIDATES, maxPoints);
      var maxBuckets := Max(1, Max(MAX_BUCKET_CANDIDATES, maxPoints) / MAX_BUCKET_CANDIDATES);
      this.maxBuckets := maxBuckets;
      bucketWidth := WidthOf(Max(1, CeilDivide(Max(1, expectedSpan), maxBuckets)));
      buckets := [];
      points := {};
      complete := true;
    }

    /** Put a point in its bucket; `seen` are the points put in so far. */
    method AddToBucket(p: Point, ghost seen: set<Point>)
      requires Proper(bucketWidth) && Structured(buckets, seen, ByWidth(bucketWidth))
      modifies this`buckets
      ensures Structured(buckets, seen + {p}, ByWidth(bucketWidth))
      ensures AllCovered(old(buckets), seen, ByWidth(bucketWidth)) ==>
                AllCovered(buckets, seen + {p}, ByWidth(bucketWidth))
      ensures |buckets| <= |old(buckets)| + 1
      ensures Places(buckets, old(buckets), p, KeyAt(p.timestamp, bucketWidth))
    {
      var key := KeyAt(p.timestamp, bucketWidth);
      buckets := Place(buckets, p, key, seen, ByWidth(bucketWidth));
    }

    method Prune(cutoff: Cutoff)
      requires Summarises(points)
      modifies this`buckets, this`complete
      ensures cutoff.Unbounded? ==> buckets == old(buckets) && complete == old(complete)
      ensures cutoff.From? ==> !complete
      ensures Pruned(old(buckets), buckets, cutoff)
      ensures Summarises(points) && |buckets| <= |old(buckets)|
    {
      hide MaxNumber, Structured, AllCovered;
      var k := 0;
      if cutoff.From? {
        complete := false;
        while k < |buckets| && !Retained(buckets[k].last, cutoff)
          invariant 0 <= k <= |buckets| && forall i | 0 <= i < k :: !Retained(buckets[i].last, cutoff)
        {
          k := k + 1;
        }
      }
      SuffixStructured(buckets, points, ByWidth(bucketWidth), k);
      assert buckets[0..] == buckets;
      assert PrunedAt(buckets, cutoff, k);
      buckets := buckets[k..];
    }

    method Rebucket(cutoff: Cutoff)
      requires Summarises(points) && (complete ==> cutoff.Unbounded?)
      modifies this`buckets, this`bucketWidth
      ensures bucketWidth == Doubled(old(bucketWidth)) && Summarises(points)
      ensures Rebuilt(old(buckets), buckets, bucketWidth, cutoff)
    {
      hide MaxNumber;
      ghost var before, width := buckets, bucketWidth;
      DoubleIsCoarser(width);
      var retained := CandidateValues(buckets, cutoff);
      ghost var candidates := PointSet(retained);
      bucketWidth := Doubled(bucketWidth);
      buckets := [];
      for k := 0 to |retained|
        invariant bucketWidth == Doubled(width) && Structured(buckets, PointSet(retained[..k]), ByWidth(bucketWidth))
        invariant AllCovered(buckets, PointSet(retained[..k]), ByWidth(bucketWidth))
      {
        AddToBucket(retained[k], PointSet(retained[..k]));
        PointSetGrows(retained, k);
      }
      assert retained[..|retained|] == retained;
      assert RebuiltFrom(before, buckets, bucketWidth, cutoff, candidates);
      CandidatesAreMembers(before, points, ByWidth(width), candidates, cutoff);
      MorePoints(buckets, candidates, points, ByWidth(bucketWidth));
      if complete {
        CandidatesSuffice(before, buckets, points, candidates, ByWidth(width), ByWidth(bucketWidth));
      }
    }

    /** Merge until the buckets fit: at the latest when the width is
        infinite. */
    method Shrink(cutoff: Cutoff)
      requires Summarises(points) && (complete ==> cutoff.Unbounded?) && maxBuckets >= 1
      modifies this`buckets, this`bucketWidth
      ensures Summarises(points) && |buckets| <= maxBuckets
      ensures Widened(old(bucketWidth), bucketWidth, points, maxBuckets)
      ensures old(bucketWidth).Infinite? ==> bucketWidth.Infinite?
      ensures maxBuckets == 1 && Mixes(old(buckets), cutoff) ==> bucketWidth.Infinite?
      ensures old(bucketWidth).Finite? && bucketWidth.Infinite? && Near(points, MaxNumber() / 2) ==>
                maxBuckets == 1 && !OneSign(old(buckets))
    {
      hide MaxNumber;
      ghost var begun := buckets;
      while |buckets| > maxBuckets
        invariant Summarises(points) && Widened(old(bucketWidth), bucketWidth, points, maxBuckets)
        invariant old(bucketWidth).Infinite? ==> bucketWidth.Infinite?
        invariant OneSign(begun) ==> OneSign(buckets)
        invariant bucketWidth.Finite? && Mixes(begun, cutoff) ==> Mixes(buckets, cutoff)
        invariant old(bucketWidth).Finite? && bucketWidth.Infinite? && Near(points, MaxNumber() / 2) ==>
                    maxBuckets == 1 && !OneSign(begun)
        decreases Room(bucketWidth)
      {
        ghost var before, width := buckets, bucketWidth;
        if width.Infinite? {
          InfiniteIsOne(buckets, points);
          assert false;
        }
        assert TooMany(points, width, maxBuckets);
        Rebucket(cutoff);
        if OneSign(begun) {
          SignsStayOne(before, buckets, points, width.size, cutoff);
        }
        if bucketWidth.Finite? {
          if Mixes(begun, cutoff) {
            MixesStill(before, buckets, points, width, cutoff);
          }
        } else if Near(points, MaxNumber() / 2) {
          FewWhenNear(before, points, width.size);
        }
      }
    }

    /** The buckets that are cut off go, and the point comes. */
    method Insert(p: Point, cutoff: Cutoff)
      requires Valid() && Retained(p, cutoff)
      modifies this
      ensures Summarises(points) && points == old(points) + {p} && bucketWidth == old(bucketWidth)
      ensures complete == (old(complete) && cutoff.Unbounded?)
      ensures maxBuckets == 1 && bucketWidth.Finite? ==>
                if FitsIn(old(buckets), p, cutoff) then OneSign(buckets) else Mixes(buckets, cutoff)
    {
      hide MaxNumber, Structured, AllCovered, Places, Pruned, Mixes, OneSign, FitsIn;
      ghost var before := buckets;
      Prune(cutoff);
      ghost var kept := buckets;
      AddToBucket(p, points);
      MorePoints(kept, points, points + {p}, ByWidth(bucketWidth));
      points := points + {p};
      if maxBuckets == 1 && bucketWidth.Finite? {
        SignsPlaced(before, kept, buckets, points, p, bucketWidth.size, cutoff);
      }
    }

    method Add(p: Point, cutoff: Cutoff)
      requires Valid()
      modifies this
      ensures Valid()
      ensures points == if Retained(p, cutoff) then old(points) + {p} else old(points)
      ensures complete == (old(complete) && (cutoff.Unbounded? || !Retained(p, cutoff)))
      ensures !Retained(p, cutoff) ==> buckets == old(buckets) && bucketWidth == old(bucketWidth)
      ensures Widened(old(bucketWidth), bucketWidth, points, maxBuckets)
      ensures old(bucketWidth).Infinite? ==> bucketWidth.Infinite?
      ensures maxBuckets == 1 && Retained(p, cutoff) && !FitsIn(old(buckets), p, cutoff) ==> bucketWidth.Infinite?
      ensures old(bucketWidth).Finite? && bucketWidth.Infinite? && Near(points, MaxNumber() / 2) ==>
                maxBuckets == 1 && Retained(p, cutoff) && !FitsIn(old(buckets), p, cutoff)
    {
      if !Retained(p, cutoff) {
        return;
      }
      hide MaxNumber, Structured, AllCovered, Mixes, OneSign, FitsIn, Near, Widened;
      Insert(p, cutoff);
      Shrink(cutoff);
    }

    /** What is shown: at most `maxPoints` of the points, in order of time. */
    method Values(cutoff: Cutoff) returns (r: seq<Point>)
      requires Valid()
      ensures TimeOrdered(r) && |r| <= maxPoints
      ensures forall p | p in r :: p in points && Retained(p, cutoff)
      ensures complete && cutoff.Unbounded? ==> forall p | p in points :: Enclosed(r, p)
    {
      r := CandidateValues(buckets, cutoff);
      ValuesFacts(buckets, points, ByWidth(bucketWidth), r, cutoff);
    }
  }

  /** Of a single bucket, all or nothing is kept. */
  lemma PrunedOne(before: seq<Bucket>, kept: seq<Bucket>, cutoff: Cutoff)
    requires |before| <= 1 && Pruned(before, kept, cutoff)
    ensures if before != [] && Retained(before[0].last, cutoff) then kept == before else kept == []
  {
    var k: nat :| PrunedAt(before, cutoff, k) && kept == before[k..];
    assert before[0..] == before;
  }

  lemma PlacedSign(placed: seq<Bucket>, points: set<Point>, p: Point, size: int, i: nat)
    requires 0 < size <= MaxNumber() && Structured(placed, points, ByWidth(Finite(size)))
    requires i < |placed| && placed[i].key == KeyAt(p.timestamp, Finite(size))
    ensures placed[i].first.timestamp < 0 <==> p.timestamp < 0
  {
    assert HoldsOnly(placed[i], points, ByWidth(Finite(size)));
    BucketSign(placed[i], points, size, p);
  }

  lemma OneSignPlaced(kept: seq<Bucket>, placed: seq<Bucket>, points: set<Point>, p: Point, size: int)
    requires 0 < size <= MaxNumber() && Structured(placed, points, ByWidth(Finite(size)))
    requires Places(placed, kept, p, KeyAt(p.timestamp, Finite(size)))
    requires forall b | b in kept :: b.first.timestamp < 0 <==> p.timestamp < 0
    ensures OneSign(placed)
  {
    forall i | 0 <= i < |placed|
      ensures placed[i].first.timestamp < 0 <==> p.timestamp < 0
    {
      if placed[i].key == KeyAt(p.timestamp, Finite(size)) {
        PlacedSign(placed, points, p, size, i);
      } else {
        assert placed[i] in placed;
      }
    }
  }

  lemma MixedPlaced(kept: seq<Bucket>, placed: seq<Bucket>, points: set<Point>, p: Point, size: int, cutoff: Cutoff,
                    b: Bucket)
    requires 0 < size <= MaxNumber() && Retained(p, cutoff) && Structured(placed, points, ByWidth(Finite(size)))
    requires Structured(kept, points, ByWidth(Finite(size)))
    requires Places(placed, kept, p, KeyAt(p.timestamp, Finite(size)))
    requires b in kept && Retained(b.last, cutoff) && !(b.first.timestamp < 0 <==> p.timestamp < 0)
    ensures Mixes(placed, cutoff)
  {
    var j :| 0 <= j < |kept| && kept[j] == b;
    if b.key == KeyAt(p.timestamp, Finite(size)) {
      PlacedSign(kept, points, p, size, j);
    }
    var k :| 0 <= k < |placed| && placed[k].key == KeyAt(p.timestamp, Finite(size))
             && placed[k].last.timestamp >= p.timestamp;
    PlacedSign(placed, points, p, size, k);
    var i :| 0 <= i < |placed| && placed[i] == b;
    if p.timestamp < 0 {
      assert MixedAt(placed, cutoff, k, i);
    } else {
      assert MixedAt(placed, cutoff, i, k);
    }
  }

  /** A point beside a single bucket that is not cut off mixes the signs
      exactly when it has the other one. */
  lemma SignsPlaced(before: seq<Bucket>, kept: seq<Bucket>, placed: seq<Bucket>, points: set<Point>, p: Point,
                    size: int, cutoff: Cutoff)
    requires 0 < size <= MaxNumber() && |before| <= 1 && Retained(p, cutoff) && Pruned(before, kept, cutoff)
    requires Structured(kept, points, ByWidth(Finite(size))) && Structured(placed, points, ByWidth(Finite(size)))
    requires Places(placed, kept, p, KeyAt(p.timestamp, Finite(size)))
    ensures if FitsIn(before, p, cutoff) then OneSign(placed) else Mixes(placed, cutoff)
  {
    hide Structured, Places, Mixes, OneSign, MaxNumber;
    PrunedOne(before, kept, cutoff);
    if FitsIn(before, p, cutoff) {
      OneSignPlaced(kept, placed, points, p, size);
    } else {
      MixedPlaced(kept, placed, points, p, size, cutoff, before[0]);
    }
  }

  lemma ValuesFacts(buckets: seq<Bucket>, points: set<Point>, group: Grouping, r: seq<Point>, cutoff: Cutoff)
    requires Structured(buckets, points, group)
    requires forall p :: p in r <==> IsCandidate(buckets, |buckets|, cutoff, p)
    ensures forall p | p in r :: p in points && Retained(p, cutoff)
    ensures AllCovered(buckets, points, group) && cutoff.Unbounded? ==> forall p | p in points :: Enclosed(r, p)
  {
    forall p | p in r
      ensures p in points && Retained(p, cutoff)
    {
      var i := CandidateGroup(buckets, points, group, cutoff, p);
    }
    forall p | AllCovered(buckets, points, group) && cutoff.Unbounded? && p in points
      ensures Enclosed(r, p)
    {
      PointEnclosed(buckets, points, group, r, p);
    }
  }

  lemma SuffixStructured(buckets: seq<Bucket>, points: set<Point>, group: Grouping, k: nat)
    requires Structured(buckets, points, group) && k <= |buckets|
    ensures Structured(buckets[k..], points, group)
  {
    forall i | 0 <= i < |buckets[k..]|
      ensures HoldsOnly(buckets[k..][i], points, group)
    {
      assert HoldsOnly(buckets[k + i], points, group);
    }
  }

  lemma HeldAre(b: Bucket, p: Point)
    requires p in Held(b)
    ensures p == b.first || p == b.last || p == b.minRps || p == b.maxRps
         || p == b.minP95 || p == b.maxP95 || p == b.minP99 || p == b.maxP99
  {
  }

  lemma CandidateGroup(buckets: seq<Bucket>, points: set<Point>, group: Grouping, cutoff: Cutoff, p: Point)
    returns (i: nat)
    requires Structured(buckets, points, group) && IsCandidate(buckets, |buckets|, cutoff, p)
    ensures p in points && Retained(p, cutoff)
    ensures i < |buckets| && InGroup(p, group, buckets[i].key)
  {
    i :| i < |buckets| && p in Held(buckets[i]);
    HeldAre(buckets[i], p);
    assert HoldsOnly(buckets[i], points, group);
  }

  lemma CandidatesAreMembers(buckets: seq<Bucket>, points: set<Point>, group: Grouping, candidates: set<Point>,
                             cutoff: Cutoff)
    requires Structured(buckets, points, group)
    requires forall p :: p in candidates <==> IsCandidate(buckets, |buckets|, cutoff, p)
    ensures candidates <= points
  {
    forall p | p in candidates
      ensures p in points
    {
      var i := CandidateGroup(buckets, points, group, cutoff, p);
    }
  }

  /** The list shows, for each reading, values at least as extreme. */
  ghost predicate Enclosed(r: seq<Point>, p: Point) {
    && (exists q :: q in r && q.timestamp <= p.timestamp) && (exists q :: q in r && q.timestamp >= p.timestamp)
    && (exists q :: q in r && q.rps <= p.rps) && (exists q :: q in r && q.rps >= p.rps)
    && (exists q :: q in r && q.p95 <= p.p95) && (exists q :: q in r && q.p95 >= p.p95)
    && (exists q :: q in r && q.p99 <= p.p99) && (exists q :: q in r && q.p99 >= p.p99)
  }

  lemma PointEnclosed(buckets: seq<Bucket>, points: set<Point>, group: Grouping, r: seq<Point>, p: Point)
    requires AllCovered(buckets, points, group) && p in points
    requires forall q :: q in r <==> IsCandidate(buckets, |buckets|, Unbounded, q)
    ensures Enclosed(r, p)
  {
    assert CoveredBy(buckets, p, group);
    var i :| 0 <= i < |buckets| && InGroup(p, group, buckets[i].key) && Bounds(buckets[i], p);
    HeldMembers(buckets[i]);
    forall q | q in Held(buckets[i])
      ensures q in r
    {
      assert IsCandidate(buckets, |buckets|, Unbounded, q);
    }
  }
}
