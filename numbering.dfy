/** Sequential point numbering: every distinct segment endpoint gets an id, counting from 0 in
    the order the endpoints are first met (each segment's start, then its end), and the
    points mapping sends each id, written in decimal, to its point. */
module PointNumbering {
  import opened Wrappers
  import opened Strings
  import opened Geometry

  /** The distinct endpoints of the first n slots, in the order they are first met. */
  function Seen(segs: seq<Segment>, n: nat): (order: seq<Point>)
    requires n <= 2 * |segs|
  {
    if n == 0 then []
    else
      var prev := Seen(segs, n - 1);
      var p := EndAt(segs, n - 1);
      if p in prev then prev else prev + [p]
  }

  /** The points seen in the first n slots are the endpoints those slots hold. */
  lemma {:induction false} SeenMembers(segs: seq<Segment>, n: nat, p: Point)
    requires n <= 2 * |segs|
    ensures p in Seen(segs, n) <==> exists k :: 0 <= k < n && EndAt(segs, k) == p
  {
    if n > 0 {
      SeenMembers(segs, n - 1, p);
    }
  }

  /** No point is seen twice. */
  lemma {:induction false} SeenDistinct(segs: seq<Segment>, n: nat)
    requires n <= 2 * |segs|
    ensures Distinct(Seen(segs, n))
  {
    if n > 0 {
      SeenDistinct(segs, n - 1);
    }
  }

  /** After every slot, the points seen are the endpoints of the list. */
  lemma SeenAll(segs: seq<Segment>)
    ensures forall p :: p in Seen(segs, 2 * |segs|) <==> p in Endpoints(segs)
  {
    forall p ensures p in Seen(segs, 2 * |segs|) <==> p in Endpoints(segs) {
      SeenMembers(segs, 2 * |segs|, p);
    }
  }

  /** The order of first sightings only grows: the first m slots' order is a prefix of the
      first n slots'. */
  lemma {:induction false} SeenPrefix(segs: seq<Segment>, m: nat, n: nat)
    requires m <= n <= 2 * |segs|
    ensures |Seen(segs, m)| <= |Seen(segs, n)| && Seen(segs, m) == Seen(segs, n)[..|Seen(segs, m)|]
    decreases n - m
  {
    if m < n {
      SeenPrefix(segs, m + 1, n);
      var a, b := Seen(segs, m), Seen(segs, m + 1);
      assert a == b[..|a|];
    }
  }

  /** The first slot holding p. */
  function FirstSlot(segs: seq<Segment>, p: Point): (k: nat)
    requires p in Endpoints(segs)
    ensures k < 2 * |segs| && EndAt(segs, k) == p
    ensures forall j :: 0 <= j < k ==> EndAt(segs, j) != p
  {
    FirstSlotFrom(segs, p, 0)
  }

  function FirstSlotFrom(segs: seq<Segment>, p: Point, j: nat): (k: nat)
    requires j <= 2 * |segs|
    requires exists k :: j <= k < 2 * |segs| && EndAt(segs, k) == p
    ensures j <= k < 2 * |segs| && EndAt(segs, k) == p
    ensures forall i :: j <= i < k ==> EndAt(segs, i) != p
    decreases 2 * |segs| - j
  {
    if EndAt(segs, j) == p then j else FirstSlotFrom(segs, p, j + 1)
  }

  /** Each point of an order numbered by its position (its last position, if it repeats). */
  function IdsOf(order: seq<Point>): (ids: map<Point, int>)
    ensures forall p :: p in ids <==> p in order
  {
    if |order| == 0 then map[]
    else IdsOf(order[..|order| - 1])[order[|order| - 1] := |order| - 1]
  }

  /** In a duplicate-free order, each point is numbered by its position. */
  lemma {:induction false} IdsOfPositions(order: seq<Point>, i: int)
    requires Distinct(order) && 0 <= i < |order|
    ensures IdsOf(order)[order[i]] == i
  {
    if i < |order| - 1 {
      var init := order[..|order| - 1];
      IdsOfPositions(init, i);
      assert init[i] == order[i];
    }
  }

  /** A numbering counts what it numbers. */
  lemma {:induction false} IdsOfSize(order: seq<Point>)
    requires Distinct(order)
    ensures |IdsOf(order)| == |order|
  {
    if |order| > 0 {
      var init := order[..|order| - 1];
      IdsOfSize(init);
      assert order[|order| - 1] !in init;
    }
  }

  /** One `if p not in unique_points` step, at slot n. */
  method Visit(segs: seq<Segment>, n: nat, ids: map<Point, int>, pointId: int, ghost next: nat)
    returns (ids2: map<Point, int>, pointId2: int)
    requires n < 2 * |segs| && next == n + 1
    requires ids == IdsOf(Seen(segs, n)) && pointId == |Seen(segs, n)|
    ensures ids2 == IdsOf(Seen(segs, next)) && pointId2 == |Seen(segs, next)|
  {
    var p := EndAt(segs, n);
    ghost var order := Seen(segs, n);
    if p !in ids {
      ids2, pointId2 := ids[p := pointId], pointId + 1;
      assert Seen(segs, next) == order + [p];
      assert (order + [p])[..|order|] == order;
      assert IdsOf(order + [p]) == IdsOf(order)[p := |order|];
    } else {
      ids2, pointId2 := ids, pointId;
      assert Seen(segs, next) == order;
    }
  }

  /** One turn of the loop over the segments: its start, then its end. */
  method VisitSegment(segs: seq<Segment>, i: nat, ids: map<Point, int>, pointId: int)
    returns (ids2: map<Point, int>, pointId2: int)
    requires i < |segs|
    requires ids == IdsOf(Seen(segs, 2 * i)) && pointId == |Seen(segs, 2 * i)|
    ensures ids2 == IdsOf(Seen(segs, 2 * (i + 1))) && pointId2 == |Seen(segs, 2 * (i + 1))|
  {
    ids2, pointId2 := Visit(segs, 2 * i, ids, pointId, 2 * i + 1);
    ids2, pointId2 := Visit(segs, 2 * i + 1, ids2, pointId2, 2 * (i + 1));
  }

  /** The numbering the loop computes: its keys are the endpoints, and each point's id is its
      position in the order of first sightings. */
  ghost predicate IsNumbering(segs: seq<Segment>, ids: map<Point, int>)
  {
    var order := Seen(segs, 2 * |segs|);
    && ids.Keys == Endpoints(segs)
    && forall p :: p in ids ==> 0 <= ids[p] < |order| && order[ids[p]] == p
  }

  /** The numbering loop of `number_points(input_file, output_image, output_json)`: every
      distinct endpoint gets exactly one id, the ids are exactly 0 .. `point_id` - 1, and the id
      of p is its position in the order of first sightings. */
  method NumberPoints(segs: seq<Segment>) returns (uniquePoints: map<Point, int>, pointId: int)
    ensures uniquePoints == IdsOf(Seen(segs, 2 * |segs|)) && pointId == |Seen(segs, 2 * |segs|)|
  {
    uniquePoints, pointId := map[], 0;
    var i := 0;
    while i < |segs|
      invariant 0 <= i <= |segs|
      invariant uniquePoints == IdsOf(Seen(segs, 2 * i)) && pointId == |Seen(segs, 2 * i)|
    {
      uniquePoints, pointId := VisitSegment(segs, i, uniquePoints, pointId);
      i := i + 1;
    }
  }

  /** What `number_points` computes is a numbering of the endpoints by first sighting: every
      distinct endpoint gets exactly one id, and the ids are exactly 0 .. `point_id` - 1. */
  lemma NumberingOfSeen(segs: seq<Segment>)
    ensures IsNumbering(segs, IdsOf(Seen(segs, 2 * |segs|)))
    ensures |IdsOf(Seen(segs, 2 * |segs|))| == |Endpoints(segs)| == |Seen(segs, 2 * |segs|)|
  {
    var order := Seen(segs, 2 * |segs|);
    var ids := IdsOf(order);
    SeenAll(segs);
    SeenDistinct(segs, 2 * |segs|);
    IdsOfSize(order);
    assert ids.Keys == Endpoints(segs);
    forall p | p in ids ensures 0 <= ids[p] < |order| && order[ids[p]] == p {
      var i :| 0 <= i < |order| && order[i] == p;
      IdsOfPositions(order, i);
    }
  }

  /** The id of a point is the number of distinct points met before its first occurrence. */
  lemma IdIsFirstSighting(segs: seq<Segment>, ids: map<Point, int>, p: Point)
    requires IsNumbering(segs, ids) && p in ids
    ensures ids[p] == |Seen(segs, FirstSlot(segs, p))|
  {
    var k := FirstSlot(segs, p);
    var before := Seen(segs, k);
    SeenMembers(segs, k, p);
    assert p !in before;
    assert Seen(segs, k + 1) == before + [p];
    SeenPrefix(segs, k + 1, 2 * |segs|);
    var all := Seen(segs, 2 * |segs|);
    assert all[|before|] == p;
    SeenDistinct(segs, 2 * |segs|);
    assert all[ids[p]] == p;
  }

  /** A point met at an earlier first slot has been seen by fewer points before it. */
  lemma FirstSightingsGrow(segs: seq<Segment>, p: Point, q: Point)
    requires p in Endpoints(segs) && q in Endpoints(segs)
    requires FirstSlot(segs, p) < FirstSlot(segs, q)
    ensures |Seen(segs, FirstSlot(segs, p))| < |Seen(segs, FirstSlot(segs, q))|
  {
    var kp := FirstSlot(segs, p);
    SeenMembers(segs, kp, p);
    assert Seen(segs, kp + 1) == Seen(segs, kp) + [p];
    SeenPrefix(segs, kp + 1, FirstSlot(segs, q));
  }

  /** Ids follow first sightings: p's id is below q's exactly when p is met first. */
  lemma IdsInFirstSeenOrder(segs: seq<Segment>, ids: map<Point, int>, p: Point, q: Point)
    requires IsNumbering(segs, ids) && p in ids && q in ids
    ensures ids[p] < ids[q] <==> FirstSlot(segs, p) < FirstSlot(segs, q)
  {
    IdIsFirstSighting(segs, ids, p);
    IdIsFirstSighting(segs, ids, q);
    var kp, kq := FirstSlot(segs, p), FirstSlot(segs, q);
    if kp < kq {
      FirstSightingsGrow(segs, p, q);
    } else if kq < kp {
      FirstSightingsGrow(segs, q, p);
    }
  }

  /** Ids of a numbering are injective, so `str(pid)` keys never collide. */
  predicate Injective(ids: map<Point, int>)
  {
    forall p, q :: p in ids && q in ids && ids[p] == ids[q] ==> p == q
  }

  /** Distinct points have distinct ids. */
  lemma NumberingIsInjective(segs: seq<Segment>, ids: map<Point, int>)
    requires IsNumbering(segs, ids)
    ensures Injective(ids)
  {
  }

  /** `points_mapping['points']`: `str(pid)` to the point numbered pid. */
  function PointsMapping(ids: map<Point, int>): (m: map<string, Point>)
    requires Injective(ids)
    ensures forall p :: p in ids ==> DecimalString(ids[p]) in m && m[DecimalString(ids[p])] == p
    ensures forall key :: key in m ==> exists p :: p in ids && DecimalString(ids[p]) == key
  {
    assert forall p, q :: p in ids && q in ids && DecimalString(ids[p]) == DecimalString(ids[q]) ==> p == q by {
      forall p, q | p in ids && q in ids && DecimalString(ids[p]) == DecimalString(ids[q]) ensures p == q {
        DecimalStringInjective(ids[p], ids[q]);
      }
    }
    map p | p in ids :: DecimalString(ids[p]) := p
  }

  /** Why `number_points` stops before it writes the points mapping. */
  datatype NumberingError =
    | NoPoints              // `min()` over the empty point list raises `ValueError`
    | MissingType(seg: nat) // `seg['type']` raises `KeyError` while segment seg is drawn

  /** The points mapping file: `total_points` and `points`. */
  datatype PointsFile = PointsFile(totalPoints: int, points: map<string, Point>)

  /** Segment k is the first one without a `type`. */
  predicate IsFirstUntyped(segs: seq<Segment>, k: int)
  {
    && 0 <= k < |segs| && "type" !in segs[k].attrs
    && forall j :: 0 <= j < k ==> "type" in segs[j].attrs
  }

  /** The drawing loop's reads of `seg['type']`: the first segment without one, or -1. */
  method FirstUntyped(segs: seq<Segment>) returns (k: int)
    ensures k == -1 <==> forall j :: 0 <= j < |segs| ==> "type" in segs[j].attrs
    ensures k != -1 ==> IsFirstUntyped(segs, k)
  {
    k := 0;
    while k < |segs|
      invariant 0 <= k <= |segs|
      invariant forall j :: 0 <= j < k ==> "type" in segs[j].attrs
    {
      if "type" !in segs[k].attrs {
        return;
      }
      k := k + 1;
    }
    k := -1;
  }

  /** The numbering of the endpoints by first sighting is injective. */
  lemma SeenIdsInjective(segs: seq<Segment>)
    ensures Injective(IdsOf(Seen(segs, 2 * |segs|)))
  {
    NumberingOfSeen(segs);
    NumberingIsInjective(segs, IdsOf(Seen(segs, 2 * |segs|)));
  }

  /** The points mapping of a numbering of pts by ids below n holds every point of pts under
      the decimal form of its id, and every key is the decimal form of an id below n naming a
      point of pts. */
  lemma PointsMappingContents(ids: map<Point, int>, pts: set<Point>, n: int)
    requires Injective(ids) && ids.Keys == pts && forall p :: p in ids ==> 0 <= ids[p] < n
    ensures forall p :: p in pts ==>
              exists pid :: DecimalString(pid) in PointsMapping(ids) && PointsMapping(ids)[DecimalString(pid)] == p
    ensures forall key :: key in PointsMapping(ids) ==>
              PointsMapping(ids)[key] in pts && exists pid :: 0 <= pid < n && key == DecimalString(pid)
  {
    var points := PointsMapping(ids);
    forall p | p in pts
      ensures exists pid :: DecimalString(pid) in points && points[DecimalString(pid)] == p
    {
      assert DecimalString(ids[p]) in points;
    }
    forall key | key in points
      ensures points[key] in pts && exists pid :: 0 <= pid < n && key == DecimalString(pid)
    {
      var p :| p in ids && DecimalString(ids[p]) == key;
      assert points[key] == p;
    }
  }

  /** `number_points` up to `save_json(points_mapping, ...)`: with no segments `min()` raises,
      and a segment without `type` raises when it is drawn; otherwise `total_points` is the
      number of distinct endpoints and `points` lists each endpoint under the decimal form of
      its first-sighting id. */
  method PointsMappingFile(segs: seq<Segment>) returns (r: Result<PointsFile, NumberingError>)
    ensures Injective(IdsOf(Seen(segs, 2 * |segs|)))
    ensures |segs| == 0 ==> r == Failure(NoPoints)
    ensures r == Failure(NoPoints) <==> |segs| == 0
    ensures r.Failure? && r.error.MissingType? ==> |segs| > 0 && IsFirstUntyped(segs, r.error.seg)
    ensures |segs| > 0 && r.Failure? ==> r.error.MissingType? && IsFirstUntyped(segs, r.error.seg)
    ensures r.Success? <==> |segs| > 0 && forall k :: 0 <= k < |segs| ==> "type" in segs[k].attrs
    ensures r.Success? ==> r.value.points == PointsMapping(IdsOf(Seen(segs, 2 * |segs|)))
    ensures r.Success? ==> r.value.totalPoints == |Endpoints(segs)|
    ensures r.Success? ==> forall p :: p in Endpoints(segs) ==>
              exists pid :: DecimalString(pid) in r.value.points && r.value.points[DecimalString(pid)] == p
    ensures r.Success? ==> forall key :: key in r.value.points ==>
              r.value.points[key] in Endpoints(segs) && exists pid :: 0 <= pid < r.value.totalPoints && key == DecimalString(pid)
  {
    var uniquePoints, pointId := NumberPoints(segs);
    NumberingOfSeen(segs);
    SeenIdsInjective(segs);
    if |segs| == 0 {
      // the point list is empty exactly when there are no segments
      return Failure(NoPoints);
    }
    var untyped := FirstUntyped(segs);
    if untyped != -1 {
      return Failure(MissingType(untyped));
    }
    var points := PointsMapping(uniquePoints);
    PointsMappingContents(uniquePoints, Endpoints(segs), |Endpoints(segs)|);
    r := Success(PointsFile(|uniquePoints|, points));
  }
}
