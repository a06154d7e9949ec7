/** The file-driven stair snap: each stair endpoint goes to the nearest wall endpoint when that
    lies within the search radius, and otherwise onto the nearest wall with no distance limit.
    The snapped stairs are rebuilt as fresh records, post-processed by the shared passes, and
    appended to the walls. */
module StairSnapFile {
  import opened Numeric
  import opened Geometry
  import opened Search
  import opened StairSnap

  /** The snap of one stair endpoint p, before rounding, with the wall endpoints listed in the
      order of `list(set(...))`: the first nearest of them if it is within radius; otherwise
      the projection onto the first nearest wall; with no walls, p. */
  ghost predicate RadiusSnap(walls: seq<Segment>, order: seq<Point>, p: Point, radius: real, q: RPoint)
  {
    if exists j :: 0 <= j < |order| && WithinDist(DistSq(p, order[j]) as real, radius) then
      exists i :: IsFirstNearestPoint(order, p, NoLimit, i) && q == ToReal(order[i])
    else if |walls| == 0 then
      q == ToReal(p)
    else
      exists j :: 0 <= j < |walls| && IsFirstNearest(walls, p, {}, false, NoLimit, j)
                  && q == ProjectPointOnSegment(p, Start(walls[j]), Finish(walls[j]))
  }

  /** The two priorities for one endpoint (the inner loop body over `points`). */
  method SnapByRadius(walls: seq<Segment>, order: seq<Point>, p: Point, radius: real) returns (q: RPoint)
    ensures RadiusSnap(walls, order, p, radius, q)
  {
    var e := FirstNearestPoint(order, p, NoLimit);
    if e != -1 && WithinDist(DistSq(p, order[e]) as real, radius) {
      q := ToReal(order[e]);
    } else {
      if |order| > 0 {
        assert Admits(NoLimit, DistSq(p, order[0]) as real);
      }
      var best := FirstNearestSegment(walls, p, {}, false, NoLimit);
      if best == -1 {
        q := ToReal(p);
      } else {
        q := ProjectPointOnSegment(p, Start(walls[best]), Finish(walls[best]));
      }
      if |walls| > 0 {
        assert Eligible(walls, 0, {}, false);
      }
    }
  }

  /** The keys of a snapped stair record besides its coordinates: the input coordinates as
      `original_*` and `type = 'stair'`; the input's other keys are not carried over. */
  function StairAttrs(s: Segment): (a: Attrs)
    ensures a.Keys == {"original_x1", "original_y1", "original_x2", "original_y2", "type"}
    ensures a["type"] == StrVal("stair")
    ensures a["original_x1"] == IntVal(s.x1) && a["original_y1"] == IntVal(s.y1)
    ensures a["original_x2"] == IntVal(s.x2) && a["original_y2"] == IntVal(s.y2)
  {
    map["original_x1" := IntVal(s.x1), "original_y1" := IntVal(s.y1),
        "original_x2" := IntVal(s.x2), "original_y2" := IntVal(s.y2),
        "type" := StrVal("stair")]
  }

  /** `snapped_stair`: the two snapped positions rounded half to even. */
  function SnappedRecord(s: Segment, q1: RPoint, q2: RPoint): (r: Segment)
    ensures Start(r) == RoundPoint(q1) && Finish(r) == RoundPoint(q2)
    ensures r.attrs == StairAttrs(s)
  {
    Segment(RoundHalfEven(q1.x), RoundHalfEven(q1.y), RoundHalfEven(q2.x), RoundHalfEven(q2.y), StairAttrs(s))
  }

  /** An endpoint snapped to a wall endpoint keeps it exactly once rounded (no rounding drift). */
  lemma EndpointSnapExact(walls: seq<Segment>, order: seq<Point>, p: Point, radius: real, q: RPoint)
    requires Enumerates(order, Endpoints(walls)) && RadiusSnap(walls, order, p, radius, q)
    requires exists e :: e in Endpoints(walls) && WithinDist(DistSq(p, e) as real, radius)
    ensures RoundPoint(q) in Endpoints(walls)
    ensures forall f :: f in Endpoints(walls) ==> DistSq(p, RoundPoint(q)) <= DistSq(p, f)
  {
    var e :| e in Endpoints(walls) && WithinDist(DistSq(p, e) as real, radius);
    var j :| 0 <= j < |order| && order[j] == e;
    var i :| IsFirstNearestPoint(order, p, NoLimit, i) && q == ToReal(order[i]);
    RoundPointOfInt(order[i]);
    FirstNearestPointInSet(order, Endpoints(walls), p, NoLimit, i);
  }

  /** One stair after the snapping loop. */
  ghost predicate StairRebuilt(walls: seq<Segment>, order: seq<Point>, s: Segment, r: Segment, radius: real)
  {
    && r.attrs == StairAttrs(s)
    && (exists q :: RadiusSnap(walls, order, Start(s), radius, q) && Start(r) == RoundPoint(q))
    && (exists q :: RadiusSnap(walls, order, Finish(s), radius, q) && Finish(r) == RoundPoint(q))
  }

  /** One turn of the loop over `stairs`: both endpoints snapped, then the record rebuilt. */
  method SnapStair(walls: seq<Segment>, order: seq<Point>, stair: Segment, radius: real) returns (r: Segment)
    ensures StairRebuilt(walls, order, stair, r, radius)
  {
    var q1 := SnapByRadius(walls, order, Start(stair), radius);
    var q2 := SnapByRadius(walls, order, Finish(stair), radius);
    r := SnappedRecord(stair, q1, q2);
  }

  /** The first n stairs are rebuilt as the first n records. */
  ghost predicate RebuiltUpTo(walls: seq<Segment>, order: seq<Point>, stairs: seq<Segment>, out: seq<Segment>, radius: real, n: int)
    requires 0 <= n <= |stairs| && n <= |out|
  {
    forall i :: 0 <= i < n ==> StairRebuilt(walls, order, stairs[i], out[i], radius)
  }

  lemma RebuiltSnoc(walls: seq<Segment>, order: seq<Point>, stairs: seq<Segment>, out: seq<Segment>, radius: real, r: Segment)
    requires |out| < |stairs| && RebuiltUpTo(walls, order, stairs, out, radius, |out|)
    requires StairRebuilt(walls, order, stairs[|out|], r, radius)
    ensures RebuiltUpTo(walls, order, stairs, out + [r], radius, |out| + 1)
  {
    var o2 := out + [r];
    forall i | 0 <= i < |out| + 1 ensures StairRebuilt(walls, order, stairs[i], o2[i], radius) {
      if i < |out| {
        assert o2[i] == out[i];
      }
    }
  }

  /** The loop over `stairs` building `snapped_stairs`. */
  method SnapAll(stairs: seq<Segment>, walls: seq<Segment>, order: seq<Point>, radius: real) returns (out: seq<Segment>)
    ensures |out| == |stairs|
    ensures forall i :: 0 <= i < |stairs| ==> StairRebuilt(walls, order, stairs[i], out[i], radius)
  {
    out := [];
    var i := 0;
    while i < |stairs|
      invariant 0 <= i <= |stairs| && |out| == i
      invariant RebuiltUpTo(walls, order, stairs, out, radius, i)
    {
      var r := SnapStair(walls, order, stairs[i], radius);
      RebuiltSnoc(walls, order, stairs, out, radius, r);
      out := out + [r];
      i := i + 1;
    }
    assert RebuiltUpTo(walls, order, stairs, out, radius, |stairs|);
  }

  /** `wall_copy` with `type = 'wall'`. */
  function TypedWall(w: Segment): (r: Segment)
    ensures Start(r) == Start(w) && Finish(r) == Finish(w)
    ensures r.attrs.Keys == w.attrs.Keys + {"type"} && r.attrs["type"] == StrVal("wall")
    ensures forall key :: key in w.attrs && key != "type" ==> r.attrs[key] == w.attrs[key]
  {
    w.(attrs := w.attrs["type" := StrVal("wall")])
  }

  /** The walls-with-type loop. */
  method TypeWalls(walls: seq<Segment>) returns (out: seq<Segment>)
    ensures |out| == |walls| && forall i :: 0 <= i < |walls| ==> out[i] == TypedWall(walls[i])
  {
    out := [];
    var i := 0;
    while i < |walls|
      invariant 0 <= i <= |walls| && |out| == i
      invariant forall j :: 0 <= j < i ==> out[j] == TypedWall(walls[j])
    {
      out := out + [TypedWall(walls[i])];
      i := i + 1;
    }
  }

  /** The snapping body of `snap_stairs_to_walls(walls_file, stairs_file, output_file,
      endpoint_search_radius)`, on in-memory lists: the combined list is every wall, typed,
      followed by every processed stair, each of which carries its `original_*` keys and
      `type = 'stair'`. The ghost outputs are the intermediate stair lists, the canonical
      vertices of the duplicate merge, the order of `list(set(wall_endpoints))` and the
      iteration order of the wall vertex set. */
  method SnapStairsFile(walls: seq<Segment>, stairs: seq<Segment>, radius: real)
    returns (combined: seq<Segment>, ghost snapped: seq<Segment>, ghost straight: seq<Segment>,
             ghost merged: seq<Segment>, ghost canon: seq<Point>,
             ghost endOrder: seq<Point>, ghost vertOrder: seq<Point>)
    ensures |combined| == |walls| + |stairs|
    ensures forall i :: 0 <= i < |walls| ==> combined[i] == TypedWall(walls[i])
    ensures forall i :: 0 <= i < |stairs| ==> combined[|walls| + i].attrs == StairAttrs(stairs[i])
    ensures Enumerates(endOrder, Endpoints(walls))
    ensures |snapped| == |stairs| && forall i :: 0 <= i < |stairs| ==> StairRebuilt(walls, endOrder, stairs[i], snapped[i], radius)
    ensures |straight| == |snapped|
    ensures forall i :: 0 <= i < |snapped| ==> straight[i] == StraightenOne(snapped[i], StraightenTolerance)
    ensures VertexMerged(straight, merged, DuplicateTolerance, canon)
    ensures |merged| == |stairs|
    ensures Enumerates(vertOrder, Endpoints(walls))
    ensures forall i :: 0 <= i < |stairs| ==>
              && MergedToWalls(Start(merged[i]), Start(combined[|walls| + i]), vertOrder, WallVertexTolerance)
              && MergedToWalls(Finish(merged[i]), Finish(combined[|walls| + i]), vertOrder, WallVertexTolerance)
  {
    var ends := SetToSeq(Endpoints(walls));
    endOrder := ends;
    var s := SnapAll(stairs, walls, ends, radius);
    snapped := s;
    var t := StraightenStairLines(s, StraightenTolerance);
    straight := t;
    var m;
    m, canon := MergeDuplicateVertices(t, DuplicateTolerance);
    merged := m;
    var out;
    out, vertOrder := MergeStairsToWalls(m, walls, WallVertexTolerance);
    forall i | 0 <= i < |stairs| ensures out[i].attrs == StairAttrs(stairs[i]) {
      assert StairRebuilt(walls, ends, stairs[i], s[i], radius);
      assert t[i].attrs == s[i].attrs;
      assert KeepsRecords(t, m) && KeepsRecords(m, out);
    }
    var typed := TypeWalls(walls);
    combined := typed + out;
    assert forall i :: 0 <= i < |stairs| ==> combined[|walls| + i] == out[i];
    assert forall i :: 0 <= i < |walls| ==> combined[i] == typed[i];
  }
}
