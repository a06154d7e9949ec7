/** The stair/wall correction passes: straightening nearly axis-parallel stairs, greedy
    merging of near-duplicate vertices, snapping stair vertices onto wall vertices, correcting
    walls onto their own axis, and the two-priority snap of stair endpoints onto walls. */
module StairSnap {
  import opened Numeric
  import opened Geometry
  import opened Search

  // ---------- straighten_stair_lines ----------

  /** The corrected copy of one stair: if its x's differ by 1..tol both become their mean
      rounded half to even; only otherwise, if its y's differ by 1..tol, the same for the y's. */
  function StraightenOne(s: Segment, tol: int): (r: Segment)
    ensures r.attrs == s.attrs
    ensures 0 < Abs(s.x1 - s.x2) <= tol ==>
              && r.x1 == r.x2 == RoundHalfEven((s.x1 + s.x2) as real / 2.0)
              && (s.x1 <= r.x1 <= s.x2 || s.x2 <= r.x1 <= s.x1)
              && r.y1 == s.y1 && r.y2 == s.y2
    ensures !(0 < Abs(s.x1 - s.x2) <= tol) && 0 < Abs(s.y1 - s.y2) <= tol ==>
              && r.y1 == r.y2 == RoundHalfEven((s.y1 + s.y2) as real / 2.0)
              && (s.y1 <= r.y1 <= s.y2 || s.y2 <= r.y1 <= s.y1)
              && r.x1 == s.x1 && r.x2 == s.x2
    ensures !(0 < Abs(s.x1 - s.x2) <= tol) && !(0 < Abs(s.y1 - s.y2) <= tol) ==> r == s
  {
    if 0 < Abs(s.x1 - s.x2) <= tol then
      var m := RoundHalfEven((s.x1 + s.x2) as real / 2.0);
      RoundedMidBetween(s.x1, s.x2);
      Segment(m, s.y1, m, s.y2, s.attrs)
    else if 0 < Abs(s.y1 - s.y2) <= tol then
      var m := RoundHalfEven((s.y1 + s.y2) as real / 2.0);
      RoundedMidBetween(s.y1, s.y2);
      Segment(s.x1, m, s.x2, m, s.attrs)
    else s
  }

  /** At most one axis changes, and an axis that changes ends up exactly parallel. */
  lemma StraightenOneAxis(s: Segment, tol: int)
    ensures var r := StraightenOne(s, tol);
            || (r.x1 == s.x1 && r.x2 == s.x2)
            || (r.y1 == s.y1 && r.y2 == s.y2)
    ensures var r := StraightenOne(s, tol);
            && (r.x1 != s.x1 || r.x2 != s.x2 ==> r.x1 == r.x2)
            && (r.y1 != s.y1 || r.y2 != s.y2 ==> r.y1 == r.y2)
  {
  }

  /** `straighten_stair_lines(stairs, tolerance)`. */
  method StraightenStairLines(stairs: seq<Segment>, tol: int) returns (out: seq<Segment>)
    ensures |out| == |stairs|
    ensures forall i :: 0 <= i < |stairs| ==> out[i] == StraightenOne(stairs[i], tol)
  {
    out := [];
    var i := 0;
    while i < |stairs|
      invariant 0 <= i <= |stairs| && |out| == i
      invariant forall j :: 0 <= j < i ==> out[j] == StraightenOne(stairs[j], tol)
    {
      out := out + [StraightenOne(stairs[i], tol)];
      i := i + 1;
    }
  }

  // ---------- merge_duplicate_vertices ----------

  /** `distance_point_to_point(v, w) <= tol`. */
  predicate Near(v: Point, w: Point, tol: int)
  {
    WithinDist(DistSq(v, w) as real, tol as real)
  }

  /** Canonical vertices are pairwise more than tol apart. */
  predicate Separated(canon: seq<Point>, tol: int)
  {
    forall i, j :: 0 <= i < j < |canon| ==> !Near(canon[i], canon[j], tol)
  }

  /** c is the first canonical vertex within tol of v. */
  ghost predicate FirstNear(canon: seq<Point>, v: Point, tol: int, c: Point)
  {
    exists i :: 0 <= i < |canon| && canon[i] == c && Near(v, c, tol)
                && forall j :: 0 <= j < i ==> !Near(v, canon[j], tol)
  }

  /** The first canonical vertex within tol of v is unique. */
  lemma FirstNearUnique(canon: seq<Point>, v: Point, tol: int, a: Point, b: Point)
    requires FirstNear(canon, v, tol, a) && FirstNear(canon, v, tol, b)
    ensures a == b
  {
    var i :| 0 <= i < |canon| && canon[i] == a && Near(v, a, tol) && forall j :: 0 <= j < i ==> !Near(v, canon[j], tol);
    var k :| 0 <= k < |canon| && canon[k] == b && Near(v, b, tol) && forall j :: 0 <= j < k ==> !Near(v, canon[j], tol);
    assert !(i < k) && !(k < i);
  }

  /** No vertex of canon lies within tol of v. */
  predicate NearNone(canon: seq<Point>, v: Point, tol: int)
  {
    forall j :: 0 <= j < |canon| ==> !Near(v, canon[j], tol)
  }

  /** The points held by the first n slots. */
  function SlotPoints(segs: seq<Segment>, n: int): set<Point>
    requires 0 <= n <= 2 * |segs|
  {
    set m | 0 <= m < n :: EndAt(segs, m)
  }

  /** The keys of `vertices` after the first n slots, in registration order: the vertex of
      slot k is skipped when an earlier slot held it, and otherwise registered exactly when no
      vertex registered before it lies within tol. */
  function Registered(segs: seq<Segment>, n: int, tol: int): seq<Point>
    requires 0 <= n <= 2 * |segs|
  {
    if n == 0 then []
    else
      var c := Registered(segs, n - 1, tol);
      var v := EndAt(segs, n - 1);
      if v !in SlotPoints(segs, n - 1) && NearNone(c, v, tol) then c + [v] else c
  }

  /** Every registered vertex is an endpoint of one of the first n slots. */
  lemma {:induction false} RegisteredFromInput(segs: seq<Segment>, n: int, tol: int)
    requires 0 <= n <= 2 * |segs|
    ensures forall v :: v in Registered(segs, n, tol) ==> v in SlotPoints(segs, n)
  {
    if n > 0 {
      RegisteredFromInput(segs, n - 1, tol);
      assert SlotPoints(segs, n) == SlotPoints(segs, n - 1) + {EndAt(segs, n - 1)};
    }
  }

  /** The registered vertices are pairwise more than tol apart. */
  lemma {:induction false} RegisteredSeparated(segs: seq<Segment>, n: int, tol: int)
    requires 0 <= n <= 2 * |segs|
    ensures Separated(Registered(segs, n, tol), tol)
  {
    if n > 0 {
      RegisteredSeparated(segs, n - 1, tol);
      var c := Registered(segs, n - 1, tol);
      var v := EndAt(segs, n - 1);
      if v !in SlotPoints(segs, n - 1) && NearNone(c, v, tol) {
        RegisterSeparated(c, tol, v);
      }
    }
  }

  /** The vertex map built so far: every key maps into canon, canonical vertices map to
      themselves, and (for tol >= 0) every key maps to the first canonical vertex near it. */
  ghost predicate VertexMapOk(vmap: map<Point, Point>, canon: seq<Point>, tol: int)
  {
    && Separated(canon, tol)
    && (forall i :: 0 <= i < |canon| ==> canon[i] in vmap && vmap[canon[i]] == canon[i])
    && (forall v :: v in vmap ==> vmap[v] in canon)
    && (forall v :: v in vmap && vmap[v] == v ==> v in canon)
    && (tol >= 0 ==> forall v :: v in vmap ==> FirstNear(canon, v, tol, vmap[v]))
    && (tol < 0 ==> forall v :: v in vmap ==> vmap[v] == v)
  }

  /** The search over the canonical vertices registered so far, in registration order. */
  method FirstNearIndex(canon: seq<Point>, v: Point, tol: int) returns (i: int)
    ensures -1 <= i < |canon|
    ensures i == -1 ==> forall j :: 0 <= j < |canon| ==> !Near(v, canon[j], tol)
    ensures i != -1 ==> Near(v, canon[i], tol) && forall j :: 0 <= j < i ==> !Near(v, canon[j], tol)
  {
    i := 0;
    while i < |canon|
      invariant 0 <= i <= |canon|
      invariant forall j :: 0 <= j < i ==> !Near(v, canon[j], tol)
    {
      if Near(v, canon[i], tol) {
        return;
      }
      i := i + 1;
    }
    i := -1;
  }

  /** Registering a vertex that is near no canonical vertex keeps the map consistent. */
  lemma RegisterKeepsMap(vmap: map<Point, Point>, canon: seq<Point>, tol: int, v: Point)
    requires VertexMapOk(vmap, canon, tol) && v !in vmap
    requires forall j :: 0 <= j < |canon| ==> !Near(v, canon[j], tol)
    ensures VertexMapOk(vmap[v := v], canon + [v], tol)
  {
    RegisterSeparated(canon, tol, v);
    var m, c := vmap[v := v], canon + [v];
    if tol >= 0 {
      forall w | w in m ensures FirstNear(c, w, tol, m[w]) {
        RegisterFirstNear(vmap, canon, tol, v, w);
      }
    }
  }

  /** A vertex near no canonical vertex can be added to them without breaking separation. */
  lemma RegisterSeparated(canon: seq<Point>, tol: int, v: Point)
    requires Separated(canon, tol)
    requires forall j :: 0 <= j < |canon| ==> !Near(v, canon[j], tol)
    ensures Separated(canon + [v], tol)
  {
    var c := canon + [v];
    forall i, j | 0 <= i < j < |c| ensures !Near(c[i], c[j], tol) {
      if j == |canon| {
        assert !Near(v, canon[i], tol);
        assert DistSq(canon[i], v) == DistSq(v, canon[i]);
      } else {
        assert c[i] == canon[i] && c[j] == canon[j];
      }
    }
  }

  /** After registering v, a key w still maps to the first canonical vertex near it. */
  lemma RegisterFirstNear(vmap: map<Point, Point>, canon: seq<Point>, tol: int, v: Point, w: Point)
    requires VertexMapOk(vmap, canon, tol) && v !in vmap && tol >= 0
    requires forall j :: 0 <= j < |canon| ==> !Near(v, canon[j], tol)
    requires w in vmap || w == v
    ensures FirstNear(canon + [v], w, tol, vmap[v := v][w])
  {
    var c := canon + [v];
    if w == v {
      assert c[|canon|] == v && Near(v, v, tol);
      assert forall j :: 0 <= j < |canon| ==> c[j] == canon[j];
    } else {
      assert FirstNear(canon, w, tol, vmap[w]);
      var i :| 0 <= i < |canon| && canon[i] == vmap[w] && Near(w, vmap[w], tol)
               && forall j :: 0 <= j < i ==> !Near(w, canon[j], tol);
      assert c[i] == vmap[w];
      assert forall j :: 0 <= j < i ==> c[j] == canon[j];
    }
  }

  /** Mapping a vertex to the first canonical vertex near it keeps the map consistent. */
  lemma MapKeepsMap(vmap: map<Point, Point>, canon: seq<Point>, tol: int, v: Point, i: int)
    requires VertexMapOk(vmap, canon, tol) && v !in vmap
    requires 0 <= i < |canon| && Near(v, canon[i], tol) && forall j :: 0 <= j < i ==> !Near(v, canon[j], tol)
    ensures VertexMapOk(vmap[v := canon[i]], canon, tol)
  {
  }

  /** The state of the `vertices` / `vertex_map` loop after the first k slots. */
  ghost predicate MapUpTo(segs: seq<Segment>, vmap: map<Point, Point>, vertices: seq<Point>, k: int, tol: int)
    requires 0 <= k <= 2 * |segs|
  {
    && VertexMapOk(vmap, vertices, tol)
    && vmap.Keys == SlotPoints(segs, k)
    && vertices == Registered(segs, k, tol)
  }

  /** One turn of the loop, for slot k: a vertex met before is skipped, a new one is mapped to
      the first registered vertex within tol or, with none, registered itself. */
  method VisitVertex(segs: seq<Segment>, k: int, vmap: map<Point, Point>, vertices: seq<Point>, tol: int)
    returns (vmap2: map<Point, Point>, vertices2: seq<Point>)
    requires 0 <= k < 2 * |segs| && MapUpTo(segs, vmap, vertices, k, tol)
    ensures MapUpTo(segs, vmap2, vertices2, k + 1, tol)
  {
    var v := EndAt(segs, k);
    assert SlotPoints(segs, k + 1) == SlotPoints(segs, k) + {v};
    vmap2, vertices2 := vmap, vertices;
    if v !in vmap {
      var i := FirstNearIndex(vertices, v, tol);
      if i != -1 {
        MapKeepsMap(vmap, vertices, tol, v, i);
        vmap2 := vmap[v := vertices[i]];
      } else {
        RegisterKeepsMap(vmap, vertices, tol, v);
        vertices2 := vertices + [v];
        vmap2 := vmap[v := v];
      }
    }
  }

  /** The `vertices` / `vertex_map` loop over every (segment, end) slot in order. */
  method BuildVertexMap(segs: seq<Segment>, tol: int) returns (vmap: map<Point, Point>, ghost canon: seq<Point>)
    ensures canon == Registered(segs, 2 * |segs|, tol)
    ensures VertexMapOk(vmap, canon, tol)
    ensures vmap.Keys == Endpoints(segs)
  {
    vmap := map[];
    var vertices: seq<Point> := [];
    var k := 0;
    while k < 2 * |segs|
      invariant 0 <= k <= 2 * |segs|
      invariant MapUpTo(segs, vmap, vertices, k, tol)
    {
      vmap, vertices := VisitVertex(segs, k, vmap, vertices, tol);
      k := k + 1;
    }
    canon := vertices;
  }

  /** The segment with both endpoints sent through the vertex map (`vertex_map.get(v, v)`). */
  function MapEnds(s: Segment, vmap: map<Point, Point>): (r: Segment)
    ensures r.attrs == s.attrs
    ensures Start(r) == (if Start(s) in vmap then vmap[Start(s)] else Start(s))
    ensures Finish(r) == (if Finish(s) in vmap then vmap[Finish(s)] else Finish(s))
  {
    var v1 := if Start(s) in vmap then vmap[Start(s)] else Start(s);
    var v2 := if Finish(s) in vmap then vmap[Finish(s)] else Finish(s);
    WithEnds(s, v1, v2)
  }

  /** What `merge_duplicate_vertices` promises: the canonical vertices are those registered in
      slot order, every output endpoint is a canonical vertex, canonical vertices are pairwise
      more than tol apart, an endpoint keeps its place exactly when it is canonical, and (for
      tol >= 0) it moves to the first registered canonical vertex within tol. */
  ghost predicate VertexMerged(segs: seq<Segment>, out: seq<Segment>, tol: int, canon: seq<Point>)
  {
    && canon == Registered(segs, 2 * |segs|, tol)
    && KeepsRecords(segs, out)
    && Separated(canon, tol)
    && (forall k :: 0 <= k < 2 * |segs| ==> EndAt(out, k) in canon)
    && (forall k :: 0 <= k < 2 * |segs| ==> (EndAt(out, k) == EndAt(segs, k) <==> EndAt(segs, k) in canon))
    && (tol >= 0 ==> forall k :: 0 <= k < 2 * |segs| ==> FirstNear(canon, EndAt(segs, k), tol, EndAt(out, k)))
    && (tol < 0 ==> forall k :: 0 <= k < 2 * |segs| ==> EndAt(out, k) == EndAt(segs, k))
  }

  /** `merge_duplicate_vertices(segments, tolerance)`. */
  method MergeDuplicateVertices(segs: seq<Segment>, tol: int) returns (out: seq<Segment>, ghost canon: seq<Point>)
    ensures VertexMerged(segs, out, tol, canon)
  {
    var vmap;
    vmap, canon := BuildVertexMap(segs, tol);
    out := [];
    var i := 0;
    while i < |segs|
      invariant 0 <= i <= |segs| && |out| == i
      invariant forall j :: 0 <= j < i ==> out[j] == MapEnds(segs[j], vmap)
    {
      out := out + [MapEnds(segs[i], vmap)];
      i := i + 1;
    }
    assert KeepsRecords(segs, out);
    MappedEnds(segs, out, vmap);
    MergedThroughMap(segs, out, vmap, canon, tol);
  }

  /** Sending every segment through a map that holds every endpoint sends each slot's endpoint
      through it. */
  lemma MappedEnds(segs: seq<Segment>, out: seq<Segment>, vmap: map<Point, Point>)
    requires vmap.Keys == Endpoints(segs)
    requires |out| == |segs| && forall j :: 0 <= j < |segs| ==> out[j] == MapEnds(segs[j], vmap)
    ensures forall k :: 0 <= k < 2 * |segs| ==> EndAt(segs, k) in vmap && EndAt(out, k) == vmap[EndAt(segs, k)]
  {
    forall k | 0 <= k < 2 * |segs|
      ensures EndAt(segs, k) in vmap && EndAt(out, k) == vmap[EndAt(segs, k)]
    {
      assert EndAt(segs, k) in Endpoints(segs);
    }
  }

  /** A consistent vertex map over the registered vertices gives the merge its promises. */
  lemma MergedThroughMap(segs: seq<Segment>, out: seq<Segment>, vmap: map<Point, Point>, canon: seq<Point>, tol: int)
    requires canon == Registered(segs, 2 * |segs|, tol) && VertexMapOk(vmap, canon, tol)
    requires KeepsRecords(segs, out)
    requires forall k :: 0 <= k < 2 * |segs| ==> EndAt(segs, k) in vmap && EndAt(out, k) == vmap[EndAt(segs, k)]
    ensures VertexMerged(segs, out, tol, canon)
  {
  }

  /** An endpoint with no other endpoint of the list within tol keeps its place. */
  lemma IsolatedEndpointKept(segs: seq<Segment>, out: seq<Segment>, tol: int, canon: seq<Point>, k: int)
    requires VertexMerged(segs, out, tol, canon) && 0 <= k < 2 * |segs|
    requires forall m :: 0 <= m < 2 * |segs| && EndAt(segs, m) != EndAt(segs, k) ==> !Near(EndAt(segs, k), EndAt(segs, m), tol)
    ensures EndAt(out, k) == EndAt(segs, k)
  {
    if tol >= 0 {
      var v, w := EndAt(segs, k), EndAt(out, k);
      assert FirstNear(canon, v, tol, w);
      RegisteredFromInput(segs, 2 * |segs|, tol);
      assert w in SlotPoints(segs, 2 * |segs|);
      var m :| 0 <= m < 2 * |segs| && EndAt(segs, m) == w;
    }
  }

  // ---------- merge_stairs_to_walls ----------

  /** One stair endpoint v after `merge_stairs_to_walls`, with the wall vertices enumerated in
      the set's iteration order: the first of them within tol if there is one, else v itself. */
  ghost predicate MergedToWalls(v: Point, w: Point, order: seq<Point>, tol: int)
  {
    if NearNone(order, v, tol) then w == v else FirstNear(order, v, tol, w)
  }

  /** `merge_stairs_to_walls(stairs, walls, tolerance)`. Every endpoint scans the one set
      `wall_vertices`, so one enumeration `order` of it serves all of them. */
  method MergeStairsToWalls(stairs: seq<Segment>, walls: seq<Segment>, tol: int)
    returns (out: seq<Segment>, ghost order: seq<Point>)
    ensures Enumerates(order, Endpoints(walls))
    ensures KeepsRecords(stairs, out)
    ensures forall i :: 0 <= i < |stairs| ==>
              && MergedToWalls(Start(stairs[i]), Start(out[i]), order, tol)
              && MergedToWalls(Finish(stairs[i]), Finish(out[i]), order, tol)
  {
    var verts := SetToSeq(Endpoints(walls));
    order := verts;
    out := [];
    var i := 0;
    while i < |stairs|
      invariant 0 <= i <= |stairs| && |out| == i
      invariant forall j :: 0 <= j < i ==> out[j].attrs == stairs[j].attrs
      invariant forall j :: 0 <= j < i ==>
                  && MergedToWalls(Start(stairs[j]), Start(out[j]), verts, tol)
                  && MergedToWalls(Finish(stairs[j]), Finish(out[j]), verts, tol)
    {
      var stair := stairs[i];
      var v1, v2 := Start(stair), Finish(stair);
      var i1 := FirstNearIndex(verts, v1, tol);
      var i2 := FirstNearIndex(verts, v2, tol);
      var m1 := if i1 == -1 then v1 else verts[i1];
      var m2 := if i2 == -1 then v2 else verts[i2];
      out := out + [WithEnds(stair, m1, m2)];
      i := i + 1;
    }
  }

  /** After merging, a stair vertex either coincides with a wall vertex or is farther than tol
      from all of them. */
  lemma MergedToWallsExclusive(v: Point, w: Point, order: seq<Point>, tol: int)
    requires MergedToWalls(v, w, order, tol)
    ensures w in order || NearNone(order, w, tol)
  {
  }

  /** The same stair vertex is always sent to the same place, so a corner shared by two stairs
      stays shared. */
  lemma MergedToWallsConsistent(v: Point, w1: Point, w2: Point, order: seq<Point>, tol: int)
    requires MergedToWalls(v, w1, order, tol) && MergedToWalls(v, w2, order, tol)
    ensures w1 == w2
  {
    if !NearNone(order, v, tol) {
      FirstNearUnique(order, v, tol, w1, w2);
    }
  }

  // ---------- fix_wall_endpoints ----------

  /** One wall brought onto its own axis: a mostly vertical wall gets both x's set to their
      floored mean, any other wall both y's. */
  function SelfCorrect(w: Segment): (r: Segment)
    ensures r.attrs == w.attrs
    ensures Abs(w.x1 - w.x2) < Abs(w.y1 - w.y2) ==>
              r.x1 == r.x2 == (w.x1 + w.x2) / 2 && r.y1 == w.y1 && r.y2 == w.y2
    ensures Abs(w.x1 - w.x2) >= Abs(w.y1 - w.y2) ==>
              r.y1 == r.y2 == (w.y1 + w.y2) / 2 && r.x1 == w.x1 && r.x2 == w.x2
  {
    if Abs(w.x1 - w.x2) < Abs(w.y1 - w.y2) then
      var avg := (w.x1 + w.x2) / 2;
      Segment(avg, w.y1, avg, w.y2, w.attrs)
    else
      var avg := (w.y1 + w.y2) / 2;
      Segment(w.x1, avg, w.x2, avg, w.attrs)
  }

  /** The floored mean lies between the two values, so the corrected wall stays within the
      original's bounding box; and correcting twice is correcting once. */
  lemma SelfCorrectProperties(w: Segment)
    ensures var r := SelfCorrect(w);
            && (w.x1 <= r.x1 <= w.x2 || w.x2 <= r.x1 <= w.x1)
            && (w.y1 <= r.y1 <= w.y2 || w.y2 <= r.y1 <= w.y1)
    ensures SelfCorrect(SelfCorrect(w)) == SelfCorrect(w)
  {
  }

  /** `fix_wall_endpoints(walls_data)` of pipeline_snap.py. */
  method FixWallEndpoints(walls: seq<Segment>) returns (out: seq<Segment>)
    ensures |walls| == 0 ==> out == walls
    ensures |out| == |walls| && forall i :: 0 <= i < |walls| ==> out[i] == SelfCorrect(walls[i])
  {
    if |walls| == 0 {
      return walls;
    }
    out := [];
    var i := 0;
    while i < |walls|
      invariant 0 <= i <= |walls| && |out| == i
      invariant forall j :: 0 <= j < i ==> out[j] == SelfCorrect(walls[j])
    {
      out := out + [SelfCorrect(walls[i])];
      i := i + 1;
    }
  }

  /** Running the correction on its own output changes nothing. */
  lemma FixWallEndpointsIdempotent(walls: seq<Segment>, once: seq<Segment>, twice: seq<Segment>)
    requires |once| == |walls| && forall i :: 0 <= i < |walls| ==> once[i] == SelfCorrect(walls[i])
    requires |twice| == |once| && forall i :: 0 <= i < |once| ==> twice[i] == SelfCorrect(once[i])
    ensures twice == once
  {
    forall i | 0 <= i < |walls| ensures twice[i] == once[i] {
      SelfCorrectProperties(walls[i]);
    }
  }

  // ---------- snap_stairs_to_walls ----------

  /** The two-priority snap of one stair endpoint p, with the wall endpoints enumerated in the
      set's iteration order: the first nearest of them closer than eThr; failing that, the
      truncated projection onto the first nearest wall closer than lThr; failing that, p. */
  ghost predicate PrioritySnap(walls: seq<Segment>, order: seq<Point>, p: Point, eThr: real, lThr: real, q: Point)
  {
    if exists j :: 0 <= j < |order| && Admits(Below(eThr), DistSq(p, order[j]) as real) then
      exists i :: IsFirstNearestPoint(order, p, Below(eThr), i) && q == order[i]
    else if NoneAdmitted(walls, p, {}, false, Below(lThr)) then
      q == p
    else
      exists j :: 0 <= j < |walls| && IsFirstNearest(walls, p, {}, false, Below(lThr), j)
                  && q == TruncPoint(ProjectPointOnSegment(p, Start(walls[j]), Finish(walls[j])))
  }

  /** The snap of a point is determined by the walls and the enumeration. */
  lemma PrioritySnapDeterministic(walls: seq<Segment>, order: seq<Point>, p: Point, eThr: real, lThr: real,
                                  q1: Point, q2: Point)
    requires PrioritySnap(walls, order, p, eThr, lThr, q1) && PrioritySnap(walls, order, p, eThr, lThr, q2)
    ensures q1 == q2
  {
    if exists j :: 0 <= j < |order| && Admits(Below(eThr), DistSq(p, order[j]) as real) {
      var i1 :| IsFirstNearestPoint(order, p, Below(eThr), i1) && q1 == order[i1];
      var i2 :| IsFirstNearestPoint(order, p, Below(eThr), i2) && q2 == order[i2];
      FirstNearestPointUnique(order, p, Below(eThr), i1, i2);
    } else if !NoneAdmitted(walls, p, {}, false, Below(lThr)) {
      var j1 :| 0 <= j1 < |walls| && IsFirstNearest(walls, p, {}, false, Below(lThr), j1)
                && q1 == TruncPoint(ProjectPointOnSegment(p, Start(walls[j1]), Finish(walls[j1])));
      var j2 :| 0 <= j2 < |walls| && IsFirstNearest(walls, p, {}, false, Below(lThr), j2)
                && q2 == TruncPoint(ProjectPointOnSegment(p, Start(walls[j2]), Finish(walls[j2])));
      FirstNearestUnique(walls, p, {}, false, Below(lThr), j1, j2);
    }
  }

  /** Snapping one endpoint (one half of the per-stair loop body). */
  method SnapPoint(walls: seq<Segment>, order: seq<Point>, p: Point, eThr: real, lThr: real) returns (q: Point)
    ensures PrioritySnap(walls, order, p, eThr, lThr, q)
  {
    var e := FirstNearestPoint(order, p, Below(eThr));
    if e != -1 {
      q := order[e];
    } else {
      var best := FirstNearestSegment(walls, p, {}, false, Below(lThr));
      if best == -1 {
        q := p;
      } else {
        q := TruncPoint(ProjectPointOnSegment(p, Start(walls[best]), Finish(walls[best])));
      }
    }
  }

  /** One stair after the snapping loop: same record, both endpoints snapped by priority. */
  ghost predicate StairSnapped(walls: seq<Segment>, order: seq<Point>, s: Segment, r: Segment, eThr: real, lThr: real)
  {
    && r.attrs == s.attrs
    && PrioritySnap(walls, order, Start(s), eThr, lThr, Start(r))
    && PrioritySnap(walls, order, Finish(s), eThr, lThr, Finish(r))
  }

  /** The per-stair loop of `snap_stairs_to_walls`, scanning the wall endpoints in one order. */
  method SnapEndpoints(stairs: seq<Segment>, walls: seq<Segment>, order: seq<Point>, eThr: real, lThr: real)
    returns (out: seq<Segment>)
    ensures |out| == |stairs|
    ensures forall i :: 0 <= i < |stairs| ==> StairSnapped(walls, order, stairs[i], out[i], eThr, lThr)
  {
    out := [];
    var i := 0;
    while i < |stairs|
      invariant 0 <= i <= |stairs| && |out| == i
      invariant forall j :: 0 <= j < i ==> StairSnapped(walls, order, stairs[j], out[j], eThr, lThr)
    {
      var stair := stairs[i];
      var q1 := SnapPoint(walls, order, Start(stair), eThr, lThr);
      var q2 := SnapPoint(walls, order, Finish(stair), eThr, lThr);
      var r := WithEnds(stair, q1, q2);
      assert StairSnapped(walls, order, stair, r, eThr, lThr);
      out := out + [r];
      i := i + 1;
    }
  }

  /** Threshold of the straightening step. */
  const StraightenTolerance: int := 10
  /** Threshold of the duplicate-vertex merge. */
  const DuplicateTolerance: int := 2
  /** Threshold of the merge onto wall vertices. */
  const WallVertexTolerance: int := 5

  /** `snap_stairs_to_walls(stairs_data, walls_data, endpoint_threshold, line_threshold)`:
      with no stairs or no walls the stairs come back as given; otherwise every endpoint is
      snapped by priority, then the stairs are straightened (10), their near-duplicate vertices
      merged (2) and their vertices merged onto wall vertices (5). The ghost outputs are the
      intermediate lists, the canonical vertices of the duplicate merge, and the iteration
      orders of `wall_endpoints` and of `wall_vertices`. Walls are only read. */
  method SnapStairsToWalls(stairs: seq<Segment>, walls: seq<Segment>, eThr: real, lThr: real)
    returns (out: seq<Segment>, ghost snapped: seq<Segment>, ghost straight: seq<Segment>,
             ghost merged: seq<Segment>, ghost canon: seq<Point>,
             ghost endOrder: seq<Point>, ghost vertOrder: seq<Point>)
    ensures |stairs| == 0 || |walls| == 0 ==> out == stairs
    ensures |stairs| > 0 && |walls| > 0 ==>
              && Enumerates(endOrder, Endpoints(walls))
              && |snapped| == |stairs|
              && (forall i :: 0 <= i < |stairs| ==> StairSnapped(walls, endOrder, stairs[i], snapped[i], eThr, lThr))
              && |straight| == |snapped|
              && (forall i :: 0 <= i < |snapped| ==> straight[i] == StraightenOne(snapped[i], StraightenTolerance))
              && VertexMerged(straight, merged, DuplicateTolerance, canon)
              && Enumerates(vertOrder, Endpoints(walls))
              && KeepsRecords(merged, out)
              && (forall i :: 0 <= i < |merged| ==>
                    && MergedToWalls(Start(merged[i]), Start(out[i]), vertOrder, WallVertexTolerance)
                    && MergedToWalls(Finish(merged[i]), Finish(out[i]), vertOrder, WallVertexTolerance))
    ensures KeepsRecords(stairs, out)
  {
    if |stairs| == 0 || |walls| == 0 {
      return stairs, stairs, stairs, stairs, [], [], [];
    }
    var ends := SetToSeq(Endpoints(walls));
    endOrder := ends;
    var cur := SnapEndpoints(stairs, walls, ends, eThr, lThr);
    snapped := cur;
    var s := StraightenStairLines(cur, StraightenTolerance);
    straight := s;
    var m;
    m, canon := MergeDuplicateVertices(s, DuplicateTolerance);
    merged := m;
    out, vertOrder := MergeStairsToWalls(m, walls, WallVertexTolerance);
  }
}
