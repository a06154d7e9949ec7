/** Points, segment records and the distance helpers shared by the snapping passes
    (`distance_point_to_point`, `project_point_on_segment`, `distance_point_to_segment`).
    Distances are kept squared: every use of `math.sqrt` in the source only compares a
    distance with a threshold or with another distance, and for d >= 0
      sqrt(d) <= tol  iff  tol >= 0 && d <= tol * tol      (WithinDist)
      sqrt(d) <  thr  iff  thr > 0  && d <  thr * thr      (CloserThan)
      sqrt(d) <  sqrt(e)  iff  d < e. */
module Geometry {
  import opened Numeric

  /** An integer pixel position, as the `(x, y)` tuples of the source. */
  datatype Point = Point(x: int, y: int)

  /** A position with float coordinates (a projection, a midpoint, a centroid). */
  datatype RPoint = RPoint(x: real, y: real)

  /** The value of a non-coordinate key of a JSON record. */
  datatype Value = IntVal(i: int) | StrVal(s: string) | BoolVal(b: bool) | NullVal

  /** The keys of a record other than x1, y1, x2, y2. */
  type Attrs = map<string, Value>

  /** A wall or stair record `{x1, y1, x2, y2, ...}`. */
  datatype Segment = Segment(x1: int, y1: int, x2: int, y2: int, attrs: Attrs)

  function Start(s: Segment): Point { Point(s.x1, s.y1) }

  function Finish(s: Segment): Point { Point(s.x2, s.y2) }

  /** The record `s` with its two endpoints replaced and every other key kept. */
  function WithEnds(s: Segment, p: Point, q: Point): (r: Segment)
    ensures Start(r) == p && Finish(r) == q && r.attrs == s.attrs
  {
    Segment(p.x, p.y, q.x, q.y, s.attrs)
  }

  /** Endpoint slot k of a list: slot 2i is the start of segment i, slot 2i+1 its end. */
  function EndAt(segs: seq<Segment>, k: int): Point
    requires 0 <= k < 2 * |segs|
  {
    if k % 2 == 0 then Start(segs[k / 2]) else Finish(segs[k / 2])
  }

  /** The set of all endpoints of a list (the `wall_endpoints` / `wall_vertices` sets). */
  function Endpoints(segs: seq<Segment>): set<Point>
  {
    set k | 0 <= k < 2 * |segs| :: EndAt(segs, k)
  }

  lemma EndpointsMember(segs: seq<Segment>, p: Point)
    ensures p in Endpoints(segs) <==> exists i :: 0 <= i < |segs| && (Start(segs[i]) == p || Finish(segs[i]) == p)
  {
    if p in Endpoints(segs) {
      var k :| 0 <= k < 2 * |segs| && EndAt(segs, k) == p;
      assert Start(segs[k / 2]) == p || Finish(segs[k / 2]) == p;
    }
    if exists i :: 0 <= i < |segs| && (Start(segs[i]) == p || Finish(segs[i]) == p) {
      var i :| 0 <= i < |segs| && (Start(segs[i]) == p || Finish(segs[i]) == p);
      if Start(segs[i]) == p { assert EndAt(segs, 2 * i) == p; } else { assert EndAt(segs, 2 * i + 1) == p; }
    }
  }

  /** No point occurs twice in the list. */
  predicate Distinct(q: seq<Point>)
  {
    forall i, j :: 0 <= i < j < |q| ==> q[i] != q[j]
  }

  /** The list with the endpoint of slot k replaced by q; every other slot and every record's
      other keys are kept. */
  function SetEndAt(segs: seq<Segment>, k: int, q: Point): (r: seq<Segment>)
    requires 0 <= k < 2 * |segs|
    ensures |r| == |segs| && EndAt(r, k) == q
    ensures forall m :: 0 <= m < 2 * |segs| && m != k ==> EndAt(r, m) == EndAt(segs, m)
    ensures forall i :: 0 <= i < |segs| ==> r[i].attrs == segs[i].attrs
  {
    var s := segs[k / 2];
    segs[k / 2 := if k % 2 == 0 then WithEnds(s, q, Finish(s)) else WithEnds(s, Start(s), q)]
  }

  /** Same number of records, and every record keeps its non-coordinate keys. */
  predicate KeepsRecords(before: seq<Segment>, after: seq<Segment>)
  {
    |after| == |before| && forall i :: 0 <= i < |before| ==> after[i].attrs == before[i].attrs
  }

  function ToReal(p: Point): RPoint { RPoint(p.x as real, p.y as real) }

  /** `(int(x), int(y))` of a float position. */
  function TruncPoint(r: RPoint): Point { Point(Trunc(r.x), Trunc(r.y)) }

  lemma TruncPointOfInt(p: Point)
    ensures TruncPoint(ToReal(p)) == p
  {
    TruncOfInt(p.x);
    TruncOfInt(p.y);
  }

  /** `(int(round(x)), int(round(y)))` of a float position. */
  function RoundPoint(r: RPoint): Point { Point(RoundHalfEven(r.x), RoundHalfEven(r.y)) }

  lemma RoundPointOfInt(p: Point)
    ensures RoundPoint(ToReal(p)) == p
  {
    RoundHalfEvenOfInt(p.x);
    RoundHalfEvenOfInt(p.y);
  }

  /** The squared Euclidean distance of two integer points. */
  function DistSq(p: Point, q: Point): (d: int)
    ensures d >= 0
    ensures d == 0 <==> p == q
  {
    SquaresZero(p.x - q.x, p.y - q.y);
    (p.x - q.x) * (p.x - q.x) + (p.y - q.y) * (p.y - q.y)
  }

  lemma SquaresZero(a: int, b: int)
    ensures a * a + b * b >= 0
    ensures a * a + b * b == 0 <==> a == 0 && b == 0
  {
    if a != 0 { assert a * a > 0; }
    if b != 0 { assert b * b > 0; }
  }

  /** The squared Euclidean distance of two float points. */
  function RDistSq(p: RPoint, q: RPoint): (d: real)
    ensures d >= 0.0
  {
    (p.x - q.x) * (p.x - q.x) + (p.y - q.y) * (p.y - q.y)
  }

  lemma RDistSqOfInts(p: Point, q: Point)
    ensures RDistSq(ToReal(p), ToReal(q)) == DistSq(p, q) as real
  {
  }

  /** `distance <= tol`, for the squared distance dSq. */
  predicate WithinDist(dSq: real, tol: real)
  {
    tol >= 0.0 && dSq <= tol * tol
  }

  /** `distance < thr`, for the squared distance dSq. */
  predicate CloserThan(dSq: real, thr: real)
  {
    thr > 0.0 && dSq < thr * thr
  }

  /** Python's `max(0, min(1, t))`. */
  function Clamp01(t: real): (c: real)
    ensures 0.0 <= c <= 1.0
    ensures 0.0 <= t <= 1.0 ==> c == t
    ensures t < 0.0 ==> c == 0.0
    ensures t > 1.0 ==> c == 1.0
  {
    if t < 0.0 then 0.0 else if t > 1.0 then 1.0 else t
  }

  /** The point `a + t * (b - a)` of the line through a and b. */
  function Lerp(a: Point, b: Point, t: real): RPoint
  {
    RPoint(a.x as real + t * (b.x - a.x) as real, a.y as real + t * (b.y - a.y) as real)
  }

  /** The unclamped parameter of the foot of the perpendicular from p to the line ab. */
  function FootParam(p: Point, a: Point, b: Point): real
    requires a != b
  {
    ((p.x - a.x) * (b.x - a.x) + (p.y - a.y) * (b.y - a.y)) as real / DistSq(a, b) as real
  }

  /** The parameter t of the projection: 0 for a zero-length segment, else the foot clamped to [0, 1]. */
  function ProjectParam(p: Point, a: Point, b: Point): (t: real)
    ensures 0.0 <= t <= 1.0
  {
    if DistSq(b, a) == 0 then 0.0 else Clamp01(FootParam(p, a, b))
  }

  /** `project_point_on_segment(p, a, b)` (pipeline_snap.py): the start point for a zero-length
      segment, otherwise `a + t * (b - a)` with t clamped to [0, 1]; so always a point of the segment. */
  function ProjectPointOnSegment(p: Point, a: Point, b: Point): (r: RPoint)
    ensures a == b ==> r == ToReal(a)
    ensures r == Lerp(a, b, ProjectParam(p, a, b))
  {
    var lengthSq := (b.x - a.x) * (b.x - a.x) + (b.y - a.y) * (b.y - a.y);
    if lengthSq == 0 then ToReal(a)
    else
      var t := Clamp01(((p.x - a.x) * (b.x - a.x) + (p.y - a.y) * (b.y - a.y)) as real / lengthSq as real);
      Lerp(a, b, t)
  }

  /** The squared `distance_point_to_segment(p, a, b)`: the distance to the start point for a
      zero-length segment, else to the clamped foot. It is the distance to the projected point, and
      no point of the segment is nearer. */
  function DistSqPointToSegment(p: Point, a: Point, b: Point): (d: real)
    ensures d == RDistSq(ToReal(p), ProjectPointOnSegment(p, a, b))
    ensures forall s :: 0.0 <= s <= 1.0 ==> d <= RDistSq(ToReal(p), Lerp(a, b, s))
  {
    ProjectionIsNearestAll(p, a, b);
    var lengthSq := (b.x - a.x) * (b.x - a.x) + (b.y - a.y) * (b.y - a.y);
    if lengthSq == 0 then
      assert a == b by { SquaresZero(b.x - a.x, b.y - a.y); }
      RDistSqOfInts(p, a);
      DistSq(p, a) as real
    else
      var t := Clamp01(((p.x - a.x) * (b.x - a.x) + (p.y - a.y) * (b.y - a.y)) as real / lengthSq as real);
      assert Lerp(a, b, t) == ProjectPointOnSegment(p, a, b);
      RDistSq(ToReal(p), Lerp(a, b, t))
  }

  lemma ProjectionIsNearestAll(p: Point, a: Point, b: Point)
    ensures forall s :: 0.0 <= s <= 1.0 ==>
      RDistSq(ToReal(p), ProjectPointOnSegment(p, a, b)) <= RDistSq(ToReal(p), Lerp(a, b, s))
  {
    forall s | 0.0 <= s <= 1.0
      ensures RDistSq(ToReal(p), ProjectPointOnSegment(p, a, b)) <= RDistSq(ToReal(p), Lerp(a, b, s))
    {
      ProjectionIsNearest(p, a, b, s);
    }
  }

  /** The projection is the point of the segment nearest to p. */
  lemma ProjectionIsNearest(p: Point, a: Point, b: Point, s: real)
    requires 0.0 <= s <= 1.0
    ensures RDistSq(ToReal(p), ProjectPointOnSegment(p, a, b)) <= RDistSq(ToReal(p), Lerp(a, b, s))
  {
    if a != b {
      NearestOnLine(p, a, b, s);
    } else {
      assert Lerp(a, b, s) == ToReal(a);
    }
  }

  /** On a segment of non-zero length, the point at the projection parameter is at least as near
      to p as the point at any parameter s in [0, 1]. */
  lemma NearestOnLine(p: Point, a: Point, b: Point, s: real)
    requires a != b && 0.0 <= s <= 1.0
    ensures RDistSq(ToReal(p), Lerp(a, b, ProjectParam(p, a, b))) <= RDistSq(ToReal(p), Lerp(a, b, s))
  {
    LerpGap(p, a, b, s, ProjectParam(p, a, b));
    ProjectGapSign(p, a, b, s);
  }

  /** With t the projection parameter, the factored gap of `LerpGap` is never negative. */
  lemma ProjectGapSign(p: Point, a: Point, b: Point, s: real)
    requires a != b && 0.0 <= s <= 1.0
    ensures var t := ProjectParam(p, a, b);
            DistSq(a, b) as real * ((s - t) * (s + t - 2.0 * FootParam(p, a, b))) >= 0.0
  {
    ProjectParamClamps(p, a, b);
    GapSign(DistSq(a, b) as real, FootParam(p, a, b), s, ProjectParam(p, a, b));
  }

  /** For a segment of non-zero length, the projection parameter is the foot of the
      perpendicular clamped to [0, 1]. */
  lemma ProjectParamClamps(p: Point, a: Point, b: Point)
    requires a != b
    ensures ProjectParam(p, a, b) == Clamp01(FootParam(p, a, b))
  {
    assert DistSq(b, a) != 0;
  }

  /** The difference of the squared distances from p to the points of parameters s and t of
      the line ab, factored through the foot parameter. */
  lemma LerpGap(p: Point, a: Point, b: Point, s: real, t: real)
    requires a != b
    ensures RDistSq(ToReal(p), Lerp(a, b, s)) - RDistSq(ToReal(p), Lerp(a, b, t))
         == DistSq(a, b) as real * ((s - t) * (s + t - 2.0 * FootParam(p, a, b)))
  {
    LerpGapExpanded(p, a, b, s, t);
    RDistSqLerp(p, a, b, s);
    RDistSqLerp(p, a, b, t);
  }

  /** `LerpGap` with both squared distances written out. */
  lemma LerpGapExpanded(p: Point, a: Point, b: Point, s: real, t: real)
    requires a != b
    ensures ((p.x as real - (a.x as real + s * (b.x - a.x) as real)) * (p.x as real - (a.x as real + s * (b.x - a.x) as real))
           + (p.y as real - (a.y as real + s * (b.y - a.y) as real)) * (p.y as real - (a.y as real + s * (b.y - a.y) as real)))
          - ((p.x as real - (a.x as real + t * (b.x - a.x) as real)) * (p.x as real - (a.x as real + t * (b.x - a.x) as real))
           + (p.y as real - (a.y as real + t * (b.y - a.y) as real)) * (p.y as real - (a.y as real + t * (b.y - a.y) as real)))
         == DistSq(a, b) as real * ((s - t) * (s + t - 2.0 * FootParam(p, a, b)))
  {
    FootParamScaled(p, a, b);
    LineGap(p.x as real, p.y as real, a.x as real, a.y as real, (b.x - a.x) as real, (b.y - a.y) as real,
            DistSq(a, b) as real, FootParam(p, a, b), s, t);
  }

  /** The foot parameter times the squared length is the dot product of p - a and b - a. */
  lemma FootParamScaled(p: Point, a: Point, b: Point)
    requires a != b
    ensures DistSq(a, b) as real == (b.x - a.x) as real * (b.x - a.x) as real + (b.y - a.y) as real * (b.y - a.y) as real
    ensures FootParam(p, a, b) * DistSq(a, b) as real
         == (p.x as real - a.x as real) * (b.x - a.x) as real + (p.y as real - a.y as real) * (b.y - a.y) as real
  {
  }

  /** `LerpGap` on real coordinates: p = (px, py), the line through (ax, ay) with direction (dx, dy). */
  lemma LineGap(px: real, py: real, ax: real, ay: real, dx: real, dy: real, len: real, t0: real, s: real, t: real)
    requires len == dx * dx + dy * dy
    requires t0 * len == (px - ax) * dx + (py - ay) * dy
    ensures ((px - (ax + s * dx)) * (px - (ax + s * dx)) + (py - (ay + s * dy)) * (py - (ay + s * dy)))
          - ((px - (ax + t * dx)) * (px - (ax + t * dx)) + (py - (ay + t * dy)) * (py - (ay + t * dy)))
         == len * ((s - t) * (s + t - 2.0 * t0))
  {
    var wx, wy := px - ax, py - ay;
    assert px - (ax + s * dx) == wx - s * dx && py - (ay + s * dy) == wy - s * dy;
    assert px - (ax + t * dx) == wx - t * dx && py - (ay + t * dy) == wy - t * dy;
    DistanceGap(wx, wy, dx, dy, len, t0, s, t);
  }

  /** The squared distance from p to the point of parameter s of the line ab, written out. */
  lemma RDistSqLerp(p: Point, a: Point, b: Point, s: real)
    ensures RDistSq(ToReal(p), Lerp(a, b, s))
         == (p.x as real - (a.x as real + s * (b.x - a.x) as real)) * (p.x as real - (a.x as real + s * (b.x - a.x) as real))
          + (p.y as real - (a.y as real + s * (b.y - a.y) as real)) * (p.y as real - (a.y as real + s * (b.y - a.y) as real))
  {
  }

  /** f(s) - f(t) for f(u) = |w - u d|^2, factored. */
  lemma DistanceGap(wx: real, wy: real, dx: real, dy: real, len: real, t0: real, s: real, t: real)
    requires len == dx * dx + dy * dy
    requires t0 * len == wx * dx + wy * dy
    ensures ((wx - s * dx) * (wx - s * dx) + (wy - s * dy) * (wy - s * dy))
          - ((wx - t * dx) * (wx - t * dx) + (wy - t * dy) * (wy - t * dy))
         == len * ((s - t) * (s + t - 2.0 * t0))
  {
    calc {
      ((wx - s * dx) * (wx - s * dx) + (wy - s * dy) * (wy - s * dy))
        - ((wx - t * dx) * (wx - t * dx) + (wy - t * dy) * (wy - t * dy));
      (s * s - t * t) * (dx * dx + dy * dy) - 2.0 * (s - t) * (wx * dx + wy * dy);
      (s * s - t * t) * len - 2.0 * (s - t) * (t0 * len);
      len * ((s - t) * (s + t - 2.0 * t0));
    }
  }

  /** The clamped parameter t makes the factored gap non-negative for every s in [0, 1]. */
  lemma GapSign(len: real, t0: real, s: real, t: real)
    requires len > 0.0 && 0.0 <= s <= 1.0
    requires t == Clamp01(t0)
    ensures len * ((s - t) * (s + t - 2.0 * t0)) >= 0.0
  {
    var g := (s - t) * (s + t - 2.0 * t0);
    if t0 < 0.0 {
      assert s - t >= 0.0 && s + t - 2.0 * t0 > 0.0;
    } else if t0 > 1.0 {
      assert s - t <= 0.0 && s + t - 2.0 * t0 < 0.0;
    } else {
      assert g == (s - t0) * (s - t0);
    }
    assert g >= 0.0;
  }
}
