/** Extension of free endpoints: an endpoint that no other segment shares is moved onto the
    nearest other segment, along the axis its own segment mostly runs in. */
module Extend {
  import opened Numeric
  import opened Geometry
  import opened Search

  /** `keep_axis='x'` or `keep_axis='y'`. */
  datatype Axis = KeepX | KeepY

  /** The cases in which `find_line_intersection` gives the point back unchanged: a zero-length
      target, a horizontal target when x is kept, or a vertical target when y is kept. */
  predicate NoCrossing(a: Point, b: Point, keep: Axis)
  {
    a == b || (keep == KeepX && a.y == b.y) || (keep == KeepY && a.x == b.x)
  }

  /** The parameter of the crossing on the line ab: where its x (y) equals p's, or 0 when the
      target runs along the direction the point may move in (vertical when x is kept, horizontal
      when y is kept); clamped to [0, 1] on request. */
  function CrossParam(a: Point, b: Point, p: Point, keep: Axis, clamp: bool): real
  {
    var t := match keep
      case KeepX => if b.x - a.x != 0 then (p.x - a.x) as real / (b.x - a.x) as real else 0.0
      case KeepY => if b.y - a.y != 0 then (p.y - a.y) as real / (b.y - a.y) as real else 0.0;
    if clamp then Clamp01(t) else t
  }

  /** `find_line_intersection(x1, y1, x2, y2, px, py, keep_axis, clamp_to_segment)`. */
  function FindLineIntersection(a: Point, b: Point, p: Point, keep: Axis, clamp: bool): (r: Point)
    ensures NoCrossing(a, b, keep) ==> r == p
    ensures !NoCrossing(a, b, keep) ==> r == RoundPoint(Lerp(a, b, CrossParam(a, b, p, keep, clamp)))
    ensures !NoCrossing(a, b, keep) && clamp ==> 0.0 <= CrossParam(a, b, p, keep, clamp) <= 1.0
  {
    var dx := b.x - a.x;
    var dy := b.y - a.y;
    if dx == 0 && dy == 0 then p
    else if keep == KeepX && dy == 0 then p
    else if keep == KeepY && dx == 0 then p
    else RoundPoint(Lerp(a, b, CrossParam(a, b, p, keep, clamp)))
  }

  /** Keeping x, a vertical target yields its first endpoint; keeping y, so does a horizontal one. */
  lemma AlongTargetGivesStart(a: Point, b: Point, p: Point, keep: Axis, clamp: bool)
    requires !NoCrossing(a, b, keep)
    requires (keep == KeepX && a.x == b.x) || (keep == KeepY && a.y == b.y)
    ensures FindLineIntersection(a, b, p, keep, clamp) == a
  {
    RoundPointOfInt(a);
  }

  /** A mostly vertical wall ending at (0, 100) meets the horizontal wall from (-50, 120) to
      (50, 120): keeping x, the endpoint is not moved onto y = 120 but stays where it is. */
  lemma HorizontalTargetKeepingX()
    ensures FindLineIntersection(Point(-50, 120), Point(50, 120), Point(0, 100), KeepX, false) == Point(0, 100)
  {
  }

  /** The y of the point with the given x on the line through a and b (a.x != b.x). */
  function LineYAt(a: Point, b: Point, x: int): real
    requires a.x != b.x
  {
    a.y as real + (x - a.x) as real * (b.y - a.y) as real / (b.x - a.x) as real
  }

  /** The x of the point with the given y on the line through a and b (a.y != b.y). */
  function LineXAt(a: Point, b: Point, y: int): real
    requires a.y != b.y
  {
    a.x as real + (y - a.y) as real * (b.x - a.x) as real / (b.y - a.y) as real
  }

  /** Without clamping, keeping x on a slanted target keeps x exactly and solves the line
      equation for y. */
  lemma CrossingKeepsX(a: Point, b: Point, p: Point)
    requires a.x != b.x && a.y != b.y
    ensures FindLineIntersection(a, b, p, KeepX, false) == Point(p.x, RoundHalfEven(LineYAt(a, b, p.x)))
  {
    var dx, dy := (b.x - a.x) as real, (b.y - a.y) as real;
    var t := CrossParam(a, b, p, KeepX, false);
    assert t == (p.x - a.x) as real / dx;
    ScaleRatio((p.x - a.x) as real, dx, dy);
    assert Lerp(a, b, t).x == p.x as real;
    assert Lerp(a, b, t).y == LineYAt(a, b, p.x);
    RoundHalfEvenOfInt(p.x);
  }

  /** Without clamping, keeping y on a slanted target keeps y exactly and solves the line
      equation for x. */
  lemma CrossingKeepsY(a: Point, b: Point, p: Point)
    requires a.x != b.x && a.y != b.y
    ensures FindLineIntersection(a, b, p, KeepY, false) == Point(RoundHalfEven(LineXAt(a, b, p.y)), p.y)
  {
    var dx, dy := (b.x - a.x) as real, (b.y - a.y) as real;
    var t := CrossParam(a, b, p, KeepY, false);
    assert t == (p.y - a.y) as real / dy;
    ScaleRatio((p.y - a.y) as real, dy, dx);
    assert Lerp(a, b, t).y == p.y as real;
    assert Lerp(a, b, t).x == LineXAt(a, b, p.y);
    RoundHalfEvenOfInt(p.y);
  }

  lemma ScaleRatio(q: real, d: real, e: real)
    requires d != 0.0
    ensures (q / d) * d == q && (q / d) * e == q * e / d
  {
  }

  /** With clamping, the crossing is (the rounding of) a point of the segment. */
  lemma ClampedCrossingOnSegment(a: Point, b: Point, p: Point, keep: Axis)
    requires !NoCrossing(a, b, keep)
    ensures exists t :: 0.0 <= t <= 1.0 && FindLineIntersection(a, b, p, keep, true) == RoundPoint(Lerp(a, b, t))
  {
    var t := CrossParam(a, b, p, keep, true);
    assert 0.0 <= t <= 1.0 && FindLineIntersection(a, b, p, keep, true) == RoundPoint(Lerp(a, b, t));
  }

  /** The new position of slot k's endpoint p once `target` has won the search: by the owning
      segment's orientation, the crossing keeping x (mostly vertical), keeping y (mostly
      horizontal), or the truncated nearest point of the target (diagonal). */
  function SnapTarget(owner: Segment, atStart: bool, target: Segment): (r: Point)
    ensures var p := if atStart then Start(owner) else Finish(owner);
            var o := if atStart then Finish(owner) else Start(owner);
            && (Abs(o.x - p.x) < Abs(o.y - p.y) ==> r == FindLineIntersection(Start(target), Finish(target), p, KeepX, false))
            && (Abs(o.y - p.y) < Abs(o.x - p.x) ==> r == FindLineIntersection(Start(target), Finish(target), p, KeepY, false))
            && (Abs(o.x - p.x) == Abs(o.y - p.y) ==> r == TruncPoint(ProjectPointOnSegment(p, Start(target), Finish(target))))
  {
    var p := if atStart then Start(owner) else Finish(owner);
    var o := if atStart then Finish(owner) else Start(owner);
    var dx, dy := o.x - p.x, o.y - p.y;
    if Abs(dx) < Abs(dy) then FindLineIntersection(Start(target), Finish(target), p, KeepX, false)
    else if Abs(dy) < Abs(dx) then FindLineIntersection(Start(target), Finish(target), p, KeepY, false)
    else TruncPoint(ProjectPointOnSegment(p, Start(target), Finish(target)))
  }

  /** A mostly vertical owner keeps the endpoint's x unless the target is vertical, in which case
      the endpoint goes to the target's first endpoint; the mirror holds for a mostly
      horizontal owner. */
  lemma SnapKeepsAxis(owner: Segment, atStart: bool, target: Segment)
    ensures var p := if atStart then Start(owner) else Finish(owner);
            var o := if atStart then Finish(owner) else Start(owner);
            var r := SnapTarget(owner, atStart, target);
            && (Abs(o.x - p.x) < Abs(o.y - p.y) && target.x1 != target.x2 ==> r.x == p.x)
            && (Abs(o.x - p.x) < Abs(o.y - p.y) && target.x1 == target.x2 && target.y1 != target.y2 ==> r == Start(target))
            && (Abs(o.y - p.y) < Abs(o.x - p.x) && target.y1 != target.y2 ==> r.y == p.y)
            && (Abs(o.y - p.y) < Abs(o.x - p.x) && target.y1 == target.y2 && target.x1 != target.x2 ==> r == Start(target))
  {
    var p := if atStart then Start(owner) else Finish(owner);
    var a, b := Start(target), Finish(target);
    if a.x != b.x && a.y != b.y {
      CrossingKeepsX(a, b, p);
      CrossingKeepsY(a, b, p);
    }
    if a.x == b.x && a.y != b.y {
      AlongTargetGivesStart(a, b, p, KeepX, false);
    }
    if a.y == b.y && a.x != b.x {
      AlongTargetGivesStart(a, b, p, KeepY, false);
    }
  }

  /** One step for free slot k over the current list: either no other non-degenerate segment is
      closer than snap and nothing changes, or the first nearest such segment j is the target and
      only slot k moves. */
  predicate Moved(before: seq<Segment>, after: seq<Segment>, k: int, snap: real)
    requires 0 <= k < 2 * |before|
  {
    var p := EndAt(before, k);
    || (NoneAdmitted(before, p, {k / 2}, true, Below(snap)) && after == before)
    || (exists j :: 0 <= j < |before| && IsFirstNearest(before, p, {k / 2}, true, Below(snap), j)
                    && after == SetEndAt(before, k, SnapTarget(before[k / 2], k % 2 == 0, before[j])))
  }

  /** The processing of one free endpoint (the body of the loop over `free_endpoints`). */
  method ExtendAt(lines: seq<Segment>, k: int, snap: real) returns (out: seq<Segment>)
    requires 0 <= k < 2 * |lines|
    ensures Moved(lines, out, k, snap)
    ensures KeepsRecords(lines, out)
    ensures forall m :: 0 <= m < 2 * |lines| && m != k ==> EndAt(out, m) == EndAt(lines, m)
  {
    var owner := k / 2;
    var line := lines[owner];
    var atStart := k % 2 == 0;
    var p := if atStart then Start(line) else Finish(line);
    var best := FirstNearestSegment(lines, p, {owner}, true, Below(snap));
    if best == -1 {
      out := lines;
    } else {
      out := SetEndAt(lines, k, SnapTarget(line, atStart, lines[best]));
    }
  }

  /** Slot k's turn, from states[k] to states[k + 1], as the final list records it: the slot
      still holds its original point when its turn comes, keeps the point its turn gives it, and
      its turn is a Moved step when it is free and changes nothing otherwise. */
  ghost predicate StepOk(linesData: seq<Segment>, states: seq<seq<Segment>>, lines: seq<Segment>, k: int, snap: real)
    requires 0 <= k < 2 * |linesData| && k + 1 < |states| && |lines| == |linesData|
  {
    && |states[k]| == |linesData| && |states[k + 1]| == |linesData|
    && EndAt(states[k], k) == EndAt(linesData, k)
    && EndAt(lines, k) == EndAt(states[k + 1], k)
    && (if IsFree(linesData, k) then Moved(states[k], states[k + 1], k, snap) else states[k + 1] == states[k])
  }

  /** Slot k's turn over the current list: a free slot gets a Moved step, any other slot none. */
  method VisitSlot(linesData: seq<Segment>, uses: map<Point, seq<int>>, lines: seq<Segment>, k: int, snap: real)
    returns (next: seq<Segment>)
    requires 0 <= k < 2 * |linesData| && |lines| == |linesData|
    requires uses.Keys == Endpoints(linesData)
    requires forall p :: p in uses ==> uses[p] == SlotsOf(linesData, p, 2 * |linesData|)
    ensures KeepsRecords(lines, next)
    ensures forall m :: 0 <= m < 2 * |lines| && m != k ==> EndAt(next, m) == EndAt(lines, m)
    ensures if IsFree(linesData, k) then Moved(lines, next, k, snap) else next == lines
  {
    var p := EndAt(linesData, k);
    assert p in Endpoints(linesData);
    SingleUseIsFree(linesData, k);
    next := lines;
    if |uses[p]| == 1 {
      next := ExtendAt(lines, k, snap);
    }
  }

  /** Every slot before n has had a StepOk turn. */
  ghost predicate StepsOk(linesData: seq<Segment>, states: seq<seq<Segment>>, lines: seq<Segment>, n: int, snap: real)
    requires 0 <= n <= 2 * |linesData| && n < |states| && |lines| == |linesData|
  {
    forall m :: 0 <= m < n ==> StepOk(linesData, states, lines, m, snap)
  }

  /** Appending slot k's result keeps the earlier turns valid, since they never look at slot k's
      final point through anything but states before it. */
  lemma StepsOkSnoc(linesData: seq<Segment>, states: seq<seq<Segment>>, lines: seq<Segment>, next: seq<Segment>,
                    k: int, snap: real)
    requires 0 <= k < 2 * |linesData| && |states| == k + 1 && states[k] == lines
    requires |lines| == |linesData| && |next| == |linesData|
    requires StepsOk(linesData, states, lines, k, snap)
    requires forall m :: 0 <= m < 2 * |lines| && m != k ==> EndAt(next, m) == EndAt(lines, m)
    requires EndAt(lines, k) == EndAt(linesData, k)
    requires if IsFree(linesData, k) then Moved(lines, next, k, snap) else next == lines
    ensures StepsOk(linesData, states + [next], next, k + 1, snap)
  {
    var s2 := states + [next];
    forall m | 0 <= m < k + 1 ensures StepOk(linesData, s2, next, m, snap) {
      assert s2[m] == states[m] && s2[m + 1] == (if m < k then states[m + 1] else next);
      if m < k {
        assert StepOk(linesData, states, lines, m, snap);
      }
    }
  }

  /** `extend_endpoints(lines_data, snap_distance)`. The free endpoints are visited in slot order
      (segment by segment, start before end), which is the insertion order of the usage map; each
      step works on the list as left by the previous ones. `states` records the list before each
      slot's turn. */
  method ExtendEndpoints(linesData: seq<Segment>, snap: real) returns (lines: seq<Segment>, ghost states: seq<seq<Segment>>)
    ensures |linesData| == 0 ==> lines == linesData
    ensures KeepsRecords(linesData, lines)
    ensures forall k :: 0 <= k < 2 * |linesData| && !IsFree(linesData, k) ==> EndAt(lines, k) == EndAt(linesData, k)
    ensures |states| == 2 * |linesData| + 1 && states[0] == linesData && states[2 * |linesData|] == lines
    ensures forall k :: 0 <= k < 2 * |linesData| ==> StepOk(linesData, states, lines, k, snap)
  {
    lines := linesData;
    states := [linesData];
    if |linesData| == 0 {
      return;
    }
    var uses := EndpointUses(linesData);
    var k := 0;
    while k < 2 * |linesData|
      invariant 0 <= k <= 2 * |linesData|
      invariant KeepsRecords(linesData, lines)
      invariant |states| == k + 1 && states[0] == linesData && states[k] == lines
      invariant forall m :: k <= m < 2 * |linesData| ==> EndAt(lines, m) == EndAt(linesData, m)
      invariant forall m :: 0 <= m < k && !IsFree(linesData, m) ==> EndAt(lines, m) == EndAt(linesData, m)
      invariant StepsOk(linesData, states, lines, k, snap)
    {
      var next := VisitSlot(linesData, uses, lines, k, snap);
      StepsOkSnoc(linesData, states, lines, next, k, snap);
      lines := next;
      states := states + [lines];
      k := k + 1;
    }
    assert StepsOk(linesData, states, lines, 2 * |linesData|, snap);
  }
}
