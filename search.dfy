/** The running-minimum searches of the snapping passes, written once and parameterised by
    what each caller skips and by its threshold. */
module Search {
  import opened Geometry

  /** The starting bound of a running minimum: a threshold (`best_dist = threshold`) or
      `float('inf')`, which every finite distance beats. */
  datatype Limit = NoLimit | Below(thr: real)

  /** `dist < limit`, for the squared distance dSq. */
  predicate Admits(limit: Limit, dSq: real)
  {
    match limit
    case NoLimit => true
    case Below(thr) => CloserThan(dSq, thr)
  }

  /** A zero-length segment, which `extend_endpoints` skips. */
  predicate Degenerate(s: Segment) { Start(s) == Finish(s) }

  /** Segment i takes part in the search: not excluded, and not skipped for being a point. */
  predicate Eligible(segs: seq<Segment>, i: int, skip: set<int>, skipDegenerate: bool)
    requires 0 <= i < |segs|
  {
    i !in skip && !(skipDegenerate && Degenerate(segs[i]))
  }

  function SegDist(segs: seq<Segment>, i: int, p: Point): real
    requires 0 <= i < |segs|
  {
    DistSqPointToSegment(p, Start(segs[i]), Finish(segs[i]))
  }

  /** No eligible segment beats the starting bound. */
  predicate NoneAdmitted(segs: seq<Segment>, p: Point, skip: set<int>, skipDegenerate: bool, limit: Limit)
  {
    forall i :: 0 <= i < |segs| && Eligible(segs, i, skip, skipDegenerate) ==> !Admits(limit, SegDist(segs, i, p))
  }

  /** Segment i is what a loop `if dist < best: best = dist; idx = i` ends with: it beats the bound,
      no eligible segment is nearer, and every earlier eligible segment is strictly farther. */
  predicate IsFirstNearest(segs: seq<Segment>, p: Point, skip: set<int>, skipDegenerate: bool, limit: Limit, i: int)
  {
    && 0 <= i < |segs|
    && Eligible(segs, i, skip, skipDegenerate)
    && Admits(limit, SegDist(segs, i, p))
    && forall j :: 0 <= j < |segs| && Eligible(segs, j, skip, skipDegenerate) ==>
         SegDist(segs, i, p) <= SegDist(segs, j, p) && (j < i ==> SegDist(segs, i, p) < SegDist(segs, j, p))
  }

  /** At most one segment is the first nearest one. */
  lemma FirstNearestUnique(segs: seq<Segment>, p: Point, skip: set<int>, skipDegenerate: bool, limit: Limit, i: int, j: int)
    requires IsFirstNearest(segs, p, skip, skipDegenerate, limit, i)
    requires IsFirstNearest(segs, p, skip, skipDegenerate, limit, j)
    ensures i == j
  {
  }

  /** The nearest-segment loop: the index of the first eligible segment at minimum distance
      below the bound, or -1 when no eligible segment beats the bound. */
  method FirstNearestSegment(segs: seq<Segment>, p: Point, skip: set<int>, skipDegenerate: bool, limit: Limit)
    returns (best: int)
    ensures best == -1 <==> NoneAdmitted(segs, p, skip, skipDegenerate, limit)
    ensures best != -1 ==> IsFirstNearest(segs, p, skip, skipDegenerate, limit, best)
  {
    best := -1;
    var bestDist := 0.0;
    var i := 0;
    while i < |segs|
      invariant 0 <= i <= |segs|
      invariant best == -1 ==> forall j :: 0 <= j < i && Eligible(segs, j, skip, skipDegenerate) ==> !Admits(limit, SegDist(segs, j, p))
      invariant best != -1 ==> 0 <= best < i && Eligible(segs, best, skip, skipDegenerate)
                                && Admits(limit, SegDist(segs, best, p)) && bestDist == SegDist(segs, best, p)
      invariant best != -1 ==> forall j :: 0 <= j < i && Eligible(segs, j, skip, skipDegenerate) ==>
                                 bestDist <= SegDist(segs, j, p) && (j < best ==> bestDist < SegDist(segs, j, p))
    {
      if Eligible(segs, i, skip, skipDegenerate) {
        var dist := DistSqPointToSegment(p, Start(segs[i]), Finish(segs[i]));
        if (best == -1 && Admits(limit, dist)) || (best != -1 && dist < bestDist) {
          best, bestDist := i, dist;
        }
      }
      i := i + 1;
    }
  }

  /** `order` lists every member of s exactly once: the iteration order of a Python set of
      points (or of `list(set(...))`), which the model leaves open but fixes per set. */
  ghost predicate Enumerates(order: seq<Point>, s: set<Point>)
  {
    Distinct(order) && forall p :: p in order <==> p in s
  }

  /** Iterating a set: its members, each once, in an order the model leaves open. */
  method SetToSeq(s: set<Point>) returns (q: seq<Point>)
    ensures Enumerates(q, s)
  {
    q := [];
    var rest := s;
    while rest != {}
      invariant rest <= s && Distinct(q)
      invariant forall p :: p in q <==> p in s - rest
      decreases |rest|
    {
      var p :| p in rest;
      assert p !in q;
      q := q + [p];
      rest := rest - {p};
    }
  }

  /** Point order[i] is what a scan `if dist < best: best = dist; pick = e` over order ends
      with: it beats the bound, no point is nearer, and every earlier point is strictly farther. */
  predicate IsFirstNearestPoint(order: seq<Point>, p: Point, limit: Limit, i: int)
  {
    && 0 <= i < |order|
    && Admits(limit, DistSq(p, order[i]) as real)
    && forall j :: 0 <= j < |order| ==>
         DistSq(p, order[i]) <= DistSq(p, order[j]) && (j < i ==> DistSq(p, order[i]) < DistSq(p, order[j]))
  }

  /** At most one point is the first nearest one. */
  lemma FirstNearestPointUnique(order: seq<Point>, p: Point, limit: Limit, i: int, j: int)
    requires IsFirstNearestPoint(order, p, limit, i) && IsFirstNearestPoint(order, p, limit, j)
    ensures i == j
  {
  }

  /** The nearest-endpoint scan over an enumerated set: the index of the first point at minimum
      distance below the bound, or -1 when no point beats the bound. */
  method FirstNearestPoint(order: seq<Point>, p: Point, limit: Limit) returns (best: int)
    ensures best == -1 <==> forall j :: 0 <= j < |order| ==> !Admits(limit, DistSq(p, order[j]) as real)
    ensures best != -1 ==> IsFirstNearestPoint(order, p, limit, best)
  {
    best := -1;
    var bestDist := 0;
    var i := 0;
    while i < |order|
      invariant 0 <= i <= |order|
      invariant best == -1 ==> forall j :: 0 <= j < i ==> !Admits(limit, DistSq(p, order[j]) as real)
      invariant best != -1 ==> 0 <= best < i && Admits(limit, DistSq(p, order[best]) as real)
                                && bestDist == DistSq(p, order[best])
      invariant best != -1 ==> forall j :: 0 <= j < i ==>
                                 bestDist <= DistSq(p, order[j]) && (j < best ==> bestDist < DistSq(p, order[j]))
    {
      var dist := DistSq(p, order[i]);
      if (best == -1 && Admits(limit, dist as real)) || (best != -1 && dist < bestDist) {
        best, bestDist := i, dist;
      }
      i := i + 1;
    }
  }

  /** Over an enumeration of a set, the first nearest point is a member at minimum distance
      from p among all the set's members. */
  lemma FirstNearestPointInSet(order: seq<Point>, s: set<Point>, p: Point, limit: Limit, i: int)
    requires Enumerates(order, s) && IsFirstNearestPoint(order, p, limit, i)
    ensures order[i] in s && Admits(limit, DistSq(p, order[i]) as real)
    ensures forall e :: e in s ==> DistSq(p, order[i]) <= DistSq(p, e)
  {
    forall e | e in s ensures DistSq(p, order[i]) <= DistSq(p, e) {
      var j :| 0 <= j < |order| && order[j] == e;
    }
  }

  /** The slots of the first n slots of segs whose endpoint is p, in order: the list of
      `(line_idx, 'start' | 'end')` uses that the source stores under key p. */
  function SlotsOf(segs: seq<Segment>, p: Point, n: nat): seq<int>
    requires n <= 2 * |segs|
  {
    if n == 0 then [] else SlotsOf(segs, p, n - 1) + (if EndAt(segs, n - 1) == p then [n - 1] else [])
  }

  lemma {:induction false} SlotsOfMember(segs: seq<Segment>, p: Point, n: nat, k: int)
    requires n <= 2 * |segs|
    ensures k in SlotsOf(segs, p, n) <==> 0 <= k < n && EndAt(segs, k) == p
  {
    if n > 0 {
      SlotsOfMember(segs, p, n - 1, k);
    }
  }

  /** The endpoint of slot k is used by no other slot of the list. */
  predicate IsFree(segs: seq<Segment>, k: int)
    requires 0 <= k < 2 * |segs|
  {
    forall j :: 0 <= j < 2 * |segs| && j != k ==> EndAt(segs, j) != EndAt(segs, k)
  }

  /** "Used by exactly one (segment, end) reference" is the same as being free. */
  lemma SingleUseIsFree(segs: seq<Segment>, k: int)
    requires 0 <= k < 2 * |segs|
    ensures |SlotsOf(segs, EndAt(segs, k), 2 * |segs|)| == 1 <==> IsFree(segs, k)
  {
    var p := EndAt(segs, k);
    var uses := SlotsOf(segs, p, 2 * |segs|);
    SlotsOfMember(segs, p, 2 * |segs|, k);
    if |uses| == 1 {
      forall j | 0 <= j < 2 * |segs| && j != k ensures EndAt(segs, j) != p {
        SlotsOfMember(segs, p, 2 * |segs|, j);
      }
    } else {
      assert k in uses;
      var i :| 0 <= i < |uses| && uses[i] == k;
      assert |uses| >= 2;
      var other := if i == 0 then uses[1] else uses[0];
      assert other in uses && other != k by {
        SlotsDistinct(segs, p, 2 * |segs|);
      }
      SlotsOfMember(segs, p, 2 * |segs|, other);
    }
  }

  lemma {:induction false} SlotsDistinct(segs: seq<Segment>, p: Point, n: nat)
    requires n <= 2 * |segs|
    ensures forall i, j :: 0 <= i < j < |SlotsOf(segs, p, n)| ==> SlotsOf(segs, p, n)[i] < SlotsOf(segs, p, n)[j]
    ensures forall i :: 0 <= i < |SlotsOf(segs, p, n)| ==> SlotsOf(segs, p, n)[i] < n
  {
    if n > 0 {
      SlotsDistinct(segs, p, n - 1);
    }
  }

  /** A map from each point to its nonempty list of uses has exactly the endpoints as keys. */
  lemma UsesKeys(segs: seq<Segment>, uses: map<Point, seq<int>>)
    requires forall p :: p in uses ==> uses[p] == SlotsOf(segs, p, 2 * |segs|) && uses[p] != []
    requires forall p :: p !in uses ==> SlotsOf(segs, p, 2 * |segs|) == []
    ensures uses.Keys == Endpoints(segs)
  {
    forall p ensures p in uses <==> p in Endpoints(segs) {
      if p in Endpoints(segs) {
        var j :| 0 <= j < 2 * |segs| && EndAt(segs, j) == p;
        SlotsOfMember(segs, p, 2 * |segs|, j);
      }
      if p in uses {
        var j := uses[p][0];
        SlotsOfMember(segs, p, 2 * |segs|, j);
        assert EndAt(segs, j) == p;
      }
    }
  }

  /** The `endpoint_count` / `endpoint_to_walls` loop: each endpoint mapped to its uses, in
      order (start then end of each segment in turn, which is slot order). */
  method EndpointUses(segs: seq<Segment>) returns (uses: map<Point, seq<int>>)
    ensures uses.Keys == Endpoints(segs)
    ensures forall p :: p in uses ==> uses[p] == SlotsOf(segs, p, 2 * |segs|)
  {
    uses := map[];
    var k := 0;
    while k < 2 * |segs|
      invariant 0 <= k <= 2 * |segs|
      invariant UsesUpTo(segs, uses, k)
    {
      var p := EndAt(segs, k);
      UsesStep(segs, uses, k);
      uses := uses[p := (if p in uses then uses[p] else []) + [k]];
      k := k + 1;
    }
    UsesKeys(segs, uses);
  }

  /** uses lists, under each point met in the first k slots, the slots holding it. */
  ghost predicate UsesUpTo(segs: seq<Segment>, uses: map<Point, seq<int>>, k: nat)
    requires k <= 2 * |segs|
  {
    && (forall p :: p in uses ==> uses[p] == SlotsOf(segs, p, k) && uses[p] != [])
    && (forall p :: p !in uses ==> SlotsOf(segs, p, k) == [])
  }

  /** Recording slot k as a use of its endpoint extends the uses by one slot. */
  lemma UsesStep(segs: seq<Segment>, uses: map<Point, seq<int>>, k: nat)
    requires k < 2 * |segs| && UsesUpTo(segs, uses, k)
    ensures var p := EndAt(segs, k);
            UsesUpTo(segs, uses[p := (if p in uses then uses[p] else []) + [k]], k + 1)
  {
    var p := EndAt(segs, k);
    var uses2 := uses[p := (if p in uses then uses[p] else []) + [k]];
    forall q | q in uses2 ensures uses2[q] == SlotsOf(segs, q, k + 1) && uses2[q] != [] {
      assert SlotsOf(segs, q, k + 1) == SlotsOf(segs, q, k) + (if p == q then [k] else []);
    }
    forall q | q !in uses2 ensures SlotsOf(segs, q, k + 1) == [] {
      assert SlotsOf(segs, q, k + 1) == SlotsOf(segs, q, k) + (if p == q then [k] else []);
    }
  }
}
