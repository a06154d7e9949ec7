/** Global grid alignment of wall segments: near-axis segments donate their coordinates to an
    x pool and a y pool, each pool is clustered by single-linkage chaining, each cluster becomes
    a snap rule, and every endpoint coordinate of every segment is snapped by those rules. */
module GridAlign {
  import opened Numeric
  import opened Geometry

  /** Gap up to which neighbouring pool values are chained into one cluster. */
  const AlignThreshold: int := 20
  /** A segment is near-axis when one of its extents is below this. */
  const SkewTolerance: int := 15
  /** A rule's range reaches this far beyond its cluster on either side. */
  const RulePad: int := 2

  /** `{'min': lo, 'max': hi, 'target': target}`. */
  datatype Rule = Rule(lo: int, hi: int, target: int)

  predicate InRule(r: Rule, v: int) { r.lo <= v <= r.hi }

  /** Near-vertical, or failing that near-horizontal; either way both pools receive the segment. */
  predicate Qualifies(s: Segment)
  {
    Abs(s.x1 - s.x2) < SkewTolerance || Abs(s.y1 - s.y2) < SkewTolerance
  }

  // ---------- Step 1: the coordinate pools ----------

  /** `v_x_coords`: the x's of every near-axis segment, in list order. */
  function XPool(lines: seq<Segment>): seq<int>
  {
    if |lines| == 0 then []
    else XPool(lines[..|lines| - 1]) + (if Qualifies(Last(lines)) then [Last(lines).x1, Last(lines).x2] else [])
  }

  /** `h_y_coords`: the y's of every near-axis segment, in list order. */
  function YPool(lines: seq<Segment>): seq<int>
  {
    if |lines| == 0 then []
    else YPool(lines[..|lines| - 1]) + (if Qualifies(Last(lines)) then [Last(lines).y1, Last(lines).y2] else [])
  }

  /** A value is pooled exactly when it is an x (a y) of some near-axis segment. */
  lemma PoolMember(lines: seq<Segment>, v: int)
    ensures v in XPool(lines) <==> exists i :: 0 <= i < |lines| && Qualifies(lines[i]) && (lines[i].x1 == v || lines[i].x2 == v)
    ensures v in YPool(lines) <==> exists i :: 0 <= i < |lines| && Qualifies(lines[i]) && (lines[i].y1 == v || lines[i].y2 == v)
  {
    XPoolMember(lines, v);
    YPoolMember(lines, v);
  }

  lemma {:induction false} XPoolMember(lines: seq<Segment>, v: int)
    ensures v in XPool(lines) <==> exists i :: 0 <= i < |lines| && Qualifies(lines[i]) && (lines[i].x1 == v || lines[i].x2 == v)
  {
    if |lines| > 0 {
      var init := lines[..|lines| - 1];
      XPoolMember(init, v);
      assert forall i :: 0 <= i < |init| ==> init[i] == lines[i];
    }
  }

  lemma {:induction false} YPoolMember(lines: seq<Segment>, v: int)
    ensures v in YPool(lines) <==> exists i :: 0 <= i < |lines| && Qualifies(lines[i]) && (lines[i].y1 == v || lines[i].y2 == v)
  {
    if |lines| > 0 {
      var init := lines[..|lines| - 1];
      YPoolMember(init, v);
      assert forall i :: 0 <= i < |init| ==> init[i] == lines[i];
    }
  }

  /** The first loop of `align_walls_globally`. */
  method CollectPools(lines: seq<Segment>) returns (xs: seq<int>, ys: seq<int>)
    ensures xs == XPool(lines) && ys == YPool(lines)
  {
    xs, ys := [], [];
    var i := 0;
    while i < |lines|
      invariant 0 <= i <= |lines|
      invariant xs == XPool(lines[..i]) && ys == YPool(lines[..i])
    {
      var line := lines[i];
      assert lines[..i + 1][..i] == lines[..i];
      if Abs(line.x1 - line.x2) < SkewTolerance {
        xs := xs + [line.x1, line.x2];
        ys := ys + [line.y1, line.y2];
      } else if Abs(line.y1 - line.y2) < SkewTolerance {
        ys := ys + [line.y1, line.y2];
        xs := xs + [line.x1, line.x2];
      }
      i := i + 1;
    }
    assert lines[..|lines|] == lines;
  }

  // ---------- Step 2: sorted unique values, clusters, rules ----------

  predicate Increasing(s: seq<int>)
  {
    forall i, j :: 0 <= i < j < |s| ==> s[i] < s[j]
  }

  /** Inserts v into a strictly increasing list unless it is already there. */
  function Insert(u: seq<int>, v: int): (r: seq<int>)
    requires Increasing(u)
    ensures Increasing(r)
    ensures forall x :: x in r <==> x in u || x == v
  {
    if |u| == 0 then [v]
    else if v < u[0] then [v] + u
    else if v == u[0] then u
    else
      var rest := Insert(u[1..], v);
      assert forall x :: x in u[1..] ==> u[0] < x;
      assert forall x :: x in rest ==> u[0] < x;
      assert forall j :: 0 <= j < |rest| ==> u[0] < rest[j] by {
        forall j | 0 <= j < |rest| ensures u[0] < rest[j] {
          assert rest[j] in rest;
        }
      }
      [u[0]] + rest
  }

  /** `sorted(list(set(coords)))`. */
  function SortedUnique(coords: seq<int>): (r: seq<int>)
    ensures Increasing(r)
    ensures forall x :: x in r <==> x in coords
  {
    if |coords| == 0 then [] else Insert(SortedUnique(coords[..|coords| - 1]), Last(coords))
  }

  /** Consecutive members differ by at most thr. */
  predicate Chained(c: seq<int>, thr: int)
  {
    forall i :: 0 <= i < |c| - 1 ==> c[i + 1] - c[i] <= thr
  }

  function Flatten(cs: seq<seq<int>>): seq<int>
  {
    if |cs| == 0 then [] else Flatten(cs[..|cs| - 1]) + Last(cs)
  }

  /** cs splits the increasing list u, in order, into nonempty chained runs, any two of which
      are separated by a gap above thr. */
  predicate IsClustering(cs: seq<seq<int>>, u: seq<int>, thr: int)
  {
    Flatten(cs) == u && Runs(cs, thr)
  }

  /** Every run is a nonempty chained increasing list, and later runs start more than thr
      after earlier runs end. */
  predicate Runs(cs: seq<seq<int>>, thr: int)
  {
    && (forall k :: 0 <= k < |cs| ==> |cs[k]| > 0 && Increasing(cs[k]) && Chained(cs[k], thr))
    && (forall j, k :: 0 <= j < k < |cs| && |cs[j]| > 0 && |cs[k]| > 0 ==> cs[k][0] - Last(cs[j]) > thr)
  }

  /** The run under construction starts more than thr after every closed run ends. */
  predicate Follows(cs: seq<seq<int>>, cur: seq<int>, thr: int)
    requires |cur| > 0
  {
    forall j :: 0 <= j < |cs| && |cs[j]| > 0 ==> cur[0] - Last(cs[j]) > thr
  }

  lemma FlattenSnoc(cs: seq<seq<int>>, c: seq<int>)
    ensures Flatten(cs + [c]) == Flatten(cs) + c
  {
    assert (cs + [c])[..|cs|] == cs;
  }

  /** Appending a value within thr of the run's end keeps the run chained and increasing. */
  lemma ExtendRun(cur: seq<int>, val: int, thr: int)
    requires |cur| > 0 && Increasing(cur) && Chained(cur, thr)
    requires Last(cur) < val && val - Last(cur) <= thr
    ensures Increasing(cur + [val]) && Chained(cur + [val], thr)
  {
  }

  /** Closing the current run at a gap above thr and starting a new run at val. */
  lemma CloseRun(cs: seq<seq<int>>, cur: seq<int>, val: int, thr: int)
    requires thr >= 0
    requires Runs(cs, thr) && |cur| > 0 && Increasing(cur) && Chained(cur, thr) && Follows(cs, cur, thr)
    requires val - Last(cur) > thr
    ensures Runs(cs + [cur], thr) && Follows(cs + [cur], [val], thr)
  {
    assert cur[0] <= Last(cur);
  }

  /** The chaining loop of `get_snap_rules`. */
  method ChainClusters(u: seq<int>, thr: int) returns (cs: seq<seq<int>>)
    requires Increasing(u) && |u| > 0 && thr >= 0
    ensures IsClustering(cs, u, thr)
  {
    cs := [];
    var cur := [u[0]];
    var i := 1;
    while i < |u|
      invariant 1 <= i <= |u|
      invariant Flatten(cs) + cur == u[..i]
      invariant |cur| > 0 && Last(cur) == u[i - 1] && Increasing(cur) && Chained(cur, thr)
      invariant Runs(cs, thr) && Follows(cs, cur, thr)
    {
      var val := u[i];
      assert u[..i + 1] == u[..i] + [val];
      if val - Last(cur) <= thr {
        ExtendRun(cur, val, thr);
        cur := cur + [val];
      } else {
        CloseRun(cs, cur, val, thr);
        FlattenSnoc(cs, cur);
        cs := cs + [cur];
        cur := [val];
      }
      i := i + 1;
    }
    CloseRun(cs, cur, Last(cur) + thr + 1, thr);
    FlattenSnoc(cs, cur);
    assert u[..|u|] == u;
    cs := cs + [cur];
  }

  /** The rule of one cluster: its range padded by 2 on both sides, its target the mean rounded
      half to even, which lies between the cluster's extremes. */
  function RuleOf(c: seq<int>): (r: Rule)
    requires |c| > 0
    ensures r.lo == MinOf(c) - RulePad && r.hi == MaxOf(c) + RulePad
    ensures MinOf(c) <= r.target <= MaxOf(c)
    ensures r.target == RoundHalfEven(Sum(c) as real / |c| as real)
  {
    MeanRoundsBetween(c);
    Rule(MinOf(c) - RulePad, MaxOf(c) + RulePad, RoundHalfEven(Sum(c) as real / |c| as real))
  }

  /** The rule-building loop of `get_snap_rules`. */
  method BuildRules(cs: seq<seq<int>>) returns (rules: seq<Rule>)
    requires forall k :: 0 <= k < |cs| ==> |cs[k]| > 0
    ensures |rules| == |cs|
    ensures forall k :: 0 <= k < |cs| ==> rules[k] == RuleOf(cs[k])
  {
    rules := [];
    var k := 0;
    while k < |cs|
      invariant 0 <= k <= |cs|
      invariant |rules| == k && forall j :: 0 <= j < k ==> rules[j] == RuleOf(cs[j])
    {
      rules := rules + [RuleOf(cs[k])];
      k := k + 1;
    }
  }

  /** `get_snap_rules(coords, threshold)`: no rules for an empty pool, otherwise one rule per
      cluster of the sorted unique pool values. */
  method GetSnapRules(coords: seq<int>, thr: int) returns (rules: seq<Rule>, ghost cs: seq<seq<int>>)
    requires thr >= 0
    ensures |coords| == 0 <==> |rules| == 0
    ensures IsClustering(cs, SortedUnique(coords), thr)
    ensures |rules| == |cs| && forall k :: 0 <= k < |cs| ==> rules[k] == RuleOf(cs[k])
  {
    if |coords| == 0 {
      return [], [];
    }
    var u := SortedUnique(coords);
    assert coords[0] in u;
    var clusters := ChainClusters(u, thr);
    rules := BuildRules(clusters);
    cs := clusters;
    assert Flatten(cs) != [];
  }

  // ---------- Step 3: applying the rules ----------

  /** `for r in rules: if r['min'] <= v <= r['max']: new = r['target']`: the last matching
      rule decides; a value no rule covers is kept. */
  function SnapValue(rules: seq<Rule>, v: int): (r: int)
    ensures || (exists k :: 0 <= k < |rules| && InRule(rules[k], v) && r == rules[k].target)
            || ((forall k :: 0 <= k < |rules| ==> !InRule(rules[k], v)) && r == v)
  {
    if |rules| == 0 then v
    else if InRule(Last(rules), v) then Last(rules).target
    else
      var init := rules[..|rules| - 1];
      assert forall k :: 0 <= k < |init| ==> init[k] == rules[k];
      SnapValue(init, v)
  }

  /** Rule ranges in increasing order and pairwise disjoint. */
  predicate Separated(rules: seq<Rule>)
  {
    forall j, k :: 0 <= j < k < |rules| ==> rules[j].hi < rules[k].lo
  }

  /** Under separated rules, the one rule that covers v decides its snapped value. */
  lemma SnapBySeparated(rules: seq<Rule>, k: int, v: int)
    requires Separated(rules) && 0 <= k < |rules| && InRule(rules[k], v)
    ensures SnapValue(rules, v) == rules[k].target
  {
  }

  lemma {:induction false} FlattenMember(cs: seq<seq<int>>, v: int)
    ensures v in Flatten(cs) <==> exists k :: 0 <= k < |cs| && v in cs[k]
  {
    if |cs| > 0 {
      FlattenMember(cs[..|cs| - 1], v);
      assert forall k :: 0 <= k < |cs| - 1 ==> cs[..|cs| - 1][k] == cs[k];
    }
  }

  /** Because the cluster gap (20) exceeds twice the padding, rule ranges are disjoint. */
  lemma RulesSeparated(cs: seq<seq<int>>, u: seq<int>, rules: seq<Rule>)
    requires IsClustering(cs, u, AlignThreshold)
    requires |rules| == |cs| && forall k :: 0 <= k < |cs| ==> rules[k] == RuleOf(cs[k])
    ensures Separated(rules)
  {
    forall j, k | 0 <= j < k < |rules| ensures rules[j].hi < rules[k].lo {
      IncreasingEnds(cs[j]);
      IncreasingEnds(cs[k]);
    }
  }

  /** In an increasing list the first element is the least and the last the greatest. */
  lemma IncreasingEnds(c: seq<int>)
    requires |c| > 0 && Increasing(c)
    ensures MinOf(c) == c[0] && MaxOf(c) == Last(c)
  {
    assert forall x :: x in c ==> c[0] <= x <= Last(c);
  }

  /** Convergence: any two pool values in the same cluster are snapped to the same target. */
  lemma SameClusterConverges(cs: seq<seq<int>>, u: seq<int>, rules: seq<Rule>, k: int, v: int, w: int)
    requires IsClustering(cs, u, AlignThreshold)
    requires |rules| == |cs| && forall j :: 0 <= j < |cs| ==> rules[j] == RuleOf(cs[j])
    requires 0 <= k < |cs| && v in cs[k] && w in cs[k]
    ensures SnapValue(rules, v) == SnapValue(rules, w) == rules[k].target
  {
    RulesSeparated(cs, u, rules);
    SnapBySeparated(rules, k, v);
    SnapBySeparated(rules, k, w);
  }

  /** The loop over one axis' rules, applied to both endpoint coordinates of that axis. */
  method SnapPair(rules: seq<Rule>, a: int, b: int) returns (na: int, nb: int)
    ensures na == SnapValue(rules, a) && nb == SnapValue(rules, b)
  {
    na, nb := a, b;
    var k := 0;
    while k < |rules|
      invariant 0 <= k <= |rules|
      invariant na == SnapValue(rules[..k], a) && nb == SnapValue(rules[..k], b)
    {
      assert rules[..k + 1][..k] == rules[..k];
      var r := rules[k];
      if r.lo <= a <= r.hi { na := r.target; }
      if r.lo <= b <= r.hi { nb := r.target; }
      k := k + 1;
    }
    assert rules[..|rules|] == rules;
  }

  /** The apply loop for one line. */
  method AlignLine(line: Segment, xRules: seq<Rule>, yRules: seq<Rule>) returns (out: Segment)
    ensures out == WithEnds(line, Point(SnapValue(xRules, line.x1), SnapValue(yRules, line.y1)),
                                  Point(SnapValue(xRules, line.x2), SnapValue(yRules, line.y2)))
  {
    var nx1, nx2 := SnapPair(xRules, line.x1, line.x2);
    var ny1, ny2 := SnapPair(yRules, line.y1, line.y2);
    if nx1 != line.x1 || ny1 != line.y1 || nx2 != line.x2 || ny2 != line.y2 {
      out := WithEnds(line, Point(nx1, ny1), Point(nx2, ny2));
    } else {
      out := line;
    }
  }

  /** out is line with each endpoint coordinate snapped by the rules of its axis. */
  predicate Snapped(line: Segment, out: Segment, xRules: seq<Rule>, yRules: seq<Rule>)
  {
    && out.x1 == SnapValue(xRules, line.x1) && out.x2 == SnapValue(xRules, line.x2)
    && out.y1 == SnapValue(yRules, line.y1) && out.y2 == SnapValue(yRules, line.y2)
    && out.attrs == line.attrs
  }

  /** `align_walls_globally`: every endpoint coordinate of every line is snapped by the rules of
      its axis' pool; the list keeps its length, order and every other key. */
  method AlignWallsGlobally(lines: seq<Segment>)
    returns (out: seq<Segment>, ghost xClusters: seq<seq<int>>, ghost yClusters: seq<seq<int>>,
             ghost xRules: seq<Rule>, ghost yRules: seq<Rule>)
    ensures |lines| == 0 ==> out == []
    ensures KeepsRecords(lines, out)
    ensures IsClustering(xClusters, SortedUnique(XPool(lines)), AlignThreshold)
    ensures IsClustering(yClusters, SortedUnique(YPool(lines)), AlignThreshold)
    ensures |xRules| == |xClusters| && forall k :: 0 <= k < |xClusters| ==> xRules[k] == RuleOf(xClusters[k])
    ensures |yRules| == |yClusters| && forall k :: 0 <= k < |yClusters| ==> yRules[k] == RuleOf(yClusters[k])
    ensures forall i :: 0 <= i < |lines| ==> Snapped(lines[i], out[i], xRules, yRules)
  {
    if |lines| == 0 {
      return [], [], [], [], [];
    }
    var xs, ys := CollectPools(lines);
    var xr, yr;
    xr, xClusters := GetSnapRules(xs, AlignThreshold);
    yr, yClusters := GetSnapRules(ys, AlignThreshold);
    xRules, yRules := xr, yr;
    out := ApplyRules(lines, xr, yr);
  }

  /** The third loop of `align_walls_globally`, over a copy of the list. */
  method ApplyRules(lines: seq<Segment>, xRules: seq<Rule>, yRules: seq<Rule>) returns (out: seq<Segment>)
    ensures |out| == |lines|
    ensures forall i :: 0 <= i < |lines| ==> Snapped(lines[i], out[i], xRules, yRules)
  {
    out := [];
    var i := 0;
    while i < |lines|
      invariant 0 <= i <= |lines| && |out| == i
      invariant forall j :: 0 <= j < i ==> Snapped(lines[j], out[j], xRules, yRules)
    {
      var line := AlignLine(lines[i], xRules, yRules);
      out := out + [line];
      i := i + 1;
    }
  }

  /** The convergence promise in terms of the input: two near-axis x coordinates in the same
      cluster come out equal. */
  lemma AlignConverges(lines: seq<Segment>, xClusters: seq<seq<int>>, xRules: seq<Rule>, k: int, v: int, w: int)
    requires IsClustering(xClusters, SortedUnique(XPool(lines)), AlignThreshold)
    requires |xRules| == |xClusters| && forall j :: 0 <= j < |xClusters| ==> xRules[j] == RuleOf(xClusters[j])
    requires 0 <= k < |xClusters| && v in xClusters[k] && w in xClusters[k]
    ensures v in XPool(lines) && w in XPool(lines)
    ensures SnapValue(xRules, v) == SnapValue(xRules, w)
  {
    FlattenMember(xClusters, v);
    FlattenMember(xClusters, w);
    SameClusterConverges(xClusters, SortedUnique(XPool(lines)), xRules, k, v, w);
  }

  /** The same for y coordinates: two near-axis y coordinates in the same cluster come out equal. */
  lemma AlignConvergesY(lines: seq<Segment>, yClusters: seq<seq<int>>, yRules: seq<Rule>, k: int, v: int, w: int)
    requires IsClustering(yClusters, SortedUnique(YPool(lines)), AlignThreshold)
    requires |yRules| == |yClusters| && forall j :: 0 <= j < |yClusters| ==> yRules[j] == RuleOf(yClusters[j])
    requires 0 <= k < |yClusters| && v in yClusters[k] && w in yClusters[k]
    ensures v in YPool(lines) && w in YPool(lines)
    ensures SnapValue(yRules, v) == SnapValue(yRules, w)
  {
    FlattenMember(yClusters, v);
    FlattenMember(yClusters, w);
    SameClusterConverges(yClusters, SortedUnique(YPool(lines)), yRules, k, v, w);
  }
}
