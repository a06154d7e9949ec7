/** The file-driven wall endpoint fix: nearby wall endpoints are merged in groups to their
    rounded average, each (merged) endpoint is then projected onto the nearest wall it does not
    belong to if one is close enough, and the corrections are applied to every wall. */
module WallFix {
  import opened Numeric
  import opened Geometry
  import opened Search

  /** `distance_point_to_point(v, w) <= radius`. */
  predicate Near(v: Point, w: Point, radius: real)
  {
    WithinDist(DistSq(v, w) as real, radius)
  }

  function Xs(pts: seq<Point>): (r: seq<int>)
    ensures |r| == |pts| && forall m :: 0 <= m < |pts| ==> r[m] == pts[m].x
  {
    if |pts| == 0 then [] else Xs(pts[..|pts| - 1]) + [Last(pts).x]
  }

  function Ys(pts: seq<Point>): (r: seq<int>)
    ensures |r| == |pts| && forall m :: 0 <= m < |pts| ==> r[m] == pts[m].y
  {
    if |pts| == 0 then [] else Ys(pts[..|pts| - 1]) + [Last(pts).y]
  }

  /** `merged_point`: the average of a group, each coordinate rounded half to even. */
  function Average(pts: seq<Point>): Point
    requires |pts| > 0
  {
    Point(RoundHalfEven(Sum(Xs(pts)) as real / |pts| as real), RoundHalfEven(Sum(Ys(pts)) as real / |pts| as real))
  }

  /** The merged point lies in the bounding box of its group. */
  lemma AverageInBox(pts: seq<Point>)
    requires |pts| > 0
    ensures MinOf(Xs(pts)) <= Average(pts).x <= MaxOf(Xs(pts))
    ensures MinOf(Ys(pts)) <= Average(pts).y <= MaxOf(Ys(pts))
  {
    MeanRoundsBetween(Xs(pts));
    MeanRoundsBetween(Ys(pts));
  }

  /** Each group has more than one member, all endpoints and all within radius of its first
      member (the seed). */
  ghost predicate GroupsShaped(uniq: seq<Point>, groups: seq<seq<Point>>, radius: real)
  {
    forall k :: 0 <= k < |groups| ==>
      && |groups[k]| > 1
      && forall m :: 0 <= m < |groups[k]| ==> groups[k][m] in uniq && Near(groups[k][0], groups[k][m], radius)
  }

  /** Every member of a group is mapped to the group's average. */
  ghost predicate GroupsMapped(mergedTo: map<Point, Point>, groups: seq<seq<Point>>)
  {
    forall k, m :: 0 <= k < |groups| && 0 <= m < |groups[k]| && |groups[k]| > 0 ==>
      groups[k][m] in mergedTo && mergedTo[groups[k][m]] == Average(groups[k])
  }

  /** The endpoints that belong to some group. */
  function Members(groups: seq<seq<Point>>): set<Point>
  {
    if |groups| == 0 then {} else Members(groups[..|groups| - 1]) + set v | v in Last(groups)
  }

  /** An endpoint is a member exactly when it is some element of some group. */
  lemma {:induction false} MembersAt(groups: seq<seq<Point>>, v: Point)
    ensures v in Members(groups) <==> exists k, m :: 0 <= k < |groups| && 0 <= m < |groups[k]| && groups[k][m] == v
  {
    if |groups| > 0 {
      var init := groups[..|groups| - 1];
      MembersAt(init, v);
      if v in Members(groups) && v !in Members(init) {
        var m :| 0 <= m < |Last(groups)| && Last(groups)[m] == v;
        assert groups[|groups| - 1][m] == v;
      }
      if exists k, m :: 0 <= k < |groups| && 0 <= m < |groups[k]| && groups[k][m] == v {
        var k, m :| 0 <= k < |groups| && 0 <= m < |groups[k]| && groups[k][m] == v;
        if k < |groups| - 1 {
          assert init[k][m] == v;
        } else {
          assert v in Last(groups);
        }
      }
    }
  }

  /** Only group members are mapped. */
  ghost predicate GroupsCover(mergedTo: map<Point, Point>, groups: seq<seq<Point>>)
  {
    forall v :: v in mergedTo ==> v in Members(groups)
  }

  /** No endpoint is in two groups. */
  ghost predicate GroupsDisjoint(groups: seq<seq<Point>>)
  {
    forall k1, k2, v :: 0 <= k1 < k2 < |groups| && v in groups[k1] ==> v !in groups[k2]
  }

  /** The merge groups found so far: shaped, mapped to their averages, disjoint, and covering
      exactly the merged endpoints. */
  ghost predicate GroupsOk(uniq: seq<Point>, mergedTo: map<Point, Point>, groups: seq<seq<Point>>, radius: real)
  {
    GroupsShaped(uniq, groups, radius) && GroupsMapped(mergedTo, groups) && GroupsCover(mergedTo, groups)
    && GroupsDisjoint(groups)
  }

  /** The endpoints of uniq[lo..hi] that are not merged yet and lie within radius of seed, in
      list order. */
  function Picked(uniq: seq<Point>, seed: Point, lo: int, hi: int, mergedTo: map<Point, Point>, radius: real): seq<Point>
    requires 0 <= lo <= hi <= |uniq|
    decreases hi - lo
  {
    if hi == lo then []
    else Picked(uniq, seed, lo, hi - 1, mergedTo, radius)
         + (if uniq[hi - 1] !in mergedTo && Near(seed, uniq[hi - 1], radius) then [uniq[hi - 1]] else [])
  }

  /** The `nearby` list of seed uniq[i]: the seed, then the later unmerged endpoints within radius. */
  function Nearby(uniq: seq<Point>, i: int, mergedTo: map<Point, Point>, radius: real): seq<Point>
    requires 0 <= i < |uniq|
  {
    [uniq[i]] + Picked(uniq, uniq[i], i + 1, |uniq|, mergedTo, radius)
  }

  /** m with every point of pts mapped to target. */
  function MapOver(m: map<Point, Point>, pts: seq<Point>, target: Point): (r: map<Point, Point>)
    ensures forall v :: v in r <==> v in m || v in pts
    ensures forall v :: v in r ==> r[v] == if v in pts then target else m[v]
  {
    m + map v | v in pts :: target
  }

  /** Seed uniq[i] forms a group on its turn: it is not merged yet and has a neighbour. */
  predicate FormsGroup(uniq: seq<Point>, i: int, mergedTo: map<Point, Point>, radius: real)
    requires 0 <= i < |uniq|
  {
    uniq[i] !in mergedTo && |Nearby(uniq, i, mergedTo, radius)| > 1
  }

  /** `endpoint_merged_to` after the turn of seed uniq[i]: a group formed maps each of its
      members to the group's average; otherwise nothing changes. */
  function SeedStep(uniq: seq<Point>, i: int, mergedTo: map<Point, Point>, radius: real): map<Point, Point>
    requires 0 <= i < |uniq|
  {
    if FormsGroup(uniq, i, mergedTo, radius) then
      var nearby := Nearby(uniq, i, mergedTo, radius);
      MapOver(mergedTo, nearby, Average(nearby))
    else mergedTo
  }

  /** The groups after the turn of seed uniq[i]: the group it forms, if any, comes last. */
  function StepGroups(uniq: seq<Point>, i: int, mergedTo: map<Point, Point>, groups: seq<seq<Point>>, radius: real): seq<seq<Point>>
    requires 0 <= i < |uniq|
  {
    if FormsGroup(uniq, i, mergedTo, radius) then groups + [Nearby(uniq, i, mergedTo, radius)] else groups
  }

  /** `endpoint_merged_to` after the turns of the first n seeds. */
  function Phase1(uniq: seq<Point>, n: int, radius: real): map<Point, Point>
    requires 0 <= n <= |uniq|
  {
    if n == 0 then map[] else SeedStep(uniq, n - 1, Phase1(uniq, n - 1, radius), radius)
  }

  /** The groups formed by the first n seeds, in seed order. */
  function Phase1Groups(uniq: seq<Point>, n: int, radius: real): seq<seq<Point>>
    requires 0 <= n <= |uniq|
  {
    if n == 0 then [] else StepGroups(uniq, n - 1, Phase1(uniq, n - 1, radius), Phase1Groups(uniq, n - 1, radius), radius)
  }

  /** A point is picked exactly when it is an unmerged endpoint of uniq[lo..hi] within radius
      of the seed. */
  lemma {:induction false} PickedMembers(uniq: seq<Point>, seed: Point, lo: int, hi: int, mergedTo: map<Point, Point>,
                                         radius: real, v: Point)
    requires 0 <= lo <= hi <= |uniq|
    ensures v in Picked(uniq, seed, lo, hi, mergedTo, radius) <==>
            exists j :: lo <= j < hi && uniq[j] == v && v !in mergedTo && Near(seed, v, radius)
    decreases hi - lo
  {
    if hi > lo {
      PickedMembers(uniq, seed, lo, hi - 1, mergedTo, radius, v);
    }
  }

  /** Picking from a list without repeats picks no point twice. */
  lemma {:induction false} PickedDistinct(uniq: seq<Point>, seed: Point, lo: int, hi: int, mergedTo: map<Point, Point>,
                                          radius: real)
    requires 0 <= lo <= hi <= |uniq| && Distinct(uniq)
    ensures Distinct(Picked(uniq, seed, lo, hi, mergedTo, radius))
    decreases hi - lo
  {
    if hi > lo {
      PickedDistinct(uniq, seed, lo, hi - 1, mergedTo, radius);
      PickedMembers(uniq, seed, lo, hi - 1, mergedTo, radius, uniq[hi - 1]);
    }
  }

  /** Each `nearby` list holds no point twice, so its average counts every member once. */
  lemma NearbyDistinct(uniq: seq<Point>, i: int, mergedTo: map<Point, Point>, radius: real)
    requires 0 <= i < |uniq| && Distinct(uniq)
    ensures Distinct(Nearby(uniq, i, mergedTo, radius))
  {
    var picked := Picked(uniq, uniq[i], i + 1, |uniq|, mergedTo, radius);
    PickedDistinct(uniq, uniq[i], i + 1, |uniq|, mergedTo, radius);
    PickedMembers(uniq, uniq[i], i + 1, |uniq|, mergedTo, radius, uniq[i]);
    var nearby := [uniq[i]] + picked;
    forall a, b | 0 <= a < b < |nearby| ensures nearby[a] != nearby[b] {
      if a == 0 {
        assert nearby[b] == picked[b - 1];
      } else {
        assert nearby[a] == picked[a - 1] && nearby[b] == picked[b - 1];
      }
    }
  }

  /** A turn only adds entries: every endpoint merged before keeps its merged point. */
  lemma SeedStepKeeps(uniq: seq<Point>, i: int, mergedTo: map<Point, Point>, radius: real, v: Point)
    requires 0 <= i < |uniq| && v in mergedTo
    ensures v in SeedStep(uniq, i, mergedTo, radius) && SeedStep(uniq, i, mergedTo, radius)[v] == mergedTo[v]
  {
    if FormsGroup(uniq, i, mergedTo, radius) {
      PickedMembers(uniq, uniq[i], i + 1, |uniq|, mergedTo, radius, v);
      assert v !in Nearby(uniq, i, mergedTo, radius);
    }
  }

  /** One more turn of Phase 1 is one more seed step. */
  lemma Phase1Step(uniq: seq<Point>, n: int, radius: real)
    requires 0 <= n < |uniq|
    ensures Phase1(uniq, n + 1, radius) == SeedStep(uniq, n, Phase1(uniq, n, radius), radius)
    ensures Phase1Groups(uniq, n + 1, radius) == StepGroups(uniq, n, Phase1(uniq, n, radius), Phase1Groups(uniq, n, radius), radius)
  {
  }

  /** Once merged, an endpoint keeps its merged point through every later turn. */
  lemma {:induction false} Phase1Keeps(uniq: seq<Point>, n: int, m: int, radius: real, v: Point)
    requires 0 <= n <= m <= |uniq| && v in Phase1(uniq, n, radius)
    ensures v in Phase1(uniq, m, radius) && Phase1(uniq, m, radius)[v] == Phase1(uniq, n, radius)[v]
    decreases m - n
  {
    if n < m {
      Phase1Step(uniq, n, radius);
      SeedStepKeeps(uniq, n, Phase1(uniq, n, radius), radius, v);
      Phase1Keeps(uniq, n + 1, m, radius, v);
    }
  }

  /** On the turn of an unmerged seed, a later unmerged endpoint within radius is merged to the
      same point as the seed. */
  lemma SeedStepJoins(uniq: seq<Point>, i: int, mergedTo: map<Point, Point>, radius: real, j: int)
    requires 0 <= i < j < |uniq| && uniq[i] !in mergedTo && uniq[j] in Picked(uniq, uniq[i], i + 1, |uniq|, mergedTo, radius)
    ensures uniq[i] in SeedStep(uniq, i, mergedTo, radius) && uniq[j] in SeedStep(uniq, i, mergedTo, radius)
    ensures SeedStep(uniq, i, mergedTo, radius)[uniq[i]] == SeedStep(uniq, i, mergedTo, radius)[uniq[j]]
  {
    var nearby := Nearby(uniq, i, mergedTo, radius);
    assert uniq[j] in nearby && |nearby| > 1;
  }

  /** An unmerged seed takes every later unmerged endpoint within radius into its group: both
      end up merged to the same point. */
  lemma SeedGathersNeighbour(uniq: seq<Point>, i: int, j: int, radius: real)
    requires 0 <= i < j < |uniq|
    requires uniq[i] !in Phase1(uniq, i, radius) && uniq[j] !in Phase1(uniq, i, radius)
    requires Near(uniq[i], uniq[j], radius)
    ensures uniq[i] in Phase1(uniq, |uniq|, radius) && uniq[j] in Phase1(uniq, |uniq|, radius)
    ensures Phase1(uniq, |uniq|, radius)[uniq[i]] == Phase1(uniq, |uniq|, radius)[uniq[j]]
  {
    PickedMembers(uniq, uniq[i], i + 1, |uniq|, Phase1(uniq, i, radius), radius, uniq[j]);
    SeedStepJoins(uniq, i, Phase1(uniq, i, radius), radius, j);
    Phase1Step(uniq, i, radius);
    Phase1Keeps(uniq, i + 1, |uniq|, radius, uniq[i]);
    Phase1Keeps(uniq, i + 1, |uniq|, radius, uniq[j]);
  }

  /** The inner loop building the `nearby` list of seed uniq[i]. */
  method Gather(uniq: seq<Point>, i: int, mergedTo: map<Point, Point>, radius: real) returns (nearby: seq<Point>)
    requires 0 <= i < |uniq|
    ensures nearby == Nearby(uniq, i, mergedTo, radius)
  {
    nearby := [uniq[i]];
    var j := i + 1;
    while j < |uniq|
      invariant i + 1 <= j <= |uniq|
      invariant nearby == [uniq[i]] + Picked(uniq, uniq[i], i + 1, j, mergedTo, radius)
    {
      if uniq[j] !in mergedTo && Near(uniq[i], uniq[j], radius) {
        nearby := nearby + [uniq[j]];
      }
      j := j + 1;
    }
  }

  /** The `nearby` list of an unmerged seed holds the seed first, then exactly the later
      unmerged endpoints within radius. */
  lemma NearbyGathered(uniq: seq<Point>, i: int, mergedTo: map<Point, Point>, radius: real)
    requires 0 <= i < |uniq| && uniq[i] !in mergedTo
    ensures Gathered(uniq, i, mergedTo, radius, Nearby(uniq, i, mergedTo, radius))
  {
    var picked := Picked(uniq, uniq[i], i + 1, |uniq|, mergedTo, radius);
    var nearby := [uniq[i]] + picked;
    forall m | 0 < m < |nearby|
      ensures nearby[m] in uniq && nearby[m] !in mergedTo && Near(uniq[i], nearby[m], radius)
    {
      assert nearby[m] == picked[m - 1];
      PickedMembers(uniq, uniq[i], i + 1, |uniq|, mergedTo, radius, nearby[m]);
    }
    forall j | i < j < |uniq| && uniq[j] !in mergedTo && Near(uniq[i], uniq[j], radius)
      ensures uniq[j] in nearby
    {
      PickedMembers(uniq, uniq[i], i + 1, |uniq|, mergedTo, radius, uniq[j]);
    }
  }

  /** The requirements on a fresh group of unmerged endpoints and on the extended map. */
  ghost predicate FreshGroup(uniq: seq<Point>, mergedTo: map<Point, Point>, radius: real, nearby: seq<Point>, m2: map<Point, Point>)
  {
    && |nearby| > 1
    && (forall m :: 0 <= m < |nearby| ==> nearby[m] in uniq && nearby[m] !in mergedTo && Near(nearby[0], nearby[m], radius))
    && (forall v :: v in m2 <==> v in mergedTo || v in nearby)
    && (forall v :: v in mergedTo ==> m2[v] == mergedTo[v])
    && (forall v :: v in nearby ==> m2[v] == Average(nearby))
  }

  lemma AddShaped(uniq: seq<Point>, groups: seq<seq<Point>>, radius: real, nearby: seq<Point>)
    requires GroupsShaped(uniq, groups, radius)
    requires |nearby| > 1 && forall m :: 0 <= m < |nearby| ==> nearby[m] in uniq && Near(nearby[0], nearby[m], radius)
    ensures GroupsShaped(uniq, groups + [nearby], radius)
  {
    var gs := groups + [nearby];
    assert forall k :: 0 <= k < |groups| ==> gs[k] == groups[k];
  }

  lemma AddMapped(uniq: seq<Point>, mergedTo: map<Point, Point>, groups: seq<seq<Point>>, radius: real,
                  nearby: seq<Point>, m2: map<Point, Point>)
    requires GroupsMapped(mergedTo, groups) && FreshGroup(uniq, mergedTo, radius, nearby, m2)
    ensures GroupsMapped(m2, groups + [nearby])
  {
    var gs := groups + [nearby];
    forall k, m | 0 <= k < |gs| && 0 <= m < |gs[k]| && |gs[k]| > 0
      ensures gs[k][m] in m2 && m2[gs[k][m]] == Average(gs[k])
    {
      if k < |groups| {
        assert gs[k] == groups[k];
        assert groups[k][m] in mergedTo;
      } else {
        assert gs[k][m] in nearby;
      }
    }
  }

  lemma AddCover(uniq: seq<Point>, mergedTo: map<Point, Point>, groups: seq<seq<Point>>, radius: real,
                 nearby: seq<Point>, m2: map<Point, Point>)
    requires GroupsCover(mergedTo, groups) && FreshGroup(uniq, mergedTo, radius, nearby, m2)
    ensures GroupsCover(m2, groups + [nearby])
  {
    var gs := groups + [nearby];
    assert gs[..|gs| - 1] == groups;
    assert Members(gs) == Members(groups) + set v | v in nearby;
  }


  lemma AddDisjoint(uniq: seq<Point>, mergedTo: map<Point, Point>, groups: seq<seq<Point>>, radius: real,
                    nearby: seq<Point>, m2: map<Point, Point>)
    requires GroupsDisjoint(groups) && GroupsMapped(mergedTo, groups) && FreshGroup(uniq, mergedTo, radius, nearby, m2)
    ensures GroupsDisjoint(groups + [nearby])
  {
    var gs := groups + [nearby];
    forall k1, k2, v | 0 <= k1 < k2 < |gs| && v in gs[k1] ensures v !in gs[k2] {
      assert gs[k1] == groups[k1];
      if k2 == |groups| {
        var m :| 0 <= m < |groups[k1]| && groups[k1][m] == v;
        assert v in mergedTo;
      } else {
        assert gs[k2] == groups[k2];
      }
    }
  }

  /** Mapping every member of a fresh group of unmerged endpoints keeps the groups consistent. */
  lemma AddGroupOk(uniq: seq<Point>, mergedTo: map<Point, Point>, groups: seq<seq<Point>>, radius: real,
                   nearby: seq<Point>, m2: map<Point, Point>)
    requires GroupsOk(uniq, mergedTo, groups, radius)
    requires FreshGroup(uniq, mergedTo, radius, nearby, m2)
    ensures GroupsOk(uniq, m2, groups + [nearby], radius)
  {
    AddShaped(uniq, groups, radius, nearby);
    AddMapped(uniq, mergedTo, groups, radius, nearby, m2);
    AddCover(uniq, mergedTo, groups, radius, nearby, m2);
    AddDisjoint(uniq, mergedTo, groups, radius, nearby, m2);
  }

  /** The loop `for ep in nearby: endpoint_merged_to[ep] = merged_point`. */
  method MapAll(mergedTo: map<Point, Point>, nearby: seq<Point>, merged: Point) returns (m2: map<Point, Point>)
    requires forall v :: v in nearby ==> v !in mergedTo
    ensures forall v :: v in m2 <==> v in mergedTo || v in nearby
    ensures forall v :: v in mergedTo ==> m2[v] == mergedTo[v]
    ensures forall v :: v in nearby ==> m2[v] == merged
    ensures m2 == MapOver(mergedTo, nearby, merged)
  {
    m2 := mergedTo;
    var m := 0;
    while m < |nearby|
      invariant 0 <= m <= |nearby|
      invariant forall v :: v in m2 <==> v in mergedTo || v in nearby[..m]
      invariant forall v :: v in mergedTo ==> m2[v] == mergedTo[v]
      invariant forall v :: v in nearby[..m] ==> m2[v] == merged
    {
      assert nearby[..m + 1] == nearby[..m] + [nearby[m]];
      m2 := m2[nearby[m] := merged];
      m := m + 1;
    }
    assert nearby[..|nearby|] == nearby;
  }

  /** Unmerged endpoints before index i are more than radius away from every later unmerged one. */
  ghost predicate SeparatedBefore(uniq: seq<Point>, mergedTo: map<Point, Point>, i: int, radius: real)
  {
    forall a, b :: 0 <= a < i && a < b < |uniq| && uniq[a] !in mergedTo && uniq[b] !in mergedTo ==>
      !Near(uniq[a], uniq[b], radius)
  }

  /** Mapping more endpoints, the seed among them, keeps the unmerged ones pairwise apart. */
  lemma SeparatedAfterGroup(uniq: seq<Point>, mergedTo: map<Point, Point>, m2: map<Point, Point>, i: int, radius: real)
    requires 0 <= i < |uniq| && SeparatedBefore(uniq, mergedTo, i, radius)
    requires forall v :: v in mergedTo ==> v in m2
    requires uniq[i] in m2
    ensures SeparatedBefore(uniq, m2, i + 1, radius)
  {
  }

  /** The gathered neighbours of seed uniq[i], as `Gather` returns them. */
  ghost predicate Gathered(uniq: seq<Point>, i: int, mergedTo: map<Point, Point>, radius: real, nearby: seq<Point>)
    requires 0 <= i < |uniq|
  {
    && |nearby| > 0 && nearby[0] == uniq[i]
    && (forall m :: 0 <= m < |nearby| ==> nearby[m] in uniq && nearby[m] !in mergedTo)
    && (forall m :: 0 < m < |nearby| ==> Near(uniq[i], nearby[m], radius))
    && (forall j :: i < j < |uniq| && uniq[j] !in mergedTo && Near(uniq[i], uniq[j], radius) ==> uniq[j] in nearby)
  }

  /** A seed with no unmerged neighbour later in the list is more than radius away from every
      later unmerged endpoint. */
  lemma SeparatedAlone(uniq: seq<Point>, mergedTo: map<Point, Point>, i: int, radius: real, nearby: seq<Point>)
    requires 0 <= i < |uniq| && Distinct(uniq) && SeparatedBefore(uniq, mergedTo, i, radius)
    requires Gathered(uniq, i, mergedTo, radius, nearby) && |nearby| == 1
    ensures SeparatedBefore(uniq, mergedTo, i + 1, radius)
  {
  }

  /** A seed that forms no group leaves the unmerged endpoints before it pairwise apart. */
  lemma SkipKeepsSeparated(uniq: seq<Point>, i: int, mergedTo: map<Point, Point>, radius: real)
    requires 0 <= i < |uniq| && Distinct(uniq) && SeparatedBefore(uniq, mergedTo, i, radius)
    requires !FormsGroup(uniq, i, mergedTo, radius)
    ensures SeparatedBefore(uniq, mergedTo, i + 1, radius)
  {
    if uniq[i] in mergedTo {
      SeparatedAfterGroup(uniq, mergedTo, mergedTo, i, radius);
    } else {
      NearbyGathered(uniq, i, mergedTo, radius);
      SeparatedAlone(uniq, mergedTo, i, radius, Nearby(uniq, i, mergedTo, radius));
    }
  }

  /** A seed that forms a group keeps the groups consistent and the unmerged endpoints apart. */
  lemma FormKeepsOk(uniq: seq<Point>, i: int, mergedTo: map<Point, Point>, groups: seq<seq<Point>>, radius: real)
    requires 0 <= i < |uniq| && Distinct(uniq)
    requires GroupsOk(uniq, mergedTo, groups, radius) && SeparatedBefore(uniq, mergedTo, i, radius)
    requires FormsGroup(uniq, i, mergedTo, radius)
    ensures var nearby := Nearby(uniq, i, mergedTo, radius);
            var m2 := MapOver(mergedTo, nearby, Average(nearby));
            GroupsOk(uniq, m2, groups + [nearby], radius) && SeparatedBefore(uniq, m2, i + 1, radius)
  {
    var nearby := Nearby(uniq, i, mergedTo, radius);
    var m2 := MapOver(mergedTo, nearby, Average(nearby));
    NearbyGathered(uniq, i, mergedTo, radius);
    assert Near(uniq[i], nearby[1], radius);
    assert Near(nearby[0], nearby[0], radius);
    assert FreshGroup(uniq, mergedTo, radius, nearby, m2);
    SeparatedAfterGroup(uniq, mergedTo, m2, i, radius);
    AddGroupOk(uniq, mergedTo, groups, radius, nearby, m2);
  }

  /** One seed's turn keeps the groups consistent and the unmerged endpoints apart. */
  lemma SeedStepOk(uniq: seq<Point>, i: int, mergedTo: map<Point, Point>, groups: seq<seq<Point>>, radius: real)
    requires 0 <= i < |uniq| && Distinct(uniq)
    requires GroupsOk(uniq, mergedTo, groups, radius) && SeparatedBefore(uniq, mergedTo, i, radius)
    ensures GroupsOk(uniq, SeedStep(uniq, i, mergedTo, radius), StepGroups(uniq, i, mergedTo, groups, radius), radius)
    ensures SeparatedBefore(uniq, SeedStep(uniq, i, mergedTo, radius), i + 1, radius)
  {
    if FormsGroup(uniq, i, mergedTo, radius) {
      FormKeepsOk(uniq, i, mergedTo, groups, radius);
    } else {
      SkipKeepsSeparated(uniq, i, mergedTo, radius);
    }
  }

  /** After the first n seeds the groups are consistent and the unmerged endpoints before
      position n are pairwise more than radius apart. */
  lemma {:induction false} Phase1Ok(uniq: seq<Point>, n: int, radius: real)
    requires 0 <= n <= |uniq| && Distinct(uniq)
    ensures GroupsOk(uniq, Phase1(uniq, n, radius), Phase1Groups(uniq, n, radius), radius)
    ensures SeparatedBefore(uniq, Phase1(uniq, n, radius), n, radius)
  {
    if n > 0 {
      Phase1Ok(uniq, n - 1, radius);
      Phase1StepOk(uniq, n, radius);
    }
  }

  /** The turn of seed uniq[n - 1] keeps what `Phase1Ok` states. */
  lemma Phase1StepOk(uniq: seq<Point>, n: int, radius: real)
    requires 0 < n <= |uniq| && Distinct(uniq)
    requires GroupsOk(uniq, Phase1(uniq, n - 1, radius), Phase1Groups(uniq, n - 1, radius), radius)
    requires SeparatedBefore(uniq, Phase1(uniq, n - 1, radius), n - 1, radius)
    ensures GroupsOk(uniq, Phase1(uniq, n, radius), Phase1Groups(uniq, n, radius), radius)
    ensures SeparatedBefore(uniq, Phase1(uniq, n, radius), n, radius)
  {
    SeedStepOk(uniq, n - 1, Phase1(uniq, n - 1, radius), Phase1Groups(uniq, n - 1, radius), radius);
  }

  /** One turn of the phase 1 loop, for seed uniq[i]: when the seed is not merged yet and has
      unmerged neighbours, the seed and its neighbours become a new group mapped to their average. */
  method MergeSeed(uniq: seq<Point>, i: int, mergedTo: map<Point, Point>, ghost groups: seq<seq<Point>>, radius: real)
    returns (m2: map<Point, Point>, ghost g2: seq<seq<Point>>)
    requires 0 <= i < |uniq|
    ensures m2 == SeedStep(uniq, i, mergedTo, radius) && g2 == StepGroups(uniq, i, mergedTo, groups, radius)
  {
    m2, g2 := mergedTo, groups;
    if uniq[i] !in mergedTo {
      var nearby := Gather(uniq, i, mergedTo, radius);
      if |nearby| > 1 {
        NearbyGathered(uniq, i, mergedTo, radius);
        m2 := MapAll(mergedTo, nearby, Average(nearby));
        g2 := groups + [nearby];
      }
    }
  }

  /** Phase 1, the loop over `unique_endpoints` filling `endpoint_merged_to`. Besides the group
      invariant, two endpoints left unmerged are more than radius apart. */
  method MergeNearbyEndpoints(uniq: seq<Point>, radius: real)
    returns (mergedTo: map<Point, Point>, ghost groups: seq<seq<Point>>)
    requires Distinct(uniq)
    ensures mergedTo == Phase1(uniq, |uniq|, radius) && groups == Phase1Groups(uniq, |uniq|, radius)
    ensures GroupsOk(uniq, mergedTo, groups, radius)
    ensures forall a, b :: 0 <= a < b < |uniq| && uniq[a] !in mergedTo && uniq[b] !in mergedTo ==>
              !Near(uniq[a], uniq[b], radius)
  {
    mergedTo := map[];
    groups := [];
    var i := 0;
    while i < |uniq|
      invariant 0 <= i <= |uniq|
      invariant mergedTo == Phase1(uniq, i, radius) && groups == Phase1Groups(uniq, i, radius)
    {
      Phase1Step(uniq, i, radius);
      mergedTo, groups := MergeSeed(uniq, i, mergedTo, groups, radius);
      i := i + 1;
    }
    Phase1Ok(uniq, |uniq|, radius);
  }

  /** The walls an endpoint belongs to. */
  function Owners(walls: seq<Segment>, e: Point): set<int>
  {
    set i | 0 <= i < |walls| && (Start(walls[i]) == e || Finish(walls[i]) == e)
  }

  /** Phase 2 for one endpoint e, merged to m: the projection of m onto the first nearest wall
      not owning e that is closer than lineRadius; with no such wall, m itself. */
  ghost predicate LineCorrected(walls: seq<Segment>, e: Point, m: Point, lineRadius: real, c: RPoint)
  {
    if NoneAdmitted(walls, m, Owners(walls, e), false, Below(lineRadius)) then c == ToReal(m)
    else exists j :: 0 <= j < |walls| && IsFirstNearest(walls, m, Owners(walls, e), false, Below(lineRadius), j)
                     && c == ProjectPointOnSegment(m, Start(walls[j]), Finish(walls[j]))
  }

  /** `my_walls`, read off the usage map, is the set of walls owning e. */
  lemma OwnersFromUses(walls: seq<Segment>, uses: map<Point, seq<int>>, e: Point)
    requires forall p :: p in uses ==> uses[p] == SlotsOf(walls, p, 2 * |walls|)
    requires uses.Keys == Endpoints(walls)
    ensures (set k | k in (if e in uses then uses[e] else []) :: k / 2) == Owners(walls, e)
  {
    var mine := set k | k in (if e in uses then uses[e] else []) :: k / 2;
    forall i | i in Owners(walls, e) ensures i in mine {
      var k := if Start(walls[i]) == e then 2 * i else 2 * i + 1;
      assert EndAt(walls, k) == e;
      assert e in Endpoints(walls);
      SlotsOfMember(walls, e, 2 * |walls|, k);
    }
    forall i | i in mine ensures i in Owners(walls, e) {
      var k :| k in (if e in uses then uses[e] else []) && k / 2 == i;
      SlotsOfMember(walls, e, 2 * |walls|, k);
    }
  }

  /** Phase 2, the loop over `unique_endpoints` filling `correction_map`. */
  method LineCorrections(walls: seq<Segment>, uniq: seq<Point>, mergedTo: map<Point, Point>,
                         uses: map<Point, seq<int>>, lineRadius: real)
    returns (corr: map<Point, RPoint>)
    requires forall p :: p in uses ==> uses[p] == SlotsOf(walls, p, 2 * |walls|)
    requires uses.Keys == Endpoints(walls)
    ensures forall e :: e in corr <==> e in uniq
    ensures forall e :: e in corr ==>
              LineCorrected(walls, e, if e in mergedTo then mergedTo[e] else e, lineRadius, corr[e])
  {
    corr := map[];
    var i := 0;
    while i < |uniq|
      invariant 0 <= i <= |uniq|
      invariant forall e :: e in corr <==> e in uniq[..i]
      invariant forall e :: e in corr ==>
                  LineCorrected(walls, e, if e in mergedTo then mergedTo[e] else e, lineRadius, corr[e])
    {
      var endpoint := uniq[i];
      var merged := if endpoint in mergedTo then mergedTo[endpoint] else endpoint;
      var myWalls := set k | k in (if endpoint in uses then uses[endpoint] else []) :: k / 2;
      OwnersFromUses(walls, uses, endpoint);
      var best := FirstNearestSegment(walls, merged, myWalls, false, Below(lineRadius));
      var c := if best != -1 then ProjectPointOnSegment(merged, Start(walls[best]), Finish(walls[best]))
               else ToReal(merged);
      assert LineCorrected(walls, endpoint, merged, lineRadius, c);
      corr := corr[endpoint := c];
      assert uniq[..i + 1] == uniq[..i] + [endpoint];
      i := i + 1;
    }
    assert uniq[..|uniq|] == uniq;
  }

  /** The correction applied to one wall: both endpoints looked up (`correction_map.get(p, p)`)
      and truncated with `int`. */
  function Corrected(w: Segment, corr: map<Point, RPoint>): (r: Segment)
    ensures r.attrs == w.attrs
    ensures Start(r) == TruncPoint(if Start(w) in corr then corr[Start(w)] else ToReal(Start(w)))
    ensures Finish(r) == TruncPoint(if Finish(w) in corr then corr[Finish(w)] else ToReal(Finish(w)))
  {
    var s := if Start(w) in corr then corr[Start(w)] else ToReal(Start(w));
    var f := if Finish(w) in corr then corr[Finish(w)] else ToReal(Finish(w));
    WithEnds(w, TruncPoint(s), TruncPoint(f))
  }

  /** The apply loop building `fixed_walls`. */
  method ApplyCorrections(walls: seq<Segment>, corr: map<Point, RPoint>) returns (out: seq<Segment>)
    ensures |out| == |walls| && forall i :: 0 <= i < |walls| ==> out[i] == Corrected(walls[i], corr)
  {
    out := [];
    var i := 0;
    while i < |walls|
      invariant 0 <= i <= |walls| && |out| == i
      invariant forall j :: 0 <= j < i ==> out[j] == Corrected(walls[j], corr)
    {
      out := out + [Corrected(walls[i], corr)];
      i := i + 1;
    }
  }

  /** With a correction for every endpoint, each endpoint slot of the result is the truncated
      correction of the original endpoint, and every non-coordinate key is kept. */
  lemma CorrectedEnds(walls: seq<Segment>, uniq: seq<Point>, corr: map<Point, RPoint>, out: seq<Segment>)
    requires forall p :: p in uniq <==> p in Endpoints(walls)
    requires forall e :: e in corr <==> e in uniq
    requires |out| == |walls| && forall i :: 0 <= i < |walls| ==> out[i] == Corrected(walls[i], corr)
    ensures corr.Keys == Endpoints(walls)
    ensures KeepsRecords(walls, out)
    ensures forall k :: 0 <= k < 2 * |walls| ==> EndAt(out, k) == TruncPoint(corr[EndAt(walls, k)])
  {
    forall k | 0 <= k < 2 * |walls| ensures EndAt(out, k) == TruncPoint(corr[EndAt(walls, k)]) {
      assert EndAt(walls, k) in Endpoints(walls);
    }
  }

  /** The body of `fix_wall_endpoints(input_file, output_file, endpoint_snap_radius,
      line_snap_radius)` on an in-memory list: the wall count and every non-coordinate key are
      kept, and each endpoint is replaced by the truncation of its correction. */
  method FixWallEndpointsFile(walls: seq<Segment>, endpointRadius: real, lineRadius: real)
    returns (out: seq<Segment>, ghost uniq: seq<Point>, ghost mergedTo: map<Point, Point>,
             ghost groups: seq<seq<Point>>, ghost corr: map<Point, RPoint>)
    ensures Enumerates(uniq, Endpoints(walls))
    ensures corr.Keys == Endpoints(walls)
    ensures KeepsRecords(walls, out)
    ensures forall k :: 0 <= k < 2 * |walls| ==> EndAt(out, k) == TruncPoint(corr[EndAt(walls, k)])
    ensures forall e :: e in corr ==>
              LineCorrected(walls, e, if e in mergedTo then mergedTo[e] else e, lineRadius, corr[e])
    ensures mergedTo == Phase1(uniq, |uniq|, endpointRadius) && groups == Phase1Groups(uniq, |uniq|, endpointRadius)
    ensures GroupsOk(uniq, mergedTo, groups, endpointRadius)
    ensures forall a, b :: 0 <= a < b < |uniq| && uniq[a] !in mergedTo && uniq[b] !in mergedTo ==>
              !Near(uniq[a], uniq[b], endpointRadius)
  {
    var uses := EndpointUses(walls);
    var u := SetToSeq(Endpoints(walls));
    uniq := u;
    var m;
    m, groups := MergeNearbyEndpoints(u, endpointRadius);
    mergedTo := m;
    var c := LineCorrections(walls, u, m, uses, lineRadius);
    corr := c;
    out := ApplyCorrections(walls, c);
    CorrectedEnds(walls, u, c, out);
  }
}
