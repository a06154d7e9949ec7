# Map-Creator geometry core in Dafny

A Dafny model of the geometry pipeline of Map-Creator. The pipeline turns vectorized floor-plan
segments into a consistent graph of walls, stairs, rooms and entrances. The modelled passes are:

- global grid alignment of near-axis walls (`align_walls_globally`);
- extension of free wall endpoints onto the nearest other wall, keeping the wall's axis
  (`extend_endpoints`, `find_line_intersection`);
- self-correction of walls onto their dominant axis (`fix_wall_endpoints` in `pipeline_snap.py`);
- endpoint and line snapping of walls in two phases (`fix_wall_endpoints.py`);
- the two-priority stair-to-wall snap in both variants, with its post-passes: straightening,
  duplicate-vertex merging and merging onto wall vertices (`pipeline_snap.py`,
  `snap_stairs_to_walls.py`);
- sequential point numbering and the points mapping (`number_points`);
- room name parsing, quadrilateral centroids and room records (`pipeline_rooms.py`,
  `label_rooms.py`);
- midpoint entrances built from point pairs (`pipeline_entrances.py`, `entrances_from_pairs.py`);
- entrance enrichment from a details table (`name_entrances`).

Conventions used throughout the model:

- **Segments.** A segment is a record of four integer coordinates plus a map of its other keys.
  Slot `2i` of a list is the start of segment `i`, and slot `2i+1` is its end.
- **Distances.** Distances are kept squared. `sqrt(d) < thr` becomes `thr > 0 && d < thr*thr`,
  and `sqrt(d) <= tol` becomes `tol >= 0 && d <= tol*tol`.
- **Numbers.** Python floats are modelled as exact reals. `round()` rounds half to even, `int()`
  truncates toward zero, and `round(x, 1)` rounds to tenths.
- **Set order.** Iteration over a Python `set` has no fixed order. The model makes that order an
  explicit enumeration of the set (`Search.Enumerates`), built once per set and returned as a
  ghost output. Every scan of the same set uses that one enumeration, and a result that depends on
  the order is stated in terms of it.
- **Passes.** A pass that copies its input list and updates the copy is a method over sequences.
  Its `ensures` ties the output to a specification function or predicate, and the properties of
  that function are lemmas.

Two behaviours of the code that the model keeps exactly as written:

- `find_line_intersection` returns the point unmoved for a horizontal target when x is kept, and
  for a vertical target when y is kept. In the two other axis-aligned cases (a vertical target
  when x is kept, a horizontal one when y is kept) it uses `t = 0`, so the result is the target's
  first endpoint. `Extend.HorizontalTargetKeepingX` shows one consequence: a vertical wall is not
  extended onto a horizontal wall.
- `align_walls_globally` applies the rules to every line, including lines that contributed no
  coordinates to the pools (`pipeline_jsonfix.py:76-98`). The model does the same: `Snapped`
  holds for every line.

## Model

| member | source | states |
|---|---|---|
| Numeric.RoundHalfEven | pipeline_jsonfix.py:61 | `round(r)` is within 1/2 of r, and a tie goes to the even integer |
| Numeric.RoundHalfEvenUnique | pipeline_jsonfix.py:61 | only one integer meets those two conditions, so they define `round` |
| Numeric.RoundedMidBetween | pipeline_snap.py:79 | the rounded mean of two integers lies between them |
| Numeric.Trunc | pipeline_extend_endpoints.py:186-187 | `int(r)` drops the fraction toward zero |
| Numeric.RoundTenths | entrances_from_pairs.py:40-41 | `round(r, 1)` is within 0.05 of r |
| Numeric.RoundTenthsOfHalf | entrances_from_pairs.py:33-42 | rounding a half-integer to one decimal leaves it unchanged |
| Numeric.MinOf | pipeline_jsonfix.py:64 | `min(c)` is a member of c and no member is smaller |
| Numeric.MaxOf | pipeline_jsonfix.py:65 | `max(c)` is a member of c and no member is larger |
| Numeric.MeanRoundsBetween | pipeline_jsonfix.py:61 | the rounded mean of a cluster lies between its minimum and its maximum |
| Geometry.DistSq | pipeline_snap.py:4-6 | the squared distance is non-negative and zero exactly for equal points |
| Geometry.EndpointsMember | pipeline_snap.py:272-275 | a point is a wall endpoint exactly when some wall starts or ends there |
| Geometry.SetEndAt | pipeline_extend_endpoints.py:184-191 | one endpoint slot is replaced; every other slot and every other key is kept |
| Geometry.WithEnds | pipeline_jsonfix.py:96-97 | both endpoints are replaced and the record's other keys are kept |
| Geometry.Clamp01 | pipeline_snap.py:31 | `max(0, min(1, t))` lies in [0, 1], equals t inside that range, and is 0 or 1 outside |
| Geometry.ProjectParam | pipeline_snap.py:24-31 | the projection parameter always lies in [0, 1] |
| Geometry.ProjectParamClamps | pipeline_snap.py:28-31 | for a segment of non-zero length, the parameter is the clamped foot of the perpendicular |
| Geometry.ProjectPointOnSegment | pipeline_snap.py:8-36 | for a zero-length segment the result is the start point; otherwise it is the point of the segment at the clamped parameter |
| Geometry.DistSqPointToSegment | pipeline_snap.py:38-55 | the distance is the distance to the projected point, and no point of the segment is nearer |
| Geometry.ProjectionIsNearest | pipeline_snap.py:8-55 | the projection is the nearest point of the segment to p |
| Geometry.TruncPointOfInt | fix_wall_endpoints.py:166-169 | `int()` leaves integer coordinates unchanged |
| Geometry.RoundPointOfInt | snap_stairs_to_walls.py:297-300 | `int(round())` leaves integer coordinates unchanged |
| Strings.Strip | pipeline_rooms.py:24 | the stripped text is no longer than the input and has no whitespace at either end |
| Strings.StripIsSlice | pipeline_rooms.py:24 | `strip` removes only whitespace, from both ends, and keeps the slice in between |
| Strings.StripIdempotent | pipeline_rooms.py:24 | stripping twice gives the same text as stripping once |
| Strings.StripEmptyIffBlank | pipeline_rooms.py:21 | the text strips to empty exactly when it is all whitespace |
| Strings.SplitFirst | pipeline_rooms.py:28 | `split(':', 1)` gives the text before the first colon and the text after it |
| Strings.ParseDecimalString | pipeline_rooms.py:30 | `int(str(n)) == n` |
| Strings.DecimalStringInjective | number_points.py:75 | different ids give different `str(pid)` keys |
| Search.FirstNearestSegment | pipeline_extend_endpoints.py:124-154 | gives -1 exactly when no eligible segment beats the bound; otherwise the first eligible segment at minimum distance |
| Search.FirstNearestUnique | pipeline_extend_endpoints.py:151-154 | the strict `<` update picks one segment: the first nearest one is unique |
| Search.SetToSeq | fix_wall_endpoints.py:92 | `list(set(endpoints))` is an enumeration: it lists each member of the set exactly once and nothing else |
| Search.FirstNearestPoint | pipeline_snap.py:286-292 | scanning a point list with a strict `<`: -1 exactly when no point beats the bound; otherwise the first point at minimum distance |
| Search.FirstNearestPointUnique | pipeline_snap.py:289-292 | the strict `<` update picks one point: the first nearest one in a given order is unique |
| Search.FirstNearestPointInSet | snap_stairs_to_walls.py:265-269 | over an enumeration of a set, the point found is a member no farther from p than any other member |
| Search.EndpointUses | pipeline_extend_endpoints.py:85-97 | the usage map has every endpoint as a key and lists that endpoint's slots in order |
| Search.SlotsOfMember | pipeline_extend_endpoints.py:91-97 | a slot is listed under p exactly when it holds p |
| Search.SlotsDistinct | pipeline_extend_endpoints.py:96-97 | the listed slots increase strictly |
| Search.UsesKeys | pipeline_extend_endpoints.py:86-94 | a map from each point to its nonempty list of uses has exactly the endpoints as keys |
| Search.SingleUseIsFree | pipeline_extend_endpoints.py:99-100 | `len(uses) == 1` holds exactly when no other slot holds the same point |
| Extend.FindLineIntersection | pipeline_extend_endpoints.py:5-64 | gives the point back for the guarded cases; otherwise the rounded point of the target line at the crossing parameter, which clamping keeps in [0, 1] |
| Extend.AlongTargetGivesStart | pipeline_extend_endpoints.py:33-37 | keeping x on a vertical target, or keeping y on a horizontal one, uses t = 0 and gives the target's first endpoint |
| Extend.HorizontalTargetKeepingX | pipeline_extend_endpoints.py:27-29 | keeping x, a horizontal target leaves the endpoint where it is |
| Extend.CrossingKeepsX | pipeline_extend_endpoints.py:25-44 | keeping x on a slanted target keeps x exactly and solves the line equation for y |
| Extend.CrossingKeepsY | pipeline_extend_endpoints.py:45-64 | keeping y on a slanted target keeps y exactly and solves the line equation for x |
| Extend.ClampedCrossingOnSegment | pipeline_extend_endpoints.py:39-44 | with clamping, the result is a rounded point of the segment |
| Extend.SnapTarget | pipeline_extend_endpoints.py:117-191 | a mostly vertical owner keeps x; a mostly horizontal one keeps y; a diagonal one goes to the truncated nearest point of the target |
| Extend.SnapKeepsAxis | pipeline_extend_endpoints.py:157-178 | the snapped endpoint keeps its x (vertical owner) or y (horizontal owner) unless the target runs along that axis |
| Extend.ExtendAt | pipeline_extend_endpoints.py:106-195 | a free endpoint either stays where it is, when no other segment is closer than the snap distance, or moves onto the first nearest one; no other slot changes |
| Extend.VisitSlot | pipeline_extend_endpoints.py:99-106 | only a free slot is processed |
| Extend.ExtendEndpoints | pipeline_extend_endpoints.py:66-198 | an empty list comes back as given; record count and other keys are kept; shared endpoints never move; each free endpoint's step is recorded in order |
| GridAlign.PoolMember | pipeline_jsonfix.py:23-38 | a value is pooled exactly when it is a coordinate of some near-axis segment |
| GridAlign.CollectPools | pipeline_jsonfix.py:18-38 | the loop builds exactly the x pool and the y pool |
| GridAlign.Insert | pipeline_jsonfix.py:43 | inserting into a sorted unique list keeps it sorted and unique, and adds only v |
| GridAlign.SortedUnique | pipeline_jsonfix.py:43 | `sorted(list(set(coords)))` is strictly increasing and has the same members as coords |
| GridAlign.ChainClusters | pipeline_jsonfix.py:45-57 | the clusters split the sorted values, in order, into chained runs separated by gaps above the threshold |
| GridAlign.RuleOf | pipeline_jsonfix.py:59-67 | a rule's range is the cluster's min - 2 to max + 2, and its target is the rounded mean, which lies inside the cluster's range |
| GridAlign.BuildRules | pipeline_jsonfix.py:59-68 | one rule per cluster, in order |
| GridAlign.GetSnapRules | pipeline_jsonfix.py:41-68 | no rules exactly for an empty pool; otherwise one rule per cluster of the sorted unique values |
| GridAlign.SnapValue | pipeline_jsonfix.py:84-91 | a value takes the target of a rule covering it, or is kept when no rule covers it |
| GridAlign.SnapBySeparated | pipeline_jsonfix.py:84-91 | when rules are disjoint, the one rule covering v decides |
| GridAlign.RulesSeparated | pipeline_jsonfix.py:4 | a cluster gap of 20 exceeds twice the padding of 2, so rule ranges are disjoint |
| GridAlign.SameClusterConverges | pipeline_jsonfix.py:41-91 | two values of one cluster are snapped to the same target |
| GridAlign.SnapPair | pipeline_jsonfix.py:84-91 | the loop over one axis' rules gives each of the two coordinates the target of the last rule covering it, or keeps it |
| GridAlign.AlignLine | pipeline_jsonfix.py:76-97 | each endpoint coordinate is snapped by its axis' rules and the other keys are kept |
| GridAlign.ApplyRules | pipeline_jsonfix.py:76-98 | every line is snapped, in order |
| GridAlign.AlignWallsGlobally | pipeline_jsonfix.py:7-100 | an empty input gives `[]`; otherwise length, order and keys are kept, both pools are clustered, and every line is snapped by the rules |
| GridAlign.AlignConverges | pipeline_jsonfix.py:7-100 | two near-axis x coordinates in the same cluster come out equal |
| GridAlign.AlignConvergesY | pipeline_jsonfix.py:7-100 | two near-axis y coordinates in the same cluster come out equal |
| StairSnap.StraightenOne | pipeline_snap.py:73-94 | x's differing by 1..tol become their rounded mean, which lies between them; only otherwise the same happens for the y's; keys are kept |
| StairSnap.StraightenOneAxis | pipeline_snap.py:77-88 | at most one axis changes, and an axis that changes ends up exactly equal at both ends |
| StairSnap.StraightenStairLines | pipeline_snap.py:57-98 | every stair is straightened, in order |
| StairSnap.FirstNearUnique | pipeline_snap.py:127-131 | the `break` at the first vertex within tol picks one vertex: the first near vertex is unique |
| StairSnap.RegisteredFromInput | pipeline_snap.py:115-135 | every vertex `vertices` registers is an endpoint held by one of the slots visited |
| StairSnap.RegisteredSeparated | pipeline_snap.py:127-135 | the registered vertices are pairwise more than tol apart |
| StairSnap.FirstNearIndex | pipeline_snap.py:127-131 | finds the first registered vertex within tol, or reports that none is |
| StairSnap.RegisterKeepsMap | pipeline_snap.py:133-135 | registering a vertex that is near no canonical vertex keeps the vertex map consistent |
| StairSnap.MapKeepsMap | pipeline_snap.py:127-131 | mapping a vertex to the first canonical vertex near it keeps the vertex map consistent |
| StairSnap.VisitVertex | pipeline_snap.py:116-135 | one turn skips a vertex met before, maps a new one to the first registered vertex within tol, or registers it; the map and the list stay as `Registered` prescribes after one more slot |
| StairSnap.BuildVertexMap | pipeline_snap.py:111-135 | the registered vertices are exactly `Registered` over all slots, in slot order; `vertex_map` has exactly the endpoints as keys, each mapped to the first registered vertex within tol; registered vertices map to themselves |
| StairSnap.MapEnds | pipeline_snap.py:141-155 | both endpoints go through `vertex_map.get(v, v)` and keys are kept |
| StairSnap.MergeDuplicateVertices | pipeline_snap.py:100-159 | the canonical vertices are those `Registered` in slot order, pairwise more than tol apart; every output endpoint is canonical; an endpoint stays exactly when it is canonical and otherwise goes to the first canonical vertex within tol; record count and keys are kept |
| StairSnap.IsolatedEndpointKept | pipeline_snap.py:115-157 | an endpoint with no other endpoint of the list within tol keeps its place |
| StairSnap.MergeStairsToWalls | pipeline_snap.py:161-212 | `wall_vertices` is enumerated once; each stair endpoint goes to the first vertex of that enumeration within tol, or stays when none is; records and keys are kept |
| StairSnap.MergedToWallsExclusive | pipeline_snap.py:190-202 | after merging, a stair vertex is a wall vertex or farther than tol from every wall vertex |
| StairSnap.MergedToWallsConsistent | pipeline_snap.py:190-202 | the same stair vertex always goes to the same place, so a corner shared by two stairs stays shared |
| StairSnap.SelfCorrect | pipeline_snap.py:225-238 | a mostly vertical wall gets both x's set to their floored mean; any other wall gets both y's set |
| StairSnap.SelfCorrectProperties | pipeline_snap.py:228-238 | the corrected wall stays within the original's bounding box, and correcting twice is correcting once |
| StairSnap.FixWallEndpoints | pipeline_snap.py:214-240 | an empty list comes back as given; otherwise every wall is self-corrected, in order |
| StairSnap.FixWallEndpointsIdempotent | pipeline_snap.py:214-240 | running the pass on its own output changes nothing |
| StairSnap.PrioritySnapDeterministic | pipeline_snap.py:277-310 | for fixed walls and a fixed enumeration of `wall_endpoints`, a point has exactly one snap |
| StairSnap.SnapPoint | pipeline_snap.py:279-310 | the first nearest wall endpoint in the enumeration closer than the endpoint threshold; failing that, the truncated projection onto the first nearest wall closer than the line threshold; failing that, p |
| StairSnap.SnapEndpoints | pipeline_snap.py:277-343 | both endpoints of every stair are snapped by priority against one enumeration of the wall endpoints |
| StairSnap.SnapStairsToWalls | pipeline_snap.py:242-354 | no stairs or no walls: input returned; otherwise, with one enumeration of `wall_endpoints` and one of `wall_vertices`: snap by priority, straighten (10), merge duplicates (2), merge onto wall vertices (5), keeping keys |
| StairSnapFile.SnapByRadius | snap_stairs_to_walls.py:260-291 | the first nearest wall endpoint in the enumeration when it is within the radius, else the projection onto the first nearest wall, else p |
| StairSnapFile.StairAttrs | snap_stairs_to_walls.py:301-305 | the rebuilt record carries exactly the original coordinates and `type = 'stair'` |
| StairSnapFile.SnappedRecord | snap_stairs_to_walls.py:296-306 | the snapped positions are rounded into the new record |
| StairSnapFile.EndpointSnapExact | snap_stairs_to_walls.py:263-274 | an endpoint snapped to a wall endpoint lands on it exactly after rounding, and no wall endpoint is nearer to it |
| StairSnapFile.SnapStair | snap_stairs_to_walls.py:256-307 | both points of a stair are snapped and the record rebuilt |
| StairSnapFile.SnapAll | snap_stairs_to_walls.py:254-307 | every stair is rebuilt, in order |
| StairSnapFile.TypedWall | snap_stairs_to_walls.py:319-320 | a wall copy keeps its coordinates and keys and gets `type = 'wall'` |
| StairSnapFile.TypeWalls | snap_stairs_to_walls.py:317-321 | every wall is typed, in order |
| StairSnapFile.SnapStairsFile | snap_stairs_to_walls.py:243-324 | the combined list is the typed walls followed by the processed stairs; `list(set(wall_endpoints))` and the wall vertex set are each enumerated once and every stair goes through the radius snap, straightening, duplicate merge and wall-vertex merge against them |
| WallFix.AverageInBox | fix_wall_endpoints.py:109-111 | the merged point lies in the bounding box of its group |
| WallFix.PickedMembers | fix_wall_endpoints.py:101-105 | a point is picked exactly when it lies in the scanned range, is not merged yet and is within the radius of the seed |
| WallFix.PickedDistinct | fix_wall_endpoints.py:101-105 | picking from a list without repeats picks no point twice |
| WallFix.NearbyDistinct | fix_wall_endpoints.py:100-105 | a `nearby` list holds no point twice, so the average counts each member once |
| WallFix.SeedStepKeeps | fix_wall_endpoints.py:96-114 | a turn only adds entries to `endpoint_merged_to`: an endpoint merged before keeps its merged point |
| WallFix.Phase1Keeps | fix_wall_endpoints.py:95-115 | once merged, an endpoint keeps its merged point through every later turn |
| WallFix.SeedStepJoins | fix_wall_endpoints.py:107-114 | on the turn of an unmerged seed, a picked neighbour is merged to the same point as the seed |
| WallFix.SeedGathersNeighbour | fix_wall_endpoints.py:95-115 | an unmerged seed and a later endpoint within the radius that is unmerged on the seed's turn end up merged to the same point |
| WallFix.Gather | fix_wall_endpoints.py:100-105 | `nearby` is the seed followed by exactly the later unmerged endpoints within the radius, in list order |
| WallFix.NearbyGathered | fix_wall_endpoints.py:100-105 | the `nearby` list of an unmerged seed starts with the seed, holds only unmerged endpoints within the radius, and holds every later one |
| WallFix.MapAll | fix_wall_endpoints.py:113-114 | every member of the group is mapped to the merged point and earlier entries are kept |
| WallFix.AddGroupOk | fix_wall_endpoints.py:107-114 | adding a fresh group keeps the groups shaped, mapped, disjoint and covering |
| WallFix.SeparatedAfterGroup | fix_wall_endpoints.py:95-97 | once the seed is merged, the unmerged endpoints stay pairwise apart |
| WallFix.SeparatedAlone | fix_wall_endpoints.py:100-107 | a seed with no unmerged neighbour is farther than the radius from every later unmerged endpoint |
| WallFix.SkipKeepsSeparated | fix_wall_endpoints.py:96-107 | a seed that forms no group leaves the unmerged endpoints up to it pairwise apart |
| WallFix.FormKeepsOk | fix_wall_endpoints.py:107-114 | a seed that forms a group keeps the groups consistent and the unmerged endpoints apart |
| WallFix.SeedStepOk | fix_wall_endpoints.py:95-115 | every turn keeps the groups consistent and the unmerged endpoints apart |
| WallFix.Phase1Ok | fix_wall_endpoints.py:91-115 | after any number of turns the groups are shaped, mapped to their rounded averages, disjoint and covering every merged endpoint, and the unmerged endpoints seen so far are pairwise farther apart than the radius |
| WallFix.MergeSeed | fix_wall_endpoints.py:95-115 | one turn computes exactly `SeedStep`: an unmerged seed with unmerged neighbours maps itself and them to their rounded average and adds that group; otherwise nothing changes |
| WallFix.MergeNearbyEndpoints | fix_wall_endpoints.py:91-115 | the loop computes `Phase1` over the whole list; the groups are consistent, and two endpoints left unmerged are farther apart than the radius |
| WallFix.OwnersFromUses | fix_wall_endpoints.py:122 | `my_walls` is the set of walls owning the endpoint |
| WallFix.LineCorrections | fix_wall_endpoints.py:117-147 | every endpoint gets the projection of its merged point onto the first nearest non-owning wall closer than the line radius, or its merged point |
| WallFix.Corrected | fix_wall_endpoints.py:153-169 | both endpoints are looked up with `get(p, p)` and truncated; keys are kept |
| WallFix.ApplyCorrections | fix_wall_endpoints.py:149-171 | every wall is corrected, in order |
| WallFix.CorrectedEnds | fix_wall_endpoints.py:153-169 | every endpoint slot becomes the truncated correction of its original endpoint |
| WallFix.FixWallEndpointsFile | fix_wall_endpoints.py:67-171 | the whole pass: `unique_endpoints` enumerates the endpoints; phase 1 is `Phase1` over it, with consistent groups and separated leftovers; every endpoint is projected onto other walls; every slot becomes the truncated correction; count and other keys are kept |
| Rooms.ParseBlank | pipeline_rooms.py:21-22 | neither part comes out exactly when the name is missing or whitespace |
| Rooms.ParseWithoutColon | pipeline_rooms.py:36-37 | a stripped name without a colon is kept whole |
| Rooms.ParseWithNumber | pipeline_rooms.py:27-32 | an integer before the first colon gives that number and the stripped rest |
| Rooms.ParseWithoutNumber | pipeline_rooms.py:33-35 | a non-integer before the first colon keeps the whole stripped name |
| Rooms.ParsedNameStripped | pipeline_rooms.py:21-37 | a parsed name never has surrounding whitespace |
| Rooms.NoNumberKeepsWholeName | pipeline_rooms.py:27-37 | without a number, the name is the whole stripped input; with one, it came from the text before the colon |
| Rooms.ParseFormatted | pipeline_rooms.py:7-37 | a number and a stripped name written as "number: name" parse back to both |
| Rooms.ParseLift | pipeline_rooms.py:13 | "Lift" parses to no number and the name "Lift" |
| Rooms.ParseGentsToilet | pipeline_rooms.py:12 | "114: Gents Toilet" parses to 114 and "Gents Toilet" |
| Rooms.PointSumPermutation | pipeline_rooms.py:51-52 | the coordinate sums do not depend on the order of the points |
| Rooms.CentroidPermutation | pipeline_rooms.py:40-53 | the centroid does not depend on the order of the four points |
| Rooms.Lookup | pipeline_rooms.py:70-73 | `points[str(id)]` succeeds exactly for a mapped id and fails with that key otherwise |
| Rooms.CreateRoomFromPoints | pipeline_rooms.py:56-91 | fails on the first unmapped id; otherwise the room has the given id, the centroid, the parsed name and number, and the four ids |
| RoomLabels.GetPointFromId | label_rooms.py:12-19 | the mapped point, or the "not found in mapping" error |
| RoomLabels.LabelOne | label_rooms.py:67-101 | a label exactly for a list or dict entry with four mapped points; it sits at their centroid |
| RoomLabels.LabelRooms | label_rooms.py:54-107 | the output file defaults to the rooms file; `total_rooms` counts the table; the labels are those of the passing rooms, in order |
| RoomLabels.EmittedConcat | label_rooms.py:67-106 | each room is labelled or skipped on its own |
| RoomLabels.EmittedLength | label_rooms.py:76-81 | at most one label per entry, and exactly one each when every room passes |
| RoomLabels.EmittedFromTable | label_rooms.py:94-101 | every label comes from a passing table entry and carries its id |
| RoomLabels.LookupNumberedPoint | label_rooms.py:14-17 | looking up the id a point was numbered with gives that point back |
| PointNumbering.SeenMembers | number_points.py:24-34 | a point is numbered after n slots exactly when one of those slots holds it |
| PointNumbering.SeenDistinct | number_points.py:28-34 | no point is numbered twice |
| PointNumbering.SeenAll | number_points.py:24-34 | after every slot, the numbered points are exactly the endpoints |
| PointNumbering.SeenPrefix | number_points.py:24-34 | the order of first sightings only grows |
| PointNumbering.FirstSlot | number_points.py:24-28 | finds the first slot holding p |
| PointNumbering.IdsOf | number_points.py:28-33 | a point has an id exactly when it is in the order |
| PointNumbering.IdsOfPositions | number_points.py:29 | in a duplicate-free order, each point's id is its position |
| PointNumbering.IdsOfSize | number_points.py:74 | the numbering has as many entries as the order |
| PointNumbering.Visit | number_points.py:28-34 | one `if p not in unique_points` step extends the numbering by the next slot |
| PointNumbering.VisitSegment | number_points.py:24-34 | one segment's turn numbers its start, then its end |
| PointNumbering.NumberPoints | number_points.py:20-34 | the loop computes the first-sighting numbering, and `point_id` is the number of points seen |
| PointNumbering.NumberingOfSeen | number_points.py:20-34 | every endpoint gets one id, the ids run from 0 up to the count, and p's id is its position among first sightings |
| PointNumbering.IdIsFirstSighting | number_points.py:28-34 | a point's id is the number of distinct points met before its first occurrence |
| PointNumbering.FirstSightingsGrow | number_points.py:24-34 | a point first met earlier has fewer points before it |
| PointNumbering.IdsInFirstSeenOrder | number_points.py:24-34 | p's id is below q's exactly when p is met first |
| PointNumbering.NumberingIsInjective | number_points.py:28-34 | distinct points have distinct ids |
| PointNumbering.PointsMapping | number_points.py:75 | each point is listed under `str(id)`, and every key comes from some point |
| PointNumbering.FirstUntyped | number_points.py:50-56 | the first segment without a `type` key, or -1 exactly when every segment has one |
| PointNumbering.SeenIdsInjective | number_points.py:28-34 | the first-sighting numbering gives distinct points distinct ids |
| PointNumbering.PointsMappingContents | number_points.py:73-76 | with injective ids below the count, every point is listed under the decimal form of its id, and every key is such a form and names a point |
| PointNumbering.PointsMappingFile | number_points.py:13-77 | no segments: the `min()` of line 38 fails; a segment without `type`: the `KeyError` of line 56, at the first such segment; otherwise `points` is the mapping of the first-sighting numbering and `total_points` the number of distinct endpoints |
| Entrances.Midpoint | entrances_from_pairs.py:33-42 | the rounded midpoint is exactly the midpoint and lies between the two points on each axis |
| Entrances.MidpointSymmetric | entrances_from_pairs.py:33-36 | the midpoint does not depend on the order of the two points |
| Entrances.MidpointOfSame | entrances_from_pairs.py:33-42 | the midpoint of a point with itself is that point |
| Entrances.CreateEntranceFromPair | pipeline_entrances.py:12-60 | None exactly when an id is unmapped; otherwise the given id, available, at the midpoint; name and room number only when truthy; `stairs` present exactly when truthy |
| Entrances.CreateEntranceSwap | pipeline_entrances.py:31-38 | swapping the two ids gives the same entrance |
| Entrances.PairEntranceAt | entrances_from_pairs.py:25-42 | an entrance exactly when both points are mapped, carrying the given id and the midpoint |
| Entrances.CreateEntrancesFromPairs | entrances_from_pairs.py:20-44 | the loop produces the entrances of the pair list in order |
| Entrances.FromPairsIds | entrances_from_pairs.py:24-27 | at most one entrance per pair; ids lie in 1 .. the number of pairs and increase strictly |
| Entrances.FromPairsMembers | entrances_from_pairs.py:24-42 | an entrance appears exactly for each pair with both points mapped, with the pair's 1-based position as its id |
| Entrances.FromPairsSound | entrances_from_pairs.py:24-42 | every entrance produced comes from a pair with both points mapped, at that pair's position |
| Entrances.FromPairsComplete | entrances_from_pairs.py:24-42 | every pair with both points mapped contributes its entrance |
| Entrances.PairEntranceSwap | entrances_from_pairs.py:33-36 | swapping a pair's ids does not move its entrance |
| Entrances.FromPairsAllMapped | entrances_from_pairs.py:24-42 | when every pair is mapped, the i-th entrance has id i + 1 |
| Entrances.BuildersAgree | pipeline_entrances.py:28-45 | both builders place an entrance for the same pairs, with the same id and coordinates |
| EntranceNaming.Enriched | name_entrances.py:48-57 | keys present in the details overwrite; every other key, `id` included, is kept; an entrance without details is unchanged |
| EntranceNaming.EnrichedIdempotent | name_entrances.py:48-57 | enriching twice is enriching once |
| EntranceNaming.NameEntrances | name_entrances.py:40-57 | output file defaults to the input; a missing `id` raises `KeyError`; otherwise same entrances in the same order, each enriched |

## Left out

- File and JSON I/O (`load_json`, `save_json`, `save_entrances`, `save_entrances_json`, `save_rooms_json`, `load_points_mapping`, `open`, `json.dump`) is not modelled. Every pass takes and returns in-memory values.
- Printed diagnostics and the counters that only feed them (`modifications`, `corrections`, `merges_applied`, `fixes_applied`, `skewed_lines_detected`, the name/room/availability counts) are not modelled.
- Floating point is not modelled: floats are exact reals, so the rounding error of `/`, `**` and `sqrt` is absent.
- Image rendering is not modelled: `visualize_extended_endpoints`, `pipeline_verifycoord.py`, `visualize_combined.py` and `visualize_entrances_final.py` only draw. The image that `number_points` draws (canvas size, lines, circles, labels, `cv2.imwrite`) is left out too; its two reads that can raise before `save_json` (`min()` on an empty list, `seg['type']`) are the failures of `PointNumbering.PointsMappingFile`.
- `ui_app.py` and `pipeline_skeleton.py` are not part of this model. They are the interactive front end and the raster stage, not geometry.
- The hard-coded room and entrance tables (`label_rooms.py:36-52`, `name_entrances.py:10-38`) are data. They are parameters of `RoomLabels.LabelRooms` and `EntranceNaming.NameEntrances`.
- Ray-cast entrances are not modelled: no shown file implements them.
- In-place mutation and aliasing are not modelled. Every pass already copies its input (`dict(line)`, `stair.copy()`) before changing it, so the model works on values. `name_entrances` alone updates the loaded dicts in place; the model returns the updated list.
- Python's actual set iteration order (hash order) is not computed. The model fixes one enumeration per set and states every result that depends on the order (`merge_stairs_to_walls` picking among wall vertices, ties in the nearest wall endpoint, `list(set(endpoints))`) in terms of that enumeration.
- `int()` accepts Unicode decimal digits and `str.strip` follows Unicode whitespace. `Strings.ParseInt` accepts ASCII digits with `_` separators and an optional sign, and `Strings.IsSpace` lists Python's whitespace characters explicitly.
- Entrances.CreateEntrancesFromPairs: the mapping is assumed to have canonical decimal keys, as `number_points` writes them. The re-keying `{int(pid): ...}` at `entrances_from_pairs.py:20` is not modelled: a key `int()` rejects (a `ValueError`) and two keys that `int()` maps to one id are outside the model.
- PointNumbering.PointsMappingFile: reading the mapping back through `int(pid)` is modelled only for keys written by `str(pid)` (`Strings.ParseDecimalString`).
- GridAlign.GetSnapRules: requires a non-negative threshold. The source only ever passes 20.
- GridAlign.ChainClusters: requires a non-negative threshold for the same reason.
- JSON values other than integers, strings, booleans and null are not modelled (`Geometry.Value`). This covers room and entrance names, `stairs`, and `id` values. Python's `1 == True` is modelled when an `id` is looked up in the details table (`EntranceNaming.IdKey`), but float ids are not.
- A room's name in `label_rooms` is typed as an optional string; other JSON values for `name` are not modelled.
- Point ids in room and pair tables are integers, so `str(point_id)` is `str` of an int.
