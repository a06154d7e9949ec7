/** Labelling rooms from a table of four-point quadrilaterals: each well-formed room whose points
    are all in the points mapping becomes a label at its centroid; the others are skipped. */
module RoomLabels {
  import opened Wrappers
  import opened Numeric
  import opened Strings
  import opened Geometry
  import opened Rooms
  import opened PointNumbering

  /** The error `get_point_from_id` raises for an id missing from the mapping. */
  function NotFound(id: int): string
  {
    "Point ID " + DecimalString(id) + " not found in mapping"
  }

  /** `get_point_from_id(points_mapping, point_id)`, with `points_mapping['points']` as the map. */
  function GetPointFromId(points: map<string, Point>, id: int): (r: Result<Point, string>)
    ensures r.Success? <==> DecimalString(id) in points
    ensures r.Success? ==> r.value == points[DecimalString(id)]
    ensures r.Failure? ==> r.error == NotFound(id)
  {
    var key := DecimalString(id);
    if key in points then Success(points[key]) else Failure(NotFound(id))
  }

  /** One entry of the room table: a bare list of point ids, a dict with optional `point_ids`
      and `name`, or anything else. */
  datatype RoomDef = ListDef(ids: seq<int>) | DictDef(pointIds: Option<seq<int>>, name: Option<string>) | OtherDef

  /** One entry of `rooms_data['rooms']`. */
  datatype RoomLabel = RoomLabel(id: int, x: real, y: real, name: Option<string>, pointIds: seq<int>)

  /** The point ids a table entry names (`[]` when a dict has none). */
  function PointIdsOf(def: RoomDef): seq<int>
    requires !def.OtherDef?
  {
    if def.ListDef? then def.ids else def.pointIds.GetOr([])
  }

  /** The name a table entry gives (None for a bare list). */
  function NameOf(def: RoomDef): Option<string>
    requires !def.OtherDef?
  {
    if def.ListDef? then None else def.name
  }

  /** Every point of the room is in the mapping. */
  predicate AllMapped(points: map<string, Point>, ids: seq<int>)
  {
    forall k :: 0 <= k < |ids| ==> DecimalString(ids[k]) in points
  }

  /** One turn of the loop over the table: the label of room `roomId`, or None when the entry has
      an invalid form, not exactly four points, or a point missing from the mapping. */
  function LabelOne(roomId: int, def: RoomDef, points: map<string, Point>): (r: Option<RoomLabel>)
    ensures r.Some? <==> !def.OtherDef? && |PointIdsOf(def)| == 4 && AllMapped(points, PointIdsOf(def))
    ensures r.Some? ==>
              var ids := PointIdsOf(def);
              var c := Centroid(points[DecimalString(ids[0])], points[DecimalString(ids[1])],
                                points[DecimalString(ids[2])], points[DecimalString(ids[3])]);
              r.value == RoomLabel(roomId, c.x, c.y, NameOf(def), ids)
  {
    if def.OtherDef? then None
    else
      var ids := PointIdsOf(def);
      if |ids| != 4 then None
      else
        var l1, l2 := GetPointFromId(points, ids[0]), GetPointFromId(points, ids[1]);
        var l3, l4 := GetPointFromId(points, ids[2]), GetPointFromId(points, ids[3]);
        if l1.Failure? || l2.Failure? || l3.Failure? || l4.Failure? then None
        else
          var c := Centroid(l1.value, l2.value, l3.value, l4.value);
          Some(RoomLabel(roomId, c.x, c.y, NameOf(def), ids))
  }

  /** The labels emitted for a table, in table order. */
  function Emitted(rooms: seq<(int, RoomDef)>, points: map<string, Point>): seq<RoomLabel>
  {
    if |rooms| == 0 then []
    else
      var last := Last(rooms);
      Emitted(rooms[..|rooms| - 1], points)
        + match LabelOne(last.0, last.1, points) case Some(l) => [l] case None => []
  }

  /** Where `label_rooms` writes when no output file is given. */
  const DefaultRoomsFile: string := "json/floor_2_rooms.json"

  /** The per-room validate-and-build loop of `label_rooms(points_mapping_file, output_file)`,
      with the room table and the mapping as parameters: the file written is `output_file`, or
      the default rooms file when it is None; `total_rooms` counts the table, and the labels are
      those of the rooms that pass, in order. */
  method LabelRooms(outputFile: Option<string>, rooms: seq<(int, RoomDef)>, points: map<string, Point>)
    returns (target: string, totalRooms: int, labels: seq<RoomLabel>)
    ensures target == (if outputFile.None? then DefaultRoomsFile else outputFile.value)
    ensures totalRooms == |rooms|
    ensures labels == Emitted(rooms, points)
  {
    target := if outputFile.None? then DefaultRoomsFile else outputFile.value;
    totalRooms := |rooms|;
    labels := [];
    var i := 0;
    while i < |rooms|
      invariant 0 <= i <= |rooms|
      invariant labels == Emitted(rooms[..i], points)
    {
      var roomId, def := rooms[i].0, rooms[i].1;
      var entry := LabelOne(roomId, def, points);
      EmittedStep(rooms, i, points);
      if entry.Some? {
        labels := labels + [entry.value];
      }
      i := i + 1;
    }
    assert rooms[..|rooms|] == rooms;
  }

  /** One more table entry adds its own label, if any. */
  lemma EmittedStep(rooms: seq<(int, RoomDef)>, i: nat, points: map<string, Point>)
    requires i < |rooms|
    ensures Emitted(rooms[..i + 1], points)
         == Emitted(rooms[..i], points)
            + match LabelOne(rooms[i].0, rooms[i].1, points) case Some(l) => [l] case None => []
  {
    assert rooms[..i + 1][..i] == rooms[..i];
  }

  /** A room is labelled or skipped on its own: the labels of two tables one after the other are
      the labels of each. */
  lemma {:induction false} EmittedConcat(a: seq<(int, RoomDef)>, b: seq<(int, RoomDef)>, points: map<string, Point>)
    ensures Emitted(a + b, points) == Emitted(a, points) + Emitted(b, points)
  {
    if |b| > 0 {
      EmittedConcat(a, b[..|b| - 1], points);
      assert (a + b)[..|a + b| - 1] == a + b[..|b| - 1];
      assert Last(a + b) == Last(b);
    } else {
      assert a + b == a;
    }
  }

  /** At most one label per table entry, and exactly one when every room passes. */
  lemma {:induction false} EmittedLength(rooms: seq<(int, RoomDef)>, points: map<string, Point>)
    ensures |Emitted(rooms, points)| <= |rooms|
    ensures (forall i :: 0 <= i < |rooms| ==> LabelOne(rooms[i].0, rooms[i].1, points).Some?) ==>
            |Emitted(rooms, points)| == |rooms|
  {
    if |rooms| > 0 {
      EmittedLength(rooms[..|rooms| - 1], points);
    }
  }

  /** Every label comes from a table entry that passes, and carries that entry's id. */
  lemma {:induction false} EmittedFromTable(rooms: seq<(int, RoomDef)>, points: map<string, Point>, l: RoomLabel)
    requires l in Emitted(rooms, points)
    ensures exists i :: 0 <= i < |rooms| && rooms[i].0 == l.id && LabelOne(rooms[i].0, rooms[i].1, points) == Some(l)
  {
    var init := rooms[..|rooms| - 1];
    var last := Last(rooms);
    if l in Emitted(init, points) {
      EmittedFromTable(init, points, l);
      var i :| 0 <= i < |init| && init[i].0 == l.id && LabelOne(init[i].0, init[i].1, points) == Some(l);
      assert rooms[i] == init[i];
    } else {
      assert LabelOne(last.0, last.1, points) == Some(l);
      assert LabelOne(last.0, last.1, points).value.id == last.0;
    }
  }

  /** The mapping `number_points` writes is the one `get_point_from_id` reads: looking up the id
      a point was numbered with gives the point back. */
  lemma LookupNumberedPoint(segs: seq<Segment>, p: Point)
    requires p in Endpoints(segs)
    ensures var ids := IdsOf(Seen(segs, 2 * |segs|));
            Injective(ids) && p in ids && GetPointFromId(PointsMapping(ids), ids[p]) == Success(p)
  {
    NumberingOfSeen(segs);
    NumberingIsInjective(segs, IdsOf(Seen(segs, 2 * |segs|)));
  }
}
