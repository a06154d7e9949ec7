/** Room records: a room is named "number: name" or just "name", and placed at the mean of the
    four corner points it is given by. */
module Rooms {
  import opened Wrappers
  import opened Numeric
  import opened Strings
  import opened Geometry

  /** The parsed `{"number": ..., "name": ...}` of a room name; None is JSON null. */
  datatype RoomName = RoomName(number: Option<int>, name: Option<string>)

  /** `parse_room_name(full_name)`. A missing or blank name gives neither part; a name whose
      stripped text starts with an integer followed by `:` gives that integer and the stripped
      rest; any other name is kept whole, stripped. */
  function ParseRoomName(fullName: Option<string>): (r: RoomName)
  {
    if fullName.None? || Strip(fullName.value) == [] then RoomName(None, None)
    else
      var s := Strip(fullName.value);
      if ':' in s then
        var parts := SplitFirst(s, ':');
        match ParseInt(Strip(parts.0))
        case Some(n) => RoomName(Some(n), Some(Strip(parts.1)))
        case None => RoomName(None, Some(s))
      else RoomName(None, Some(s))
  }

  /** Neither part comes out exactly when the name is missing or only whitespace. */
  lemma ParseBlank(fullName: Option<string>)
    ensures ParseRoomName(fullName) == RoomName(None, None) <==>
            fullName.None? || forall i :: 0 <= i < |fullName.value| ==> IsSpace(fullName.value[i])
  {
    if fullName.Some? {
      StripEmptyIffBlank(fullName.value);
    }
  }

  /** A stripped name without a colon is kept whole. */
  lemma ParseWithoutColon(fullName: string)
    requires Strip(fullName) != [] && ':' !in Strip(fullName)
    ensures ParseRoomName(Some(fullName)) == RoomName(None, Some(Strip(fullName)))
  {
  }

  /** A stripped name whose text before the first colon is an integer splits into number and
      stripped rest. */
  lemma ParseWithNumber(fullName: string, n: int)
    requires Strip(fullName) != [] && ':' in Strip(fullName)
    requires ParseInt(Strip(SplitFirst(Strip(fullName), ':').0)) == Some(n)
    ensures ParseRoomName(Some(fullName)) == RoomName(Some(n), Some(Strip(SplitFirst(Strip(fullName), ':').1)))
  {
  }

  /** A stripped name whose text before the first colon is not an integer is kept whole. */
  lemma ParseWithoutNumber(fullName: string)
    requires Strip(fullName) != [] && ':' in Strip(fullName)
    requires ParseInt(Strip(SplitFirst(Strip(fullName), ':').0)).None?
    ensures ParseRoomName(Some(fullName)) == RoomName(None, Some(Strip(fullName)))
  {
  }

  /** The name part never carries surrounding whitespace. */
  lemma ParsedNameStripped(fullName: Option<string>)
    ensures ParseRoomName(fullName).name.Some? ==>
            Strip(ParseRoomName(fullName).name.value) == ParseRoomName(fullName).name.value
  {
    if fullName.None? || Strip(fullName.value) == [] {
      assert ParseRoomName(fullName).name.None?;
    } else {
      var s := Strip(fullName.value);
      StripIdempotent(fullName.value);
      if ':' in s {
        var parts := SplitFirst(s, ':');
        match ParseInt(Strip(parts.0))
        case Some(n) =>
          ParseWithNumber(fullName.value, n);
          StripIdempotent(parts.1);
        case None =>
          ParseWithoutNumber(fullName.value);
      } else {
        ParseWithoutColon(fullName.value);
      }
    }
  }

  /** Without a number, a present name is the whole stripped input: the colon split is taken
      only when the part before the first colon is an integer. */
  lemma NoNumberKeepsWholeName(fullName: Option<string>)
    requires fullName.Some? && Strip(fullName.value) != []
    ensures ParseRoomName(fullName).number.None? ==> ParseRoomName(fullName).name == Some(Strip(fullName.value))
    ensures ParseRoomName(fullName).number.Some? ==>
            var s := Strip(fullName.value);
            ':' in s && ParseInt(Strip(SplitFirst(s, ':').0)) == ParseRoomName(fullName).number
  {
  }

  /** The text after the colon of "number: name": empty when the name is. */
  function AfterColon(name: string): string
  {
    if name == [] then "" else " " + name
  }

  /** "number: name" strips to "number:" followed by the text after the colon. */
  lemma StripFormatted(d: string, name: string)
    requires |d| > 0 && !IsSpace(d[0]) && Strip(name) == name
    ensures Strip(d + ": " + name) == d + ":" + AfterColon(name)
  {
    var full := d + ": " + name;
    assert full[0] == d[0];
    if name == [] {
      assert SkipSpaces(full, 0) == 0;
      assert full[|full| - 1] == ' ' && full[|full| - 2] == ':';
      assert BackSpaces(full, 0, |full|) == |full| - 1;
      assert full[0..|full| - 1] == d + ":" + "";
    } else {
      assert full[|full| - 1] == name[|name| - 1];
      StripOfTrimmed(full);
      assert full == d + ":" + (" " + name);
    }
  }

  /** The text after the colon strips back to the name. */
  lemma StripAfterColon(name: string)
    requires Strip(name) == name
    ensures Strip(AfterColon(name)) == name
  {
    if name != [] {
      var rest := " " + name;
      assert rest[0] == ' ' && rest[1] == name[0] && rest[|rest| - 1] == name[|name| - 1];
      assert SkipSpaces(rest, 0) == 1;
      assert BackSpaces(rest, 1, |rest|) == |rest|;
      assert rest[1..] == name;
    }
  }

  /** A decimal string has no colon and no whitespace at its ends. */
  lemma DecimalStringPlain(n: int)
    ensures ':' !in DecimalString(n) && Strip(DecimalString(n)) == DecimalString(n)
  {
    var d := DecimalString(n);
    forall i | 0 <= i < |d| ensures d[i] != ':' { }
    StripOfTrimmed(d);
  }

  /** `d + ":" + rest` splits at its first colon into d and rest when d has no colon. */
  lemma SplitFormatted(d: string, rest: string)
    requires ':' !in d
    ensures ':' in d + ":" + rest && SplitFirst(d + ":" + rest, ':') == (d, rest)
  {
    var body := d + ":" + rest;
    assert body[|d|] == ':';
    FirstColon(d, rest, body, SplitFirst(body, ':'));
  }

  /** A number and a stripped name written as "number: name" are parsed back. */
  lemma ParseFormatted(n: int, name: string)
    requires Strip(name) == name
    ensures ParseRoomName(Some(DecimalString(n) + ": " + name)) == RoomName(Some(n), Some(name))
  {
    var d := DecimalString(n);
    var full := d + ": " + name;
    var body := d + ":" + AfterColon(name);
    DecimalStringPlain(n);
    StripFormatted(d, name);
    SplitFormatted(d, AfterColon(name));
    StripAfterColon(name);
    ParseDecimalString(n);
    assert Strip(full) == body && SplitFirst(body, ':') == (d, AfterColon(name));
    ParseWithNumber(full, n);
  }

  /** Splitting `d + ":" + rest` at its first colon, when d has none, gives d and rest. */
  lemma FirstColon(d: string, rest: string, s: string, parts: (string, string))
    requires ':' !in d && s == d + ":" + rest
    requires s == parts.0 + [':'] + parts.1 && ':' !in parts.0
    ensures parts.0 == d && parts.1 == rest
  {
    assert s[|d|] == ':' && s[|parts.0|] == ':';
    assert |parts.0| == |d|;
    assert s[..|d|] == d && parts.0 == s[..|parts.0|];
    assert parts.1 == s[|d| + 1..] == rest;
  }

  lemma ParseLift()
    ensures ParseRoomName(Some("Lift")) == RoomName(None, Some("Lift"))
  {
    StripOfTrimmed("Lift");
    assert ':' !in "Lift";
    ParseWithoutColon("Lift");
  }

  lemma ParseGentsToilet()
    ensures ParseRoomName(Some("114: Gents Toilet")) == RoomName(Some(114), Some("Gents Toilet"))
  {
    GentsToiletText();
    StripOfTrimmed("Gents Toilet");
    ParseFormatted(114, "Gents Toilet");
  }

  /** "114: Gents Toilet" is 114 written out, a colon and a space, and the name. */
  lemma GentsToiletText()
    ensures DecimalString(114) + ": " + "Gents Toilet" == "114: Gents Toilet"
  {
    assert NatString(1) == ['1'];
    assert NatString(11) == ['1', '1'];
    assert NatString(114) == ['1', '1', '4'];
  }

  /** The coordinate sums of a list of points. */
  function PointSum(ps: seq<Point>): Point
  {
    if |ps| == 0 then Point(0, 0)
    else
      var rest := PointSum(ps[1..]);
      Point(ps[0].x + rest.x, ps[0].y + rest.y)
  }

  lemma {:induction false} PointSumConcat(a: seq<Point>, b: seq<Point>)
    ensures PointSum(a + b) == Point(PointSum(a).x + PointSum(b).x, PointSum(a).y + PointSum(b).y)
  {
    if |a| > 0 {
      PointSumConcat(a[1..], b);
      assert (a + b)[1..] == a[1..] + b;
    } else {
      assert a + b == b;
    }
  }

  /** Taking out the j-th point takes its coordinates off the sums. */
  lemma PointSumRemove(b: seq<Point>, j: int)
    requires 0 <= j < |b|
    ensures var rest := PointSum(b[..j] + b[j + 1..]);
            PointSum(b) == Point(rest.x + b[j].x, rest.y + b[j].y)
  {
    var left, tail, right := b[..j], b[j..], b[j + 1..];
    assert b == left + tail;
    PointSumConcat(left, tail);
    assert tail[0] == b[j] && tail[1..] == right;
    var sr := PointSum(right);
    assert PointSum(tail) == Point(b[j].x + sr.x, b[j].y + sr.y);
    PointSumConcat(left, right);
  }

  lemma PointSumSingle(p: Point)
    ensures PointSum([p]) == p
  {
    assert [p][1..] == [];
  }

  /** Removing a matching point from two lists with the same members leaves lists with the
      same members. */
  lemma MultisetRemoveMatching(a: seq<Point>, b: seq<Point>, j: int)
    requires multiset(a) == multiset(b) && |a| > 0
    requires 0 <= j < |b| && b[j] == a[0]
    ensures multiset(a[1..]) == multiset(b[..j] + b[j + 1..])
  {
    assert a == [a[0]] + a[1..];
    assert b == b[..j] + [b[j]] + b[j + 1..];
    assert multiset(b[..j] + b[j + 1..]) == multiset(b) - multiset{b[j]};
  }

  /** The sums do not depend on the order of the points. */
  lemma {:induction false} PointSumPermutation(a: seq<Point>, b: seq<Point>)
    requires multiset(a) == multiset(b)
    ensures PointSum(a) == PointSum(b)
    decreases |a|
  {
    if |a| > 0 {
      var x := a[0];
      assert x in multiset(b) by { assert x in multiset(a); }
      var j :| 0 <= j < |b| && b[j] == x;
      var b0 := b[..j] + b[j + 1..];
      MultisetRemoveMatching(a, b, j);
      PointSumPermutation(a[1..], b0);
      PointSumRemove(b, j);
    } else {
      assert |b| == |multiset(b)| == 0;
      assert b == a;
    }
  }

  /** `calculate_quadrilateral_centroid(p1, p2, p3, p4)`: the mean of the four points. */
  function Centroid(p1: Point, p2: Point, p3: Point, p4: Point): RPoint
  {
    RPoint((p1.x + p2.x + p3.x + p4.x) as real / 4.0, (p1.y + p2.y + p3.y + p4.y) as real / 4.0)
  }

  lemma PointSumOfFour(ps: seq<Point>)
    requires |ps| == 4
    ensures PointSum(ps) == Point(ps[0].x + ps[1].x + ps[2].x + ps[3].x, ps[0].y + ps[1].y + ps[2].y + ps[3].y)
  {
    assert PointSum(ps[3..]) == ps[3] by { assert ps[3..] == [ps[3]]; PointSumSingle(ps[3]); }
    assert PointSum(ps[2..]) == Point(ps[2].x + ps[3].x, ps[2].y + ps[3].y) by {
      assert ps[2..][1..] == ps[3..];
    }
    assert PointSum(ps[1..]) == Point(ps[1].x + ps[2].x + ps[3].x, ps[1].y + ps[2].y + ps[3].y) by {
      assert ps[1..][1..] == ps[2..];
    }
  }

  /** The centroid is the mean of the four points whatever order they come in. */
  lemma CentroidPermutation(ps: seq<Point>, qs: seq<Point>)
    requires |ps| == 4 && |qs| == 4 && multiset(ps) == multiset(qs)
    ensures Centroid(ps[0], ps[1], ps[2], ps[3]) == Centroid(qs[0], qs[1], qs[2], qs[3])
  {
    PointSumPermutation(ps, qs);
    PointSumOfFour(ps);
    PointSumOfFour(qs);
  }

  /** A room record of `create_room_from_points`. */
  datatype Room = Room(id: int, x: real, y: real, number: Option<int>, name: Option<string>, pointIds: seq<int>)

  /** `points[str(p_id)]`, which raises `KeyError` (here a Failure naming the key) when absent. */
  function Lookup(points: map<string, Point>, id: int): (r: Result<Point, string>)
    ensures r.Success? <==> DecimalString(id) in points
    ensures r.Success? ==> r.value == points[DecimalString(id)]
    ensures r.Failure? ==> r.error == DecimalString(id)
  {
    var key := DecimalString(id);
    if key in points then Success(points[key]) else Failure(key)
  }

  /** `create_room_from_points(p1_id, p2_id, p3_id, p4_id, points, room_name, room_id)`. It fails
      on the first of the four ids without a point; otherwise the room has the given id, the ids
      in order, the centroid of their points and the parsed name. */
  function CreateRoomFromPoints(p1Id: int, p2Id: int, p3Id: int, p4Id: int, points: map<string, Point>,
                                roomName: Option<string>, roomId: int): (r: Result<Room, string>)
    ensures r.Success? <==> forall id :: id in [p1Id, p2Id, p3Id, p4Id] ==> DecimalString(id) in points
    ensures r.Failure? ==> exists k :: 0 <= k < 4 && r.error == DecimalString([p1Id, p2Id, p3Id, p4Id][k])
                            && DecimalString([p1Id, p2Id, p3Id, p4Id][k]) !in points
                            && forall m :: 0 <= m < k ==> DecimalString([p1Id, p2Id, p3Id, p4Id][m]) in points
    ensures r.Success? ==>
              var c := Centroid(points[DecimalString(p1Id)], points[DecimalString(p2Id)],
                                points[DecimalString(p3Id)], points[DecimalString(p4Id)]);
              var parsed := ParseRoomName(roomName);
              r.value == Room(roomId, c.x, c.y, parsed.number, parsed.name, [p1Id, p2Id, p3Id, p4Id])
  {
    var ids := [p1Id, p2Id, p3Id, p4Id];
    var l1, l2, l3, l4 := Lookup(points, p1Id), Lookup(points, p2Id), Lookup(points, p3Id), Lookup(points, p4Id);
    if l1.Failure? then assert ids[0] == p1Id; Failure(l1.error)
    else if l2.Failure? then assert ids[1] == p2Id; Failure(l2.error)
    else if l3.Failure? then assert ids[2] == p3Id; Failure(l3.error)
    else if l4.Failure? then assert ids[3] == p4Id; Failure(l4.error)
    else
      var c := Centroid(l1.value, l2.value, l3.value, l4.value);
      var parsed := ParseRoomName(roomName);
      Success(Room(roomId, c.x, c.y, parsed.number, parsed.name, ids))
  }
}
