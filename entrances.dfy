/** Entrances placed at the midpoint of two numbered points: one entrance record built from a
    pair (`create_entrance_from_pair`), and a whole list of pairs turned into entrances with ids
    counted from 1 (`create_entrances_from_pairs`). */
module Entrances {
  import opened Wrappers
  import opened Numeric
  import opened Strings
  import opened Geometry

  /** `(round((p.x + q.x) / 2, 1), round((p.y + q.y) / 2, 1))`. The coordinates are integers, so
      the midpoint is a half-integer and rounding to one decimal leaves it exact. */
  function Midpoint(p: Point, q: Point): (m: RPoint)
    ensures 2.0 * m.x == (p.x + q.x) as real && 2.0 * m.y == (p.y + q.y) as real
    ensures (p.x <= q.x ==> p.x as real <= m.x <= q.x as real) && (q.x <= p.x ==> q.x as real <= m.x <= p.x as real)
    ensures (p.y <= q.y ==> p.y as real <= m.y <= q.y as real) && (q.y <= p.y ==> q.y as real <= m.y <= p.y as real)
  {
    RoundTenthsOfHalf(p.x + q.x);
    RoundTenthsOfHalf(p.y + q.y);
    RPoint(RoundTenths((p.x + q.x) as real / 2.0), RoundTenths((p.y + q.y) as real / 2.0))
  }

  /** The midpoint does not depend on which point comes first. */
  lemma MidpointSymmetric(p: Point, q: Point)
    ensures Midpoint(p, q) == Midpoint(q, p)
  {
  }

  /** The midpoint of a point with itself is that point. */
  lemma MidpointOfSame(p: Point)
    ensures Midpoint(p, p) == ToReal(p)
  {
  }

  /** Python truthiness of a record value: nonzero, non-empty, true; `None` is false. */
  predicate Truthy(v: Value)
  {
    match v
    case IntVal(i) => i != 0
    case StrVal(s) => s != ""
    case BoolVal(b) => b
    case NullVal => false
  }

  /** The entrance dict of `create_entrance_from_pair`; `stairs` says whether the `stairs` key
      (always `True` when present) is there. */
  datatype Entrance = Entrance(id: int, x: real, y: real, available: bool, name: Value, roomNo: Value, stairs: bool)

  /** `create_entrance_from_pair(p1_id, p2_id, points, name, room_no, stairs, entrance_id)`:
      None when either id is missing from `points`, otherwise an available entrance at the
      midpoint, with the name and room number kept only when truthy. */
  function CreateEntranceFromPair(p1Id: int, p2Id: int, points: map<int, Point>, name: Value, roomNo: Value,
                                  stairs: Value, entranceId: int): (r: Option<Entrance>)
    ensures r.Some? <==> p1Id in points && p2Id in points
    ensures r.Some? ==>
              && r.value.id == entranceId && r.value.available
              && 2.0 * r.value.x == (points[p1Id].x + points[p2Id].x) as real
              && 2.0 * r.value.y == (points[p1Id].y + points[p2Id].y) as real
    ensures r.Some? ==> (Truthy(name) ==> r.value.name == name) && (!Truthy(name) ==> r.value.name == NullVal)
    ensures r.Some? ==> (Truthy(roomNo) ==> r.value.roomNo == roomNo) && (!Truthy(roomNo) ==> r.value.roomNo == NullVal)
    ensures r.Some? ==> (r.value.stairs <==> Truthy(stairs))
  {
    if p1Id !in points || p2Id !in points then None
    else
      var m := Midpoint(points[p1Id], points[p2Id]);
      Some(Entrance(entranceId, m.x, m.y, true,
                    if Truthy(name) then name else NullVal,
                    if Truthy(roomNo) then roomNo else NullVal,
                    Truthy(stairs)))
  }

  /** Swapping the two point ids of a pair gives the same entrance. */
  lemma CreateEntranceSwap(p1Id: int, p2Id: int, points: map<int, Point>, name: Value, roomNo: Value,
                           stairs: Value, entranceId: int)
    ensures CreateEntranceFromPair(p1Id, p2Id, points, name, roomNo, stairs, entranceId)
         == CreateEntranceFromPair(p2Id, p1Id, points, name, roomNo, stairs, entranceId)
  {
    if p1Id in points && p2Id in points {
      MidpointSymmetric(points[p1Id], points[p2Id]);
    }
  }

  /** An entrance of `create_entrances_from_pairs`: only its id and position. */
  datatype PairEntrance = PairEntrance(id: int, x: real, y: real)

  /** The entrance the pair `(a, b)` at 1-based position `id` yields under the points mapping
      (`points_mapping['points']`, keyed by `str(pid)`), or None when either point is missing. */
  function PairEntranceAt(mapping: map<string, Point>, id: int, pair: (int, int)): (r: Option<PairEntrance>)
    ensures r.Some? <==> DecimalString(pair.0) in mapping && DecimalString(pair.1) in mapping
    ensures r.Some? ==>
              && r.value.id == id
              && var m := Midpoint(mapping[DecimalString(pair.0)], mapping[DecimalString(pair.1)]);
              r.value.x == m.x && r.value.y == m.y
  {
    var k1, k2 := DecimalString(pair.0), DecimalString(pair.1);
    if k1 !in mapping || k2 !in mapping then None
    else
      var m := Midpoint(mapping[k1], mapping[k2]);
      Some(PairEntrance(id, m.x, m.y))
  }

  /** The entrances a list of pairs yields, in list order; the pair at index i has id i + 1. */
  function FromPairs(mapping: map<string, Point>, pairs: seq<(int, int)>): seq<PairEntrance>
  {
    if |pairs| == 0 then []
    else
      FromPairs(mapping, pairs[..|pairs| - 1])
        + match PairEntranceAt(mapping, |pairs|, Last(pairs)) case Some(e) => [e] case None => []
  }

  /** The loop of `create_entrances_from_pairs(points_mapping_file, pairs_list)` from the points
      mapping on: each pair with both points mapped becomes an entrance at their midpoint, the
      others are skipped (and still use up their id). */
  method CreateEntrancesFromPairs(mapping: map<string, Point>, pairs: seq<(int, int)>)
    returns (entrances: seq<PairEntrance>)
    ensures entrances == FromPairs(mapping, pairs)
  {
    entrances := [];
    var i := 0;
    while i < |pairs|
      invariant 0 <= i <= |pairs|
      invariant entrances == FromPairs(mapping, pairs[..i])
    {
      var entranceId := i + 1;
      var (p1Id, p2Id) := pairs[i];
      assert pairs[..i + 1][..i] == pairs[..i];
      if DecimalString(p1Id) in mapping && DecimalString(p2Id) in mapping {
        var m := Midpoint(mapping[DecimalString(p1Id)], mapping[DecimalString(p2Id)]);
        entrances := entrances + [PairEntrance(entranceId, m.x, m.y)];
      }
      i := i + 1;
    }
    assert pairs[..|pairs|] == pairs;
  }

  /** Ids of a list of entrances lie in 1 .. n and strictly increase. */
  predicate IdsIncreasing(es: seq<PairEntrance>, n: int)
  {
    && (forall i :: 0 <= i < |es| ==> 1 <= es[i].id <= n)
    && (forall i, j :: 0 <= i < j < |es| ==> es[i].id < es[j].id)
  }

  /** At most one entrance per pair, ids in 1 .. |pairs| and strictly increasing. */
  lemma {:induction false} FromPairsIds(mapping: map<string, Point>, pairs: seq<(int, int)>)
    ensures |FromPairs(mapping, pairs)| <= |pairs|
    ensures IdsIncreasing(FromPairs(mapping, pairs), |pairs|)
  {
    if |pairs| > 0 {
      FromPairsIds(mapping, pairs[..|pairs| - 1]);
    }
  }

  /** An entrance is produced exactly for each pair whose points are both mapped, with that
      pair's 1-based position as its id and their midpoint as its position. */
  lemma FromPairsMembers(mapping: map<string, Point>, pairs: seq<(int, int)>, e: PairEntrance)
    ensures e in FromPairs(mapping, pairs) <==>
            exists i :: 0 <= i < |pairs| && PairEntranceAt(mapping, i + 1, pairs[i]) == Some(e)
  {
    if e in FromPairs(mapping, pairs) {
      FromPairsSound(mapping, pairs, e);
    }
    if exists i :: 0 <= i < |pairs| && PairEntranceAt(mapping, i + 1, pairs[i]) == Some(e) {
      var i :| 0 <= i < |pairs| && PairEntranceAt(mapping, i + 1, pairs[i]) == Some(e);
      FromPairsComplete(mapping, pairs, i);
    }
  }

  /** Every entrance produced comes from some pair. */
  lemma {:induction false} FromPairsSound(mapping: map<string, Point>, pairs: seq<(int, int)>, e: PairEntrance)
    requires e in FromPairs(mapping, pairs)
    ensures exists i :: 0 <= i < |pairs| && PairEntranceAt(mapping, i + 1, pairs[i]) == Some(e)
  {
    var init := pairs[..|pairs| - 1];
    if e in FromPairs(mapping, init) {
      FromPairsSound(mapping, init, e);
      var i :| 0 <= i < |init| && PairEntranceAt(mapping, i + 1, init[i]) == Some(e);
      assert pairs[i] == init[i];
    } else {
      assert PairEntranceAt(mapping, |pairs|, pairs[|pairs| - 1]) == Some(e);
    }
  }

  /** Every pair with both points mapped produces its entrance. */
  lemma {:induction false} FromPairsComplete(mapping: map<string, Point>, pairs: seq<(int, int)>, i: int)
    requires 0 <= i < |pairs| && PairEntranceAt(mapping, i + 1, pairs[i]).Some?
    ensures PairEntranceAt(mapping, i + 1, pairs[i]).value in FromPairs(mapping, pairs)
  {
    var init := pairs[..|pairs| - 1];
    if i < |init| {
      assert init[i] == pairs[i];
      FromPairsComplete(mapping, init, i);
    }
  }

  /** Swapping the ids of a pair does not move its entrance. */
  lemma PairEntranceSwap(mapping: map<string, Point>, id: int, a: int, b: int)
    ensures PairEntranceAt(mapping, id, (a, b)) == PairEntranceAt(mapping, id, (b, a))
  {
    if DecimalString(a) in mapping && DecimalString(b) in mapping {
      MidpointSymmetric(mapping[DecimalString(a)], mapping[DecimalString(b)]);
    }
  }

  /** When a list of pairs has every pair's points mapped, every pair gives an entrance and the
      i-th entrance has id i + 1. */
  lemma {:induction false} FromPairsAllMapped(mapping: map<string, Point>, pairs: seq<(int, int)>)
    requires forall i :: 0 <= i < |pairs| ==> DecimalString(pairs[i].0) in mapping && DecimalString(pairs[i].1) in mapping
    ensures |FromPairs(mapping, pairs)| == |pairs|
    ensures forall i :: 0 <= i < |pairs| ==> FromPairs(mapping, pairs)[i].id == i + 1
  {
    if |pairs| > 0 {
      var init := pairs[..|pairs| - 1];
      assert forall i :: 0 <= i < |init| ==> init[i] == pairs[i];
      FromPairsAllMapped(mapping, init);
    }
  }

  /** Both builders put an entrance at the same place: with the integer-keyed points table
      agreeing with the string-keyed mapping, the pair entrance and the single entrance share
      their coordinates. */
  lemma BuildersAgree(mapping: map<string, Point>, points: map<int, Point>, id: int, a: int, b: int,
                      name: Value, roomNo: Value, stairs: Value)
    requires forall pid :: pid in points <==> DecimalString(pid) in mapping
    requires forall pid :: pid in points ==> points[pid] == mapping[DecimalString(pid)]
    ensures var single := CreateEntranceFromPair(a, b, points, name, roomNo, stairs, id);
            var pair := PairEntranceAt(mapping, id, (a, b));
            single.Some? == pair.Some?
            && (single.Some? ==> single.value.x == pair.value.x && single.value.y == pair.value.y && single.value.id == pair.value.id)
  {
  }
}
