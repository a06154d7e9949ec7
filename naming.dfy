/** Adding names, room numbers and availability to an entrance list from a table keyed by
    entrance id (`name_entrances`). */
module EntranceNaming {
  import opened Wrappers
  import opened Geometry

  /** An entrance dict of the entrances file. */
  type Record = map<string, Value>

  /** The details of one entrance: any of `name`, `room_no`, `available`. */
  type Details = map<string, Value>

  /** The table key an `id` value hits: Python's `1 == True` and `0 == False`, so a boolean id
      looks up the integer key it equals; strings and None hit no integer key. */
  function IdKey(v: Value): Option<int>
  {
    match v
    case IntVal(i) => Some(i)
    case BoolVal(b) => Some(if b then 1 else 0)
    case _ => None
  }

  /** The details the table holds for an entrance, if any. */
  function DetailsFor(e: Record, table: map<int, Details>): Option<Details>
    requires "id" in e
  {
    match IdKey(e["id"])
    case Some(k) => if k in table then Some(table[k]) else None
    case None => None
  }

  /** The keys the enrichment copies from an entrance's details. */
  function Copied(e: Record, table: map<int, Details>): set<string>
    requires "id" in e
  {
    match DetailsFor(e, table)
    case Some(d) => {"name", "room_no", "available"} * d.Keys
    case None => {}
  }

  /** One turn of the loop of `name_entrances`: each of `name`, `room_no`, `available` present in
      the entrance's details overwrites (or adds) that key; every other key, `id` among them, is
      kept, and an entrance without details is unchanged. */
  function Enriched(e: Record, table: map<int, Details>): (e2: Record)
    requires "id" in e
    ensures e2.Keys == e.Keys + Copied(e, table)
    ensures forall k :: k in Copied(e, table) ==> e2[k] == DetailsFor(e, table).value[k]
    ensures forall k :: k in e && k !in Copied(e, table) ==> e2[k] == e[k]
    ensures "id" in e2 && e2["id"] == e["id"]
    ensures DetailsFor(e, table).None? ==> e2 == e
  {
    assert "id" !in Copied(e, table);
    match DetailsFor(e, table)
    case None => e
    case Some(d) =>
      var e1 := if "name" in d then e["name" := d["name"]] else e;
      var e2 := if "room_no" in d then e1["room_no" := d["room_no"]] else e1;
      if "available" in d then e2["available" := d["available"]] else e2
  }

  /** Enriching twice is enriching once: the second pass finds the same details and writes the
      same values. */
  lemma EnrichedIdempotent(e: Record, table: map<int, Details>)
    requires "id" in e
    ensures Enriched(Enriched(e, table), table) == Enriched(e, table)
  {
    var e2 := Enriched(e, table);
    assert DetailsFor(e2, table) == DetailsFor(e, table);
    assert Copied(e2, table) == Copied(e, table);
  }

  /** `name_entrances(entrances_file, output_file)` on the loaded entrances, with the details table
      as a parameter: the file written is `output_file`, or the input file when it is None; the
      result lists the same entrances in the same order, each enriched. An entrance without an
      `id` key raises `KeyError('id')` and nothing is written. */
  method NameEntrances(entrancesFile: string, outputFile: Option<string>, entrances: seq<Record>,
                       table: map<int, Details>)
    returns (target: string, r: Result<seq<Record>, string>)
    ensures target == (if outputFile.None? then entrancesFile else outputFile.value)
    ensures r.Success? <==> forall i :: 0 <= i < |entrances| ==> "id" in entrances[i]
    ensures r.Failure? ==> r.error == "id"
    ensures r.Success? ==> |r.value| == |entrances|
                           && forall i :: 0 <= i < |entrances| ==> r.value[i] == Enriched(entrances[i], table)
  {
    target := if outputFile.None? then entrancesFile else outputFile.value;
    var out: seq<Record> := [];
    var i := 0;
    while i < |entrances|
      invariant 0 <= i <= |entrances| && |out| == i
      invariant forall j :: 0 <= j < i ==> "id" in entrances[j] && out[j] == Enriched(entrances[j], table)
    {
      var entrance := entrances[i];
      if "id" !in entrance {
        return target, Failure("id");
      }
      var entranceId := entrance["id"];
      var key := IdKey(entranceId);
      if key.Some? && key.value in table {
        var details := table[key.value];
        if "name" in details {
          entrance := entrance["name" := details["name"]];
        }
        if "room_no" in details {
          entrance := entrance["room_no" := details["room_no"]];
        }
        if "available" in details {
          entrance := entrance["available" := details["available"]];
        }
      }
      out := out + [entrance];
      i := i + 1;
    }
    r := Success(out);
  }
}
