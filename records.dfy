/** The tile and object kinds the map defines (`Road`, `Car`), their JSON
    records, and the resolution of a road's exits through the map's tiles. */
module Records {
  import opened Common

  /** A road tile: its position and the positions of its exits (`_exits`),
      in the order they were given. Exits are kept as positions and looked up
      in the map's tiles only when `ExitTiles` is asked for them. */
  datatype Road = Road(pos: Pos, exits: seq<Pos>)

  /** A car standing on its spawn tile; `width` is an opaque payload. */
  datatype MapObject = Car(spawn: Road, width: Value) {
    function pos(): Pos { spawn.pos }
  }

  /** The key a tile or an object is stored under. */
  function RoadKey(r: Road): Pos { r.pos }
  function ObjectKey(o: MapObject): Pos { o.pos() }

  /** The `exits` property: each stored exit position looked up in the map's
      tiles, in order, raising KeyError at the first position that is not a tile. */
  function ExitTiles(tiles: map<Pos, Road>, exits: seq<Pos>): (r: Result<seq<Road>>)
    ensures r.Ok? <==> forall i :: 0 <= i < |exits| ==> exits[i] in tiles
    ensures r.Ok? ==> |r.value| == |exits| &&
                      forall i :: 0 <= i < |exits| ==> r.value[i] == tiles[exits[i]]
    ensures r.Err? ==> exists i :: 0 <= i < |exits| && exits[i] !in tiles &&
                                   r.error == KeyError(Pair(exits[i])) &&
                                   forall j :: 0 <= j < i ==> exits[j] in tiles
  {
    if exits == [] then Ok([])
    else if exits[0] !in tiles then Err(KeyError(Pair(exits[0])))
    else match ExitTiles(tiles, exits[1..])
      case Ok(rest) => Ok([tiles[exits[0]]] + rest)
      case Err(e) => Err(e)
  }

  /** `Point.json` of a road: its instance attributes, leading underscore
      stripped (`pos`, `exits`), and the name of its class. */
  function RoadJson(r: Road): (j: Record)
    ensures j.Keys == {"pos", "exits", "class"} && j["class"] == Str("Road")
    ensures RoadLoad(j - {"class"}) == Ok(r)
  {
    map["pos" := Pair(r.pos), "exits" := Pairs(r.exits), "class" := Str("Road")]
  }

  /** `Road.load`: a road at the record's `pos` with the record's `exits`, in
      order. `tuple(pos)` comes first: a missing `pos` raises KeyError and a
      number raises TypeError; the other values convert, so a missing `exits`
      raises KeyError next and an `exits` that is not a list of positions
      raises TypeError. A `pos` that is a list of positions becomes a tuple of
      lists, which raises TypeError (unhashable) as soon as the road is stored;
      the model raises that TypeError here. */
  function RoadLoad(rec: Record): (r: Result<Road>)
    ensures r.Ok? <==> "pos" in rec && rec["pos"].Pair? && "exits" in rec && rec["exits"].Pairs?
    ensures r.Ok? ==> r.value.pos == rec["pos"].p && r.value.exits == rec["exits"].ps
    ensures r.Err? && r.error.KeyError? ==>
              (r.error.key == Str("pos") && "pos" !in rec) ||
              (r.error.key == Str("exits") && "exits" !in rec)
    ensures "pos" !in rec ==> r == Err(KeyError(Str("pos")))
    ensures "pos" in rec && rec["pos"].Num? ==> r == Err(TypeError)
    ensures "pos" in rec && !rec["pos"].Num? && "exits" !in rec ==> r == Err(KeyError(Str("exits")))
    ensures "pos" in rec && !rec["pos"].Num? && "exits" in rec && !rec["exits"].Pairs? ==> r == Err(TypeError)
    ensures "pos" in rec && !rec["pos"].Pair? && "exits" in rec && rec["exits"].Pairs? ==> r == Err(TypeError)
  {
    if "pos" !in rec then Err(KeyError(Str("pos")))
    else if rec["pos"].Num? then Err(TypeError)
    else if "exits" !in rec then Err(KeyError(Str("exits")))
    else if !rec["exits"].Pairs? then Err(TypeError)
    else if !rec["pos"].Pair? then Err(TypeError)
    else Ok(Road(rec["pos"].p, rec["exits"].ps))
  }

  /** The record of a road carries its class name, and loading it back, with
      or without that name, gives the same road: same position, same exits in
      the same order. */
  lemma RoadRoundTrip(r: Road)
    ensures "class" in RoadJson(r) && RoadJson(r)["class"] == Str("Road")
    ensures RoadLoad(RoadJson(r) - {"class"}) == Ok(r)
    ensures RoadLoad(RoadJson(r)) == Ok(r)
  {
  }

  /** `Object.json` of a car: `pos`, `width`, the spawn tile written as its
      position, and the name of its class. */
  function CarJson(c: MapObject): (j: Record)
    ensures j.Keys == {"pos", "spawn", "width", "class"} && j["class"] == Str("Car")
    ensures j["pos"] == j["spawn"] == Pair(c.pos()) && j["width"] == c.width
  {
    map["pos" := Pair(c.pos()), "spawn" := Pair(c.spawn.pos), "width" := c.width,
        "class" := Str("Car")]
  }

  /** `Car.load` as written: it indexes the map's tiles with the record's `pos`
      as read, a JSON list, which Python refuses as unhashable. */
  function CarLoadAsWritten(tiles: map<Pos, Road>, rec: Record): (r: Result<MapObject>)
    ensures r.Err?
    ensures "pos" in rec && (rec["pos"].Pair? || rec["pos"].Pairs?) ==> r == Err(TypeError)
  {
    if "pos" !in rec then Err(KeyError(Str("pos")))
    else match rec["pos"]
      case Pair(_) => Err(TypeError)
      case Pairs(_) => Err(TypeError)
      case Str(_) => Err(KeyError(rec["pos"]))
      case Num(_) => Err(KeyError(rec["pos"]))
  }

  /** So the record `Object.json` writes for a car never loads back: it raises
      TypeError, which `Map.load` does not catch. */
  lemma CarRecordFailsAsWritten(tiles: map<Pos, Road>, c: MapObject)
    ensures CarLoadAsWritten(tiles, CarJson(c) - {"class"}) == Err(TypeError)
  {
    assert (CarJson(c) - {"class"})["pos"] == Pair(c.pos());
  }

  /** `Car.load` with the record's `pos` converted by `tuple`, as `Road.load`
      does: the spawn tile is the map's tile under that position, then `width`
      is read. A missing key or position raises KeyError (an empty list
      becomes the empty tuple, which names no tile); a value that `tuple`
      cannot turn into a hashable key raises TypeError. */
  function CarLoad(tiles: map<Pos, Road>, rec: Record): (r: Result<MapObject>)
    ensures r.Ok? <==> "pos" in rec && rec["pos"].Pair? && rec["pos"].p in tiles && "width" in rec
    ensures r.Ok? ==> r.value == Car(tiles[rec["pos"].p], rec["width"])
    ensures r.Err? ==> r.error.KeyError? || r.error == TypeError
    ensures r.Err? && r.error.KeyError? && "pos" in rec && rec["pos"].Pair? ==>
              (r.error.key == Pair(rec["pos"].p) && rec["pos"].p !in tiles) ||
              (r.error.key == Str("width") && "width" !in rec)
    ensures "pos" !in rec ==> r == Err(KeyError(Str("pos")))
    ensures "pos" in rec && (rec["pos"].Num? || (rec["pos"].Pairs? && rec["pos"].ps != [])) ==> r == Err(TypeError)
    ensures "pos" in rec && rec["pos"] == Pairs([]) ==> r == Err(KeyError(Pairs([])))
    ensures "pos" in rec && rec["pos"].Pair? && rec["pos"].p !in tiles ==>
              r == Err(KeyError(Pair(rec["pos"].p)))
    ensures "pos" in rec && rec["pos"].Pair? && rec["pos"].p in tiles && "width" !in rec ==>
              r == Err(KeyError(Str("width")))
  {
    if "pos" !in rec then Err(KeyError(Str("pos")))
    else match rec["pos"]
      case Pair(p) =>
        if p !in tiles then Err(KeyError(Pair(p)))
        else if "width" !in rec then Err(KeyError(Str("width")))
        else Ok(Car(tiles[p], rec["width"]))
      case Pairs(ps) => if ps == [] then Err(KeyError(Pairs([]))) else Err(TypeError)
      case Num(_) => Err(TypeError)
      case Str(_) => Err(KeyError(rec["pos"]))
  }

  /** A car whose spawn is the tile stored at its position loads back from
      its record as the same car. */
  lemma CarRoundTrip(tiles: map<Pos, Road>, c: MapObject)
    requires c.pos() in tiles && tiles[c.pos()] == c.spawn
    ensures "class" in CarJson(c) && CarJson(c)["class"] == Str("Car")
    ensures CarLoad(tiles, CarJson(c) - {"class"}) == Ok(c)
  {
  }
}
