/** The map store: tiles and objects keyed by position, built by add-or-replace,
    loaded from a document by dispatching each entry on its class tag, and
    saved back as one record list for tiles and one for objects. */
module Store {
  import opened Common
  import opened OrderedDict
  import opened Records
  import opened Registry

  /** The parsed map file: its `tiles` list and its `objects` list. */
  datatype Document = Document(tiles: seq<Record>, objects: seq<Record>)

  /** The `load` classmethod of a registered tile class. */
  function LoadTile(cls: TileClass, rec: Record): (r: Result<Road>)
    ensures cls == PointBase ==> r == Err(NotImplementedError)
    ensures cls == RoadClass ==> r == RoadLoad(rec)
  {
    match cls
    case PointBase => Err(NotImplementedError)
    case RoadClass => RoadLoad(rec)
  }

  /** The `load` classmethod of a registered object class. */
  function LoadObject(cls: ObjectClass, tiles: map<Pos, Road>, rec: Record): (r: Result<MapObject>)
    ensures cls == ObjectBase ==> r == Err(NotImplementedError)
    ensures cls == CarClass ==> r == CarLoad(tiles, rec)
  {
    match cls
    case ObjectBase => Err(NotImplementedError)
    case CarClass => CarLoad(tiles, rec)
  }

  /** `except KeyError: pass`: a KeyError means "nothing", any other error escapes. */
  function Caught<T>(r: Result<T>): (c: Result<Option<T>>)
    ensures c.Err? <==> r.Err? && !r.error.KeyError?
    ensures c.Err? ==> c.error == r.error
    ensures c.Ok? && c.value.Some? <==> r.Ok?
    ensures r.Ok? ==> c == Ok(Some(r.value))
  {
    match r
    case Ok(v) => Ok(Some(v))
    case Err(KeyError(_)) => Ok(None)
    case Err(e) => Err(e)
  }

  /** One pass of the tile loop of `Map.load`: pop the entry's `class`, and if
      that names a registered class, load the rest of the entry with it. A
      missing tag, or a KeyError from the load, skips the entry; a list used
      as a tag is unhashable and raises TypeError. */
  function TileStep(classes: map<string, TileClass>, entry: Record): (r: Result<Option<Road>>)
    ensures "class" !in entry ==> r == Ok(None)
    ensures "class" in entry && entry["class"].Str? && entry["class"].s !in classes ==> r == Ok(None)
    ensures "class" in entry && (entry["class"].Pair? || entry["class"].Pairs?) ==> r == Err(TypeError)
    ensures r.Ok? && r.value.Some? ==>
              "class" in entry && entry["class"].Str? && entry["class"].s in classes &&
              LoadTile(classes[entry["class"].s], entry - {"class"}) == Ok(r.value.value)
    ensures r.Err? ==> !r.error.KeyError?
  {
    if "class" !in entry then Ok(None)
    else match entry["class"]
      case Pair(_) => Err(TypeError)
      case Pairs(_) => Err(TypeError)
      case Str(name) =>
        if name in classes then Caught(LoadTile(classes[name], entry - {"class"})) else Ok(None)
      case Num(_) => Ok(None)
  }

  /** One pass of the object loop of `Map.load`; object classes load against
      the tiles the map holds at that point. */
  function ObjectStep(ctx: (map<string, ObjectClass>, map<Pos, Road>), entry: Record)
    : (r: Result<Option<MapObject>>)
    ensures "class" !in entry ==> r == Ok(None)
    ensures "class" in entry && entry["class"].Str? && entry["class"].s !in ctx.0 ==> r == Ok(None)
    ensures "class" in entry && (entry["class"].Pair? || entry["class"].Pairs?) ==> r == Err(TypeError)
    ensures r.Ok? && r.value.Some? ==>
              "class" in entry && entry["class"].Str? && entry["class"].s in ctx.0 &&
              LoadObject(ctx.0[entry["class"].s], ctx.1, entry - {"class"}) == Ok(r.value.value)
    ensures r.Err? ==> !r.error.KeyError?
  {
    if "class" !in entry then Ok(None)
    else match entry["class"]
      case Pair(_) => Err(TypeError)
      case Pairs(_) => Err(TypeError)
      case Str(name) =>
        if name in ctx.0 then Caught(LoadObject(ctx.0[name], ctx.1, entry - {"class"})) else Ok(None)
      case Num(_) => Ok(None)
  }

  /** A tile entry whose tag names a registered class is loaded by that
      class's `load` on the entry without its tag: a KeyError skips it, any
      other error escapes. */
  lemma TileStepRegistered(classes: map<string, TileClass>, entry: Record)
    requires "class" in entry && entry["class"].Str? && entry["class"].s in classes
    ensures TileStep(classes, entry) == Caught(LoadTile(classes[entry["class"].s], entry - {"class"}))
    ensures classes[entry["class"].s] == PointBase ==> TileStep(classes, entry) == Err(NotImplementedError)
  {
  }

  /** The same for an object entry, loaded against the given tiles. */
  lemma ObjectStepRegistered(ctx: (map<string, ObjectClass>, map<Pos, Road>), entry: Record)
    requires "class" in entry && entry["class"].Str? && entry["class"].s in ctx.0
    ensures ObjectStep(ctx, entry) == Caught(LoadObject(ctx.0[entry["class"].s], ctx.1, entry - {"class"}))
    ensures ctx.0[entry["class"].s] == ObjectBase ==> ObjectStep(ctx, entry) == Err(NotImplementedError)
  {
  }

  /** A number as a tag names no class (`in` is False for it), so the entry is
      skipped by either loop. */
  lemma NumericTagSkipped(ctx: (map<string, ObjectClass>, map<Pos, Road>),
                          classes: map<string, TileClass>, entry: Record)
    requires "class" in entry && entry["class"].Num?
    ensures TileStep(classes, entry) == Ok(None)
    ensures ObjectStep(ctx, entry) == Ok(None)
  {
  }

  /** What a loop over `entries` yields, in document order: the entities of the
      entries whose step yields one; the first error that escapes a step ends it. */
  function Collect<C, T>(ctx: C, step: (C, Record) -> Result<Option<T>>, entries: seq<Record>)
    : (r: Result<seq<T>>)
    ensures r.Ok? ==> forall i :: 0 <= i < |entries| ==> step(ctx, entries[i]).Ok?
    ensures r.Err? ==> exists i :: 0 <= i < |entries| && step(ctx, entries[i]) == Err(r.error)
    decreases |entries|
  {
    if entries == [] then Ok([])
    else
      var init := entries[..|entries| - 1];
      match Collect(ctx, step, init)
      case Err(e) => Err(e)
      case Ok(vs) =>
        match step(ctx, entries[|entries| - 1])
        case Err(e) => Err(e)
        case Ok(None) => Ok(vs)
        case Ok(Some(v)) => Ok(vs + [v])
  }

  /** The loop yields at most one entity per entry. */
  lemma {:induction false} CollectAtMostOne<C, T>(ctx: C, step: (C, Record) -> Result<Option<T>>,
                                                  entries: seq<Record>)
    requires Collect(ctx, step, entries).Ok?
    ensures |Collect(ctx, step, entries).value| <= |entries|
    decreases |entries|
  {
    if entries != [] {
      CollectAtMostOne(ctx, step, entries[..|entries| - 1]);
    }
  }

  /** Once an error escapes, the rest of the entries change nothing. */
  lemma {:induction false} CollectErrStays<C, T>(ctx: C, step: (C, Record) -> Result<Option<T>>,
                                                 entries: seq<Record>, n: nat)
    requires n <= |entries| && Collect(ctx, step, entries[..n]).Err?
    ensures Collect(ctx, step, entries) == Collect(ctx, step, entries[..n])
    decreases |entries| - n
  {
    if n < |entries| {
      assert entries[..n + 1][..n] == entries[..n];
      CollectErrStays(ctx, step, entries, n + 1);
    } else {
      assert entries[..n] == entries;
    }
  }

  /** The loop over `entries + [e]` is the loop over `entries` followed by one
      more step. */
  lemma CollectSnoc<C, T>(ctx: C, step: (C, Record) -> Result<Option<T>>, entries: seq<Record>, e: Record)
    ensures Collect(ctx, step, entries + [e]) ==
              match Collect(ctx, step, entries)
              case Err(err) => Err(err)
              case Ok(vs) =>
                match step(ctx, e)
                case Err(err) => Err(err)
                case Ok(None) => Ok(vs)
                case Ok(Some(v)) => Ok(vs + [v])
  {
    assert (entries + [e])[..|entries|] == entries;
  }

  /** The loop over the first `i + 1` entries is the loop over the first `i`
      followed by one more step. */
  lemma CollectNext<C, T>(ctx: C, step: (C, Record) -> Result<Option<T>>, entries: seq<Record>, i: nat)
    requires i < |entries|
    ensures Collect(ctx, step, entries[..i + 1]) ==
              match Collect(ctx, step, entries[..i])
              case Err(err) => Err(err)
              case Ok(vs) =>
                match step(ctx, entries[i])
                case Err(err) => Err(err)
                case Ok(None) => Ok(vs)
                case Ok(Some(v)) => Ok(vs + [v])
  {
    assert entries[..i + 1] == entries[..i] + [entries[i]];
    CollectSnoc(ctx, step, entries[..i], entries[i]);
  }

  /** Loops that agree on their entries so far agree after one more entry. */
  lemma CollectSame<C, T>(ctx: C, step: (C, Record) -> Result<Option<T>>, a: seq<Record>, b: seq<Record>, e: Record)
    requires Collect(ctx, step, a) == Collect(ctx, step, b)
    ensures Collect(ctx, step, a + [e]) == Collect(ctx, step, b + [e])
  {
    CollectSnoc(ctx, step, a, e);
    CollectSnoc(ctx, step, b, e);
  }

  /** One pass of a load loop: an escaping error is the loop's error;
      otherwise the loop so far yields one entity more or nothing more, and
      putting that entity is one more update. */
  lemma LoadStep<C, T>(ctx: C, step: (C, Record) -> Result<Option<T>>, entries: seq<Record>, i: nat,
                       vs: seq<T>, d: Dict<Pos, T>, key: T -> Pos)
    requires i < |entries| && d.Valid() && Collect(ctx, step, entries[..i]) == Ok(vs)
    ensures step(ctx, entries[i]).Err? ==> Collect(ctx, step, entries) == Err(step(ctx, entries[i]).error)
    ensures step(ctx, entries[i]) == Ok(None) ==> Collect(ctx, step, entries[..i + 1]) == Ok(vs)
    ensures step(ctx, entries[i]).Ok? && step(ctx, entries[i]).value.Some? ==>
              Collect(ctx, step, entries[..i + 1]) == Ok(vs + [step(ctx, entries[i]).value.value]) &&
              PutAll(d, vs + [step(ctx, entries[i]).value.value], key) ==
                Update(PutAll(d, vs, key), key(step(ctx, entries[i]).value.value), step(ctx, entries[i]).value.value)
  {
    CollectNext(ctx, step, entries, i);
    match step(ctx, entries[i]) {
      case Err(_) => CollectErrStays(ctx, step, entries, i + 1);
      case Ok(None) =>
      case Ok(Some(v)) => PutAllSnoc(d, vs, key, v);
    }
  }

  lemma AppendAssoc(a: seq<Record>, b: seq<Record>, c: seq<Record>)
    ensures a + (b + c) == (a + b) + c
  {
  }

  /** An entry whose step yields nothing can be dropped: the loop goes on with
      the rest as if it were not there. */
  lemma {:induction false} CollectSkips<C, T>(ctx: C, step: (C, Record) -> Result<Option<T>>,
                                              before: seq<Record>, e: Record, after: seq<Record>)
    requires step(ctx, e) == Ok(None)
    ensures Collect(ctx, step, before + [e] + after) == Collect(ctx, step, before + after)
    decreases |after|
  {
    if after == [] {
      CollectSnoc(ctx, step, before, e);
      assert before + [e] + after == before + [e];
      assert before + after == before;
    } else {
      var n := |after|;
      var init := after[..n - 1];
      CollectSkips(ctx, step, before, e, init);
      CollectSame(ctx, step, before + [e] + init, before + init, after[n - 1]);
      assert after == init + [after[n - 1]];
      AppendAssoc(before + [e], init, [after[n - 1]]);
      AppendAssoc(before, init, [after[n - 1]]);
    }
  }

  /** When every entry yields its entity, the loop yields all of them, in order. */
  lemma {:induction false} CollectAll<C, T>(ctx: C, step: (C, Record) -> Result<Option<T>>,
                                            entries: seq<Record>, vs: seq<T>)
    requires |entries| == |vs|
    requires forall i :: 0 <= i < |entries| ==> step(ctx, entries[i]) == Ok(Some(vs[i]))
    ensures Collect(ctx, step, entries) == Ok(vs)
    decreases |entries|
  {
    if entries != [] {
      var n := |entries|;
      CollectAll(ctx, step, entries[..n - 1], vs[..n - 1]);
      assert vs[..n - 1] + [vs[n - 1]] == vs;
    }
  }

  /** The step result `r` is an entity stored under position `p`. */
  ghost predicate Yields<T>(r: Result<Option<T>>, key: T -> Pos, p: Pos) {
    r.Ok? && r.value.Some? && key(r.value.value) == p
  }

  /** Put into a dict, the entities of a loop keep, under each position, the
      entity of the LAST entry that yielded one there. */
  lemma {:induction false} CollectLastWins<C, T>(ctx: C, step: (C, Record) -> Result<Option<T>>,
                                                 entries: seq<Record>, d: Dict<Pos, T>,
                                                 key: T -> Pos, i: nat, x: T)
    requires d.Valid() && i < |entries| && step(ctx, entries[i]) == Ok(Some(x))
    requires Collect(ctx, step, entries).Ok?
    requires forall j :: i < j < |entries| ==> !Yields(step(ctx, entries[j]), key, key(x))
    ensures key(x) in PutAll(d, Collect(ctx, step, entries).value, key).entries
    ensures PutAll(d, Collect(ctx, step, entries).value, key).entries[key(x)] == x
    decreases |entries|
  {
    var n := |entries|;
    var init := entries[..n - 1];
    assert entries == init + [entries[n - 1]];
    CollectSnoc(ctx, step, init, entries[n - 1]);
    var vs := Collect(ctx, step, init).value;
    if i == n - 1 {
      PutAllSnoc(d, vs, key, x);
    } else {
      assert init[i] == entries[i];
      CollectLastWins(ctx, step, init, d, key, i, x);
      match step(ctx, entries[n - 1])
      case Ok(None) =>
      case Ok(Some(y)) =>
        PutAllSnoc(d, vs, key, y);
        assert key(y) != key(x);
    }
  }

  /** `Map.load` on a parsed document: every tile entry first, in document
      order, into an empty tile dict, then every object entry against those
      tiles. The result is the two dicts, or the error that escaped. */
  function LoadResult(tileClasses: map<string, TileClass>, objectClasses: map<string, ObjectClass>,
                    doc: Document): (r: Result<(Dict<Pos, Road>, Dict<Pos, MapObject>)>)
    ensures r.Ok? ==> r.value.0.Valid() && KeyedBy(r.value.0.entries, RoadKey)
    ensures r.Ok? ==> r.value.1.Valid() && KeyedBy(r.value.1.entries, ObjectKey)
  {
    match Collect(tileClasses, TileStep, doc.tiles)
    case Err(e) => Err(e)
    case Ok(roads) =>
      var tiles := PutAll(Empty(), roads, RoadKey);
      match Collect((objectClasses, tiles.entries), ObjectStep, doc.objects)
      case Err(e) => Err(e)
      case Ok(objs) => Ok((tiles, PutAll(Empty(), objs, ObjectKey)))
  }

  /** A tile entry without a `class`, or whose `class` is a number or names
      no registered class, is skipped and loading goes on with the entries
      after it. */
  lemma UnknownTileSkipped(tileClasses: map<string, TileClass>, objectClasses: map<string, ObjectClass>,
                           before: seq<Record>, e: Record, after: seq<Record>, objects: seq<Record>)
    requires "class" !in e || e["class"].Num? || (e["class"].Str? && e["class"].s !in tileClasses)
    ensures LoadResult(tileClasses, objectClasses, Document(before + [e] + after, objects))
         == LoadResult(tileClasses, objectClasses, Document(before + after, objects))
  {
    CollectSkips(tileClasses, TileStep, before, e, after);
  }

  /** The same for object entries. */
  lemma UnknownObjectSkipped(tileClasses: map<string, TileClass>, objectClasses: map<string, ObjectClass>,
                             tiles: seq<Record>, before: seq<Record>, e: Record, after: seq<Record>)
    requires "class" !in e || e["class"].Num? || (e["class"].Str? && e["class"].s !in objectClasses)
    ensures LoadResult(tileClasses, objectClasses, Document(tiles, before + [e] + after))
         == LoadResult(tileClasses, objectClasses, Document(tiles, before + after))
  {
    match Collect(tileClasses, TileStep, tiles)
    case Err(_) =>
    case Ok(roads) =>
      var ts := PutAll(Empty(), roads, RoadKey);
      CollectSkips((objectClasses, ts.entries), ObjectStep, before, e, after);
  }

  /** Of several tile entries at one position, the last one that loads is the
      tile the loaded map holds there. */
  lemma LaterTileWins(tileClasses: map<string, TileClass>, objectClasses: map<string, ObjectClass>,
                      doc: Document, i: nat, road: Road)
    requires LoadResult(tileClasses, objectClasses, doc).Ok?
    requires i < |doc.tiles| && TileStep(tileClasses, doc.tiles[i]) == Ok(Some(road))
    requires forall j :: i < j < |doc.tiles| ==> !Yields(TileStep(tileClasses, doc.tiles[j]), RoadKey, road.pos)
    ensures road.pos in LoadResult(tileClasses, objectClasses, doc).value.0.entries
    ensures LoadResult(tileClasses, objectClasses, doc).value.0.entries[road.pos] == road
  {
    CollectLastWins(tileClasses, TileStep, doc.tiles, Empty(), RoadKey, i, road);
  }

  /** Objects load against the tiles the whole tile list produced; of several
      object entries at one position, the last one that loads is the object
      the loaded map holds there. */
  lemma LaterObjectWins(tileClasses: map<string, TileClass>, objectClasses: map<string, ObjectClass>,
                        doc: Document, i: nat, obj: MapObject)
    requires LoadResult(tileClasses, objectClasses, doc).Ok?
    requires i < |doc.objects|
    requires ObjectStep((objectClasses, LoadResult(tileClasses, objectClasses, doc).value.0.entries), doc.objects[i])
             == Ok(Some(obj))
    requires forall j :: i < j < |doc.objects| ==>
               !Yields(ObjectStep((objectClasses, LoadResult(tileClasses, objectClasses, doc).value.0.entries),
                                  doc.objects[j]), ObjectKey, obj.pos())
    ensures obj.pos() in LoadResult(tileClasses, objectClasses, doc).value.1.entries
    ensures LoadResult(tileClasses, objectClasses, doc).value.1.entries[obj.pos()] == obj
  {
    var ctx := (objectClasses, LoadResult(tileClasses, objectClasses, doc).value.0.entries);
    CollectLastWins(ctx, ObjectStep, doc.objects, Empty(), ObjectKey, i, obj);
  }

  /** `map_content` of `Map.save`: one record per tile, then one per object,
      each list in its dict's insertion order. */
  function MapContent(tiles: Dict<Pos, Road>, objects: Dict<Pos, MapObject>): (doc: Document)
    requires tiles.Valid() && objects.Valid()
    ensures |doc.tiles| == |tiles.keys| && |doc.objects| == |objects.keys|
    ensures forall i :: 0 <= i < |tiles.keys| ==> doc.tiles[i] == RoadJson(tiles.entries[tiles.keys[i]])
    ensures forall i :: 0 <= i < |objects.keys| ==> doc.objects[i] == CarJson(objects.entries[objects.keys[i]])
  {
    var ts := Values(tiles);
    var os := Values(objects);
    Document(seq(|ts|, i requires 0 <= i < |ts| => RoadJson(ts[i])),
             seq(|os|, i requires 0 <= i < |os| => CarJson(os[i])))
  }

  /** The tile records `save` writes load back, in order, as the saved tiles. */
  lemma TilesLoadBack(tiles: Dict<Pos, Road>, objects: Dict<Pos, MapObject>)
    requires tiles.Valid() && KeyedBy(tiles.entries, RoadKey) && objects.Valid()
    ensures Collect(SourceTileClasses, TileStep, MapContent(tiles, objects).tiles) == Ok(Values(tiles))
  {
    var doc := MapContent(tiles, objects);
    var ts := Values(tiles);
    forall i | 0 <= i < |doc.tiles| ensures TileStep(SourceTileClasses, doc.tiles[i]) == Ok(Some(ts[i])) {
      RoadRoundTrip(ts[i]);
    }
    CollectAll(SourceTileClasses, TileStep, doc.tiles, ts);
  }

  /** The object records `save` writes load back, against the saved tiles, in
      order, as the saved objects. */
  lemma ObjectsLoadBack(tiles: Dict<Pos, Road>, objects: Dict<Pos, MapObject>)
    requires tiles.Valid() && objects.Valid() && KeyedBy(objects.entries, ObjectKey)
    requires forall p :: p in objects.entries ==> p in tiles.entries && objects.entries[p].spawn == tiles.entries[p]
    ensures Collect((SourceObjectClasses, tiles.entries), ObjectStep, MapContent(tiles, objects).objects)
            == Ok(Values(objects))
  {
    var doc := MapContent(tiles, objects);
    var os := Values(objects);
    forall i | 0 <= i < |doc.objects|
      ensures ObjectStep((SourceObjectClasses, tiles.entries), doc.objects[i]) == Ok(Some(os[i]))
    {
      assert os[i] == objects.entries[objects.keys[i]];
      CarRoundTrip(tiles.entries, os[i]);
    }
    CollectAll((SourceObjectClasses, tiles.entries), ObjectStep, doc.objects, os);
  }

  /** Saving and loading back, with the registries the map's classes set up,
      gives the same tiles and objects, in the same order, provided each car's
      spawn is the tile stored at its position. */
  lemma SaveThenLoad(tiles: Dict<Pos, Road>, objects: Dict<Pos, MapObject>)
    requires tiles.Valid() && KeyedBy(tiles.entries, RoadKey)
    requires objects.Valid() && KeyedBy(objects.entries, ObjectKey)
    requires forall p :: p in objects.entries ==> p in tiles.entries && objects.entries[p].spawn == tiles.entries[p]
    ensures LoadResult(SourceTileClasses, SourceObjectClasses, MapContent(tiles, objects)) == Ok((tiles, objects))
  {
    TilesLoadBack(tiles, objects);
    PutAllValues(tiles, RoadKey);
    ObjectsLoadBack(tiles, objects);
    PutAllValues(objects, ObjectKey);
  }

  /** The map: its tiles and its objects, each a dict keyed by position. */
  class Map {
    var tiles: Dict<Pos, Road>
    var objects: Dict<Pos, MapObject>

    /** Every tile and every object is stored under its own position. */
    ghost predicate Valid()
      reads this
    {
      && tiles.Valid() && KeyedBy(tiles.entries, RoadKey)
      && objects.Valid() && KeyedBy(objects.entries, ObjectKey)
    }

    constructor ()
      ensures Valid()
      ensures tiles.keys == [] && tiles.entries == map[]
      ensures objects.keys == [] && objects.entries == map[]
    {
      tiles := Empty();
      objects := Empty();
    }

    /** `add_tile`: the tile is stored under its position, replacing any tile
        there before (which keeps its place in the order); a new position goes
        last; the other tiles and all objects stay. */
    method AddTile(tile: Road)
      requires Valid()
      modifies this
      ensures Valid()
      ensures tiles == Update(old(tiles), tile.pos, tile)
      ensures tiles.entries == old(tiles.entries)[tile.pos := tile]
      ensures tiles.keys == if tile.pos in old(tiles.entries) then old(tiles.keys) else old(tiles.keys) + [tile.pos]
      ensures objects == old(objects)
    {
      tiles := Update(tiles, tile.pos, tile);
    }

    /** `add_object`: one object per position, the later replacing the earlier. */
    method AddObject(obj: MapObject)
      requires Valid()
      modifies this
      ensures Valid()
      ensures objects == Update(old(objects), obj.pos(), obj)
      ensures objects.entries == old(objects.entries)[obj.pos() := obj]
      ensures objects.keys == if obj.pos() in old(objects.entries) then old(objects.keys) else old(objects.keys) + [obj.pos()]
      ensures tiles == old(tiles)
    {
      objects := Update(objects, obj.pos(), obj);
    }

    /** The content `save` writes: exactly one record per stored tile, then one
        per stored object, in insertion order. */
    function Save(): (doc: Document)
      reads this
      requires Valid()
      ensures |doc.tiles| == |tiles.keys| && |doc.objects| == |objects.keys|
      ensures forall i :: 0 <= i < |tiles.keys| ==> doc.tiles[i] == RoadJson(tiles.entries[tiles.keys[i]])
      ensures forall i :: 0 <= i < |objects.keys| ==> doc.objects[i] == CarJson(objects.entries[objects.keys[i]])
    {
      MapContent(tiles, objects)
    }

    /** One pass of the tile loop: the entry's step, and the tile it yields
        (if any) added to this map. Before the pass, this map holds the tiles
        `roads` the first `i` entries yielded, put into `start`; after it,
        those of the first `i + 1`, unless the step's error ends the loop. */
    method LoadTileEntry(classes: map<string, TileClass>, entries: seq<Record>, i: nat,
                         ghost roads: seq<Road>, ghost start: Dict<Pos, Road>)
      returns (r: Result<Option<Road>>, ghost roads': seq<Road>)
      requires Valid() && objects == Empty() && i < |entries| && start.Valid()
      requires Collect(classes, TileStep, entries[..i]) == Ok(roads) && tiles == PutAll(start, roads, RoadKey)
      modifies this
      ensures Valid() && objects == Empty()
      ensures r == TileStep(classes, entries[i])
      ensures r.Ok? && r.value.Some? ==> tiles == Update(old(tiles), r.value.value.pos, r.value.value)
      ensures !(r.Ok? && r.value.Some?) ==> tiles == old(tiles)
      ensures r.Err? ==> Collect(classes, TileStep, entries) == Err(r.error)
      ensures r.Ok? ==> Collect(classes, TileStep, entries[..i + 1]) == Ok(roads') &&
                        tiles == PutAll(start, roads', RoadKey)
    {
      LoadStep(classes, TileStep, entries, i, roads, start, RoadKey);
      r := TileStep(classes, entries[i]);
      roads' := roads;
      if r.Ok? && r.value.Some? {
        AddTile(r.value.value);
        roads' := roads + [r.value.value];
      }
    }

    /** The tile loop of `Map.load`: each tile entry, in order, into this map. */
    method LoadTiles(classes: map<string, TileClass>, entries: seq<Record>) returns (r: Result<()>)
      requires Valid() && objects == Empty()
      modifies this
      ensures Valid() && objects == Empty()
      ensures Collect(classes, TileStep, entries).Err? ==> r == Err(Collect(classes, TileStep, entries).error)
      ensures Collect(classes, TileStep, entries).Ok? ==>
                r.Ok? && tiles == PutAll(old(tiles), Collect(classes, TileStep, entries).value, RoadKey)
    {
      ghost var roads: seq<Road> := [];
      var i := 0;
      while i < |entries|
        invariant 0 <= i <= |entries|
        invariant Valid() && objects == Empty()
        invariant Collect(classes, TileStep, entries[..i]) == Ok(roads)
        invariant tiles == PutAll(old(tiles), roads, RoadKey)
      {
        var result;
        result, roads := LoadTileEntry(classes, entries, i, roads, old(tiles));
        if result.Err? {
          return Err(result.error);
        }
        i := i + 1;
      }
      assert entries[..i] == entries;
      assert Collect(classes, TileStep, entries) == Ok(roads);
      r := Ok(());
    }

    /** One pass of the object loop: the entry's step, and the object it
        yields (if any) added to this map. */
    method LoadObjectEntry(ctx: (map<string, ObjectClass>, map<Pos, Road>), entry: Record)
      returns (r: Result<Option<MapObject>>)
      requires Valid()
      modifies this
      ensures Valid() && tiles == old(tiles)
      ensures r == ObjectStep(ctx, entry)
      ensures r.Ok? && r.value.Some? ==> objects == Update(old(objects), r.value.value.pos(), r.value.value)
      ensures !(r.Ok? && r.value.Some?) ==> objects == old(objects)
    {
      r := ObjectStep(ctx, entry);
      if r.Ok? && r.value.Some? {
        AddObject(r.value.value);
      }
    }

    /** The object loop of `Map.load`: each object entry, in order, against the
        tiles this map holds. */
    method LoadObjects(classes: map<string, ObjectClass>, entries: seq<Record>) returns (r: Result<()>)
      requires Valid()
      modifies this
      ensures Valid() && tiles == old(tiles)
      ensures Collect((classes, tiles.entries), ObjectStep, entries).Err? ==>
                r == Err(Collect((classes, tiles.entries), ObjectStep, entries).error)
      ensures Collect((classes, tiles.entries), ObjectStep, entries).Ok? ==>
                r.Ok? && objects == PutAll(old(objects), Collect((classes, tiles.entries), ObjectStep, entries).value, ObjectKey)
    {
      var ctx := (classes, tiles.entries);
      ghost var objs: seq<MapObject> := [];
      var i := 0;
      while i < |entries|
        invariant 0 <= i <= |entries|
        invariant Valid() && tiles == old(tiles)
        invariant Collect(ctx, ObjectStep, entries[..i]) == Ok(objs)
        invariant objects == PutAll(old(objects), objs, ObjectKey)
      {
        var result := LoadObjectEntry(ctx, entries[i]);
        LoadStep(ctx, ObjectStep, entries, i, objs, old(objects), ObjectKey);
        if result.Err? {
          return Err(result.error);
        }
        if result.value.Some? {
          objs := objs + [result.value.value];
        }
        i := i + 1;
      }
      assert entries[..i] == entries;
      r := Ok(());
    }

    /** `Map.load` on a parsed document, with the registries passed in: a new
        map holding what `LoadResult` describes, or the error that escaped. */
    static method Load(points: ClassTable<TileClass>, objectTable: ClassTable<ObjectClass>, doc: Document)
      returns (r: Result<Map>)
      ensures LoadResult(points.classes, objectTable.classes, doc).Err? ==>
                r == Err(LoadResult(points.classes, objectTable.classes, doc).error)
      ensures LoadResult(points.classes, objectTable.classes, doc).Ok? ==>
                && r.Ok? && fresh(r.value) && r.value.Valid()
                && r.value.tiles == LoadResult(points.classes, objectTable.classes, doc).value.0
                && r.value.objects == LoadResult(points.classes, objectTable.classes, doc).value.1
    {
      var instance := new Map();
      var loaded := instance.LoadTiles(points.classes, doc.tiles);
      if loaded.Err? {
        return Err(loaded.error);
      }
      loaded := instance.LoadObjects(objectTable.classes, doc.objects);
      if loaded.Err? {
        return Err(loaded.error);
      }
      r := Ok(instance);
    }
  }
}
