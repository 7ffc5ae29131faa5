# Road map store and path finder, in Dafny

This project models the core of a small road-map library. It has two parts.

**The map store** (`Map/map.py`):
- A `Map` keeps two dicts keyed by position, `tiles` and `objects`. Both are filled by add-or-replace.
- A `Road` tile stores its exits as positions. Reading `exits` resolves them through the map's tiles.
- Two metaclasses keep a class-name → class registry, one for tiles and one for objects.
- `Map.load` dispatches each record of a map document on its `class` tag through the registry. It skips entries it cannot handle.
- `save` writes one record list for tiles, then one for objects.

**The path finder** (`Map/dijkstra.py`):
- `Dijkstra.find` runs a frontier loop over two dicts: `visited` (node → distance, predecessor) and `queue`.
- It then walks the predecessor records back from the goal to build a path.

Files:
- `common.dfy`: positions, JSON values, and the Python exceptions the core raises, as an `Error` datatype.
- `ordered_dict.dfy`: a Python dict whose insertion order matters. It holds the map's tiles and objects (saved in that order) and the path finder's queue (`min` takes the first of equal entries).
- `records.dfy`: `Road` and `Car`, their JSON records, `Road.exits`, `Road.load` and `Car.load`.
- `registry.dfy`: the registries as a class `ClassTable` with a mutable `classes` map.
- `store.dfy`: the class `Map` with `AddTile`, `AddObject`, `Save` and `Load`. `Load` is proved against the function `LoadResult`.
- `graph.dfy`: walks and reachability over the tiles' exits.
- `dijkstra.dfy`: `find`, split into its parts:
  - `Extract`: the `min` of line 23.
  - `Expand`: the loop over the exits, lines 25-42.
  - `Explore`: the outer loop, lines 20-43.
  - `Backtrack`: the walk back, lines 45-50.
  - `Find`: the whole call.

Conventions of the model:
- **Positions.** A position is an integer pair. Nodes of the path finder are positions. The tiles dict is keyed by each tile's own position, so a position names exactly one stored tile.
- **Exceptions.** A Python exception is a `Result`/`Outcome` value. `except KeyError: pass` in `Map.load` is `Store.Caught`.
- **JSON values.** A position in a record is a JSON list of two numbers (`Value.Pair`). A list of positions is `Value.Pairs`.
- **Edge weights.** The weight is an arbitrary function `w` from two positions to a natural number, so distances are natural numbers.
- **The endless walk.** `find`'s walk back never terminates once it comes back to a tile it has already passed. The model returns the outcome `Forever` at that point; it carries the walk so far and the repeated tile. It does so exactly when the Python loop would run forever.

What the code does, and the model with it:
- **`find` does not compute shortest paths.** Although the class is named `Dijkstra`, line 37 rewrites a record only when the neighbour's recorded distance is LESS than that of the tile being expanded, and the rewritten tile is not queued again. Such rewrites can give the source a predecessor, or make two tiles each other's predecessor. The walk back then never ends (`Dijkstra.Outcome.Forever`).
  - Example, with positive weights: source `s` has exit `a`, `a` has exit `b`, `b` has exit `a`, and the goal is `b`. Expanding `b` rewrites `a` as reached from `b`, so `a` and `b` name each other.
- **The search runs until the queue is empty.** Extracting the goal does not end it. Once the goal is recorded, meeting it among a tile's exits (line 26) `break`s out of that tile's exit loop, so the goal and every later exit of that tile are skipped.
- **A linear `min`.** The queue is a dict scanned by `min` (line 23). Ties go to the earliest inserted entry.
- **The weight.** The weight is `sqrt((dx)**2 - dy)` (lines 31 and 39). The model keeps the weight abstract.
- **Cars do not load back as written.** `Car.load` (`Map/map.py:179`) looks the car's tile up with the position as read from JSON, a list, which raises TypeError for every record (see "## Findings"). The model's object loading uses the corrected `Car.load`, which converts the position with `tuple`. There, a car whose position is not a stored tile raises KeyError, which `Map.load` catches, skipping the entry.
- **The exit order is kept.** Saving a road writes its exits in their order, and loading keeps it.

## Model

| member | source | states |
|---|---|---|
| OrderedDict.Update | Map/map.py:146-149 | `d.update({k: v})`: `k` now maps to `v`; every other key keeps its presence and value; a new key goes last, an existing key keeps its place; the dict stays well formed |
| OrderedDict.Pop | Map/dijkstra.py:43 | `queue.pop(k)` of a present key: exactly that entry goes, one key fewer, the other keys keep their order |
| OrderedDict.Values | Map/map.py:139-140 | `d.values()` lists, in insertion order, the value of each key |
| OrderedDict.PutAll | Map/map.py:121-133 | the repeated `add_tile`/`add_object` (`update`) of the load loops, one value after the other: the result is a well-formed dict, and if every entry was stored under its own key, every entry still is |
| OrderedDict.PutAllKeys | Map/map.py:121-126 | after a sequence of updates a key is present iff it was before or some value was put under it; untouched keys keep their value |
| OrderedDict.PutAllLastWins | Map/map.py:121-126 | the value put last under a key is the one the dict holds |
| OrderedDict.PutAllSnoc | Map/map.py:121-126 | putting one more value after a sequence of updates is one more `update` under that value's key |
| OrderedDict.PutAllValues | Map/map.py:137-141 | re-inserting a dict's values, in order, into an empty dict rebuilds that dict, order included, when each value is stored under its own key |
| OrderedDict.PrefixStep | Map/map.py:139 | the first `n` entries of a dict are its first `n - 1` entries updated with the `n`-th key and its value |
| OrderedDict.PutAllPrefix | Map/map.py:137-141 | putting the first `n` values of a dict, in order, into an empty dict gives its first `n` entries, order included, when each value is stored under its own key |
| Records.ExitTiles | Map/map.py:161-164 | `Road.exits` succeeds iff every stored exit position is a tile; then it has the same length and order, the i-th element being the tile under the i-th exit; otherwise it raises KeyError for the first missing position |
| Records.RoadJson | Map/map.py:43-52 | `Point.json` of a road: exactly `pos`, `exits` and the class name `Road`, and the record without its tag loads back, through `Road.load`, as the same road |
| Records.RoadLoad | Map/map.py:165-168 | `Road.load` succeeds iff `pos` and `exits` are present and well formed, giving that position and exactly those exits in order; errors in evaluation order: a missing `pos` raises KeyError("pos"), a number as `pos` raises TypeError, then (whatever else `pos` is) a missing `exits` raises KeyError("exits") and an `exits` that is not a list of positions raises TypeError; a `pos` that is a list of positions then raises TypeError (unhashable once stored) |
| Records.RoadRoundTrip | Map/map.py:43-52 | the JSON record of a road carries class `Road`, and loading it back, with or without the tag, gives the same position and exits in the same order |
| Records.CarJson | Map/map.py:82-95 | `Object.json` of a car: exactly `pos`, `spawn`, `width` and the class name `Car`; the spawn tile, having a `json`, is written as its position, which is the car's own position |
| Records.CarLoadAsWritten | Map/map.py:176-179 | `Car.load` as written never succeeds: a JSON list as a key raises TypeError |
| Records.CarRecordFailsAsWritten | Map/map.py:176-179 | the record `Object.json` writes for any car fails to load as written, with TypeError |
| Records.CarLoad | Map/map.py:176-179 | `Car.load` with `tuple(pos)`: succeeds iff `pos` names a stored tile and `width` is present, giving the car on that tile; `pos` is read first: a missing `pos` raises KeyError("pos"); a number or a non-empty list of positions as `pos` raises TypeError, an empty list raises KeyError for the empty tuple; a position naming no stored tile raises KeyError for that position, and only then a missing `width` raises KeyError("width") |
| Records.CarRoundTrip | Map/map.py:82-95 | the record of a car whose spawn is the tile at its position carries class `Car` and loads back as the same car |
| Registry.ClassTable.constructor | Map/map.py:8 | a registry starts empty |
| Registry.ClassTable.Define | Map/map.py:10-14 | defining a class with bases registers it under its name, replacing any earlier entry; a class without bases is not registered |
| Registry.DefineSourceClasses | Map/map.py:19-23 | after the class statements of the map, `Road` and `Car` are registered and the bare `Point`/`Object` are not |
| Store.LoadTile | Map/map.py:124 | the registered tile class's `load`: the dispatch to the class found in the registry: the bare `Point` raises NotImplementedError, `Road` loads with `Road.load` |
| Store.LoadObject | Map/map.py:131 | the registered object class's `load`: the dispatch to the class found in the registry: the bare `Object` raises NotImplementedError, `Car` loads with the CORRECTED `Records.CarLoad` (`tuple(pos)`), not the as-written one |
| Store.Caught | Map/map.py:122-126 | `except KeyError: pass`: an error escapes iff it is not a KeyError, and unchanged; a load yields an entity iff it succeeded, and then that entity |
| Store.TileStep | Map/map.py:121-126 | one tile entry: a missing or unregistered string tag skips it; a list tag raises TypeError; a loaded tile comes from the registered class's `load` on the entry without its tag; no KeyError escapes |
| Store.ObjectStep | Map/map.py:128-133 | the same for one object entry, loaded against the map's current tiles |
| Store.TileStepRegistered | Map/map.py:122-126 | a tile entry whose tag names a registered class IS loaded by that class's `load` on the entry without its tag, under `except KeyError`: a KeyError skips it, any other error (the bare `Point`'s NotImplementedError, a TypeError) escapes |
| Store.NumericTagSkipped | Map/map.py:121-133 | a number as a tag names no registered class, so both loops skip the entry |
| Store.ObjectStepRegistered | Map/map.py:129-133 | the same for an object entry, loaded against the given tiles |
| Store.Collect | Map/map.py:121-126 | a loop over entries succeeds only if every entry's step succeeded, and fails only with an error some entry's step raised |
| Store.CollectAtMostOne | Map/map.py:121-126 | a successful loop yields at most one entity per entry |
| Store.CollectErrStays | Map/map.py:121-126 | once an error escapes, later entries change nothing |
| Store.CollectSnoc | Map/map.py:121-126 | the loop over one more entry is the loop so far followed by one more step: an error stays, nothing adds nothing, an entity goes last |
| Store.CollectNext | Map/map.py:121-126 | the same, for the first `i + 1` entries of a list |
| Store.CollectSame | Map/map.py:121-126 | two entry lists with the same outcome keep the same outcome after one more entry |
| Store.LoadStep | Map/map.py:121-133 | one pass of a load loop: an escaping error is the whole loop's error; otherwise the loop yields nothing more, or one more entity whose storing is one more update |
| Store.CollectSkips | Map/map.py:122-126 | an entry that yields nothing can be removed without changing the outcome |
| Store.CollectAll | Map/map.py:121-126 | when every entry yields an entity, the loop yields all of them in order |
| Store.CollectLastWins | Map/map.py:121-126 | stored by position, the entity of the last entry yielding one at that position wins |
| Store.LoadResult | Map/map.py:114-135 | the loaded tiles and objects are well-formed dicts, each entry under its own position |
| Store.UnknownTileSkipped | Map/map.py:121-126 | a tile entry with no tag, a numeric tag or an unregistered tag is skipped and the rest still load |
| Store.UnknownObjectSkipped | Map/map.py:128-133 | the same for object entries |
| Store.LaterTileWins | Map/map.py:121-126 | of several tile entries at a position, the last that loads is the loaded tile |
| Store.LaterObjectWins | Map/map.py:128-133 | objects load against all the loaded tiles; the last object entry loading at a position wins |
| Store.TilesLoadBack | Map/map.py:121-126 | each tile record `save` writes loads, with the map's registry, as its tile: the tile loop yields the saved tiles in order |
| Store.ObjectsLoadBack | Map/map.py:128-133 | each object record `save` writes loads, against the saved tiles, as its car: the object loop yields the saved objects in order |
| Store.SaveThenLoad | Map/map.py:137-141 | loading what `save` writes, with the map's registries, gives back the same tiles and objects in the same order |
| Store.MapContent | Map/map.py:138-141 | the specification of `Map.Save`, against which the load-back lemmas are stated; `map_content`: exactly one record per stored tile and one per stored object, each list in its dict's insertion order |
| Store.Map.constructor | Map/map.py:107-109 | a new map has no tiles and no objects |
| Store.Map.AddTile | Map/map.py:146-149 | the tile is stored under its position, replacing any earlier one in place; others and all objects unchanged; every tile stays under its own position |
| Store.Map.AddObject | Map/map.py:151-154 | one object per position, a later one replacing the earlier; tiles and other objects unchanged |
| Store.Map.Save | Map/map.py:137-141 | `MapContent` of the map's own dicts: exactly one record per stored tile, then one per stored object, in insertion order |
| Store.Map.LoadTileEntry | Map/map.py:122-126 | one pass of the tile loop returns that entry's step; the tile it yields, if any, is added as `add_tile` adds it, and otherwise the tiles stay; so the tiles after `i + 1` entries are those `Collect` yields for them, put in order, or the step's error is the whole loop's error |
| Store.Map.LoadTiles | Map/map.py:121-126 | the tile loop adds exactly what `Collect` over the tile entries yields, or returns its error |
| Store.Map.LoadObjectEntry | Map/map.py:129-133 | one pass of the object loop returns that entry's step; the object it yields, if any, is added as `add_object` adds it; the tiles stay |
| Store.Map.LoadObjects | Map/map.py:128-133 | the object loop adds exactly what `Collect` over the object entries yields, tiles untouched |
| Store.Map.Load | Map/map.py:114-135 | a fresh well-formed map holding what `LoadResult` gives, or the error that escaped |
| Graph.WalkExtend | Map/dijkstra.py:25-35 | a walk extended by an exit that is a stored tile is a walk |
| Graph.ClosedSetContainsWalk | Map/dijkstra.py:25-35 | a walk starting in a set closed under exits stays in it |
| Graph.ClosedSetBoundsReach | Map/dijkstra.py:25-35 | nothing outside a closed set is reachable from inside it |
| Dijkstra.MinIndex | Map/dijkstra.py:23 | the index of the first least distance |
| Dijkstra.Extract | Map/dijkstra.py:23 | the extracted tile is queued, has the least queued distance, and no earlier-inserted entry ties with it |
| Dijkstra.Distances | Map/dijkstra.py:23 | the distances of the queued records, in queue order |
| Dijkstra.LeastDistance | Map/dijkstra.py:23 | the key at the index of a least distance has a distance no greater than that of any queued tile |
| Dijkstra.Reached | Map/dijkstra.py:30-33 | a new record names `u` as predecessor, at no less than `u`'s distance |
| Dijkstra.VisitNew | Map/dijkstra.py:29-35 | recording a first-discovered exit keeps the exit loop's invariant |
| Dijkstra.VisitAgain | Map/dijkstra.py:37-42 | a rewritten record is an old one, not the goal's, whose distance was less than `u`'s |
| Dijkstra.VisitKeep | Map/dijkstra.py:37 | an exit already recorded and left alone (its distance being no less than `u`'s) keeps the exit loop's invariant one exit further |
| Dijkstra.VisitStop | Map/dijkstra.py:26-27 | breaking at the recorded goal leaves the loop's promise intact |
| Dijkstra.QueueNew | Map/dijkstra.py:35 | a first-discovered tile is queued last with its record |
| Dijkstra.QueueAgain | Map/dijkstra.py:37-42 | a rewritten record does not touch the queue |
| Dijkstra.HandledNew | Map/dijkstra.py:29-35 | a first-discovered exit is recorded, and the rewrites already done stay |
| Dijkstra.HandledAgain | Map/dijkstra.py:37-42 | an exit whose distance is less than `u`'s carries, after line 42, the record "reached from `u`" computed from `u`'s unchanged distance |
| Dijkstra.HandledKeep | Map/dijkstra.py:37 | an exit left alone at no less than `u`'s distance cannot be an old record of lesser distance that still needed the rewrite |
| Dijkstra.FreshTiles | Map/dijkstra.py:29-35 | the tiles the exit loop queues anew are exactly the exits seen so far that were not recorded before the loop, each listed once |
| Dijkstra.FreshSnoc | Map/dijkstra.py:29-35 | one more exit joins the end of the newly queued tiles iff it was neither recorded before the loop nor seen earlier |
| Dijkstra.FreshNew | Map/dijkstra.py:35 | queueing an exit neither recorded before nor seen earlier extends the queue as the fresh tiles say |
| Dijkstra.FreshOld | Map/dijkstra.py:37-42 | an exit recorded before the loop, or seen earlier, adds nothing to the newly queued tiles |
| Dijkstra.SeenRecorded | Map/dijkstra.py:29-42 | during the exit loop, a tile is recorded iff it was recorded before the loop or is one of the exits seen so far |
| Dijkstra.ExitNew | Map/dijkstra.py:29-35 | recording and queueing a first-discovered exit keeps every promise of the exit loop, one exit further |
| Dijkstra.ExitAgain | Map/dijkstra.py:37-42 | rewriting the record of an old non-goal exit of lesser distance, without queueing it, keeps every promise of the exit loop, one exit further |
| Dijkstra.ExitKeep | Map/dijkstra.py:37 | leaving an exit of no lesser distance alone keeps every promise of the exit loop, one exit further |
| Dijkstra.NoBreakNext | Map/dijkstra.py:26-27 | passing an exit that, if it is the goal, came while the goal was unrecorded keeps the exits seen free of break points |
| Dijkstra.VisitExit | Map/dijkstra.py:26-42 | one pass of the exit loop, at an exit where line 26 does not break, keeps what the loop promises for the records, the queue, the order of the newly queued tiles, and the recording and rewriting of the exits seen so far, and keeps the exits seen free of break points |
| Dijkstra.Expand | Map/dijkstra.py:25-42 | `u`'s record stays; new tiles are exits of `u`, recorded and queued as reached from `u`; an old record is kept or, for a non-goal exit of lesser distance, rewritten without re-queuing; the loop processes the first `n` exits, stopping early only at the recorded goal, and at its FIRST such occurrence (no processed exit is the goal once recorded, `NoBreakYet`); every processed exit is recorded, and every processed old non-goal exit whose distance was less than `u`'s IS rewritten as reached from `u`; only the processed exits are touched (new records and rewrites come from `exits[..n]`), and the new tiles are queued after the old entries in the order of their first occurrence among the processed exits (`Fresh`) |
| Dijkstra.SearchStart | Map/dijkstra.py:20-21 | the search starts with the source alone, at (0, none), queued |
| Dijkstra.SearchStep | Map/dijkstra.py:23-43 | one pass keeps the search invariant and either records a new tile or shrinks the queue |
| Dijkstra.ExpandedKeys | Map/dijkstra.py:25-42 | after the exit loop, the tiles recorded anew are stored tiles and exactly they have joined the queue; if none was, the queue is unchanged |
| Dijkstra.StepKeys | Map/dijkstra.py:23-43 | after expanding and popping `u`, the recorded tiles are still split between the queue and the done tiles, `u` now done, all of them stored tiles |
| Dijkstra.StepMeasure | Map/dijkstra.py:23-43 | each pass records a stored tile not recorded before, or records none and leaves the queue one entry shorter |
| Dijkstra.StepWalks | Map/dijkstra.py:29-35 | each tile recorded anew is reached by the walk to `u` and one more step |
| Dijkstra.StepRecords | Map/dijkstra.py:29-42 | only the source stays without a predecessor, and when it is the goal its record is never replaced |
| Dijkstra.StepClosure | Map/dijkstra.py:25-35 | once `u` is expanded, every exit of it is recorded unless the goal is |
| Dijkstra.SearchLinks | Map/dijkstra.py:29-42 | every recorded predecessor is recorded and has the tile among its exits, whichever branch wrote it |
| Dijkstra.SearchDangling | Map/dijkstra.py:25 | an unresolved exit of an extracted tile dangles from a tile reachable from the source |
| Dijkstra.SearchDone | Map/dijkstra.py:20-43 | with the queue empty, every recorded tile is reachable, the goal is recorded iff reachable, and when the goal is not recorded every reachable tile is |
| Dijkstra.ClosedRecords | Map/dijkstra.py:20-43 | records closed under exits, holding the source, hold every tile reachable from the source |
| Dijkstra.WalksReach | Map/dijkstra.py:20-43 | a tile with a witness walk from the source is reachable from it |
| Dijkstra.ExitsResolved | Map/dijkstra.py:25 | resolving a tile's exits (`source_node.exits`) succeeds only if each exit is a stored tile |
| Dijkstra.ExitsStoredStep | Map/dijkstra.py:23-25 | a tile whose exits were resolved joins the expanded tiles whose exits are all stored |
| Dijkstra.Explore | Map/dijkstra.py:20-43 | an error that is raised is the KeyError of an exit, dangling from a reachable tile, that names no stored tile; a successful search resolved the exits of every recorded tile, so each of them is a stored tile; the records cover exactly what is reachable when the goal is not, hold the goal iff it is reachable, follow exits, leave only the source without predecessor, keep the source at (0, none) when it is the goal, and take one pass per recorded tile |
| Dijkstra.Backtrack | Map/dijkstra.py:45-50 | an unrecorded goal raises KeyError; a path ends with the goal, each node's predecessor being the one before, none without predecessor, the first one's predecessor having none; a repeated tile means the walk never ends |
| Dijkstra.ChainIsWalk | Map/dijkstra.py:45-50 | a predecessor chain that follows exits is a walk |
| Dijkstra.PathFromSource | Map/dijkstra.py:45-50 | a finished walk back from the source is a simple walk starting at the source |
| Dijkstra.BacktrackStart | Map/dijkstra.py:47 | the node a finished walk back starts from is the source |
| Dijkstra.FoundPath | Map/dijkstra.py:45-50 | a finished walk back is empty iff the goal is the source; otherwise the source followed by the path is a simple walk ending at the goal |
| Dijkstra.Find | Map/dijkstra.py:18-50 | `find(n, n)` is `[]`; an unreachable goal raises KeyError; any other error is a dangling exit; a returned path, after the source, is a simple walk from source to goal; an endless walk back is a list of distinct tiles ending at the goal, each recorded as reached from the one before, whose first tile's predecessor is already in the list, so the walk back runs into a cycle of predecessor records (the goal need not be on it) |

## Findings

| source | as written | input that shows it | evidently intended | confidence | as-written member | corrected member |
|---|---|---|---|---|---|---|
| Map/map.py:179 | `Car.load` indexes `tiles` with `obj["pos"]` as read from JSON, a list, raising TypeError, which `Map.load` does not catch | the record `save` writes for any car, e.g. `{"pos": [0, 0], "spawn": [0, 0], "width": 0.05, "class": "Car"}` from the 3×3 fixture | convert with `tuple(obj["pos"])` as `Road.load` does, so that saved cars load back | high; not executed | Records.CarRecordFailsAsWritten | Records.CarRoundTrip |

`Store.LoadObject` uses the corrected `Records.CarLoad`, and `Store.SaveThenLoad` is proved with it.

## Left out

- Weight formula: the weight `sqrt((dx)**2 - dy)` is a float, and a negative radicand raises ValueError. Both are left out; the weight is an abstract function into the natural numbers.
- Dijkstra.Find: makes no shortest-path claim. The code does not keep that promise because of the inverted, non-requeuing rewrite.
- File and JSON I/O are not modelled:
  - `path.open`, `json.load` and `json.dump`;
  - `Map.load` and `Map.save` work on a parsed `Document`;
  - a document without `tiles` or `objects` keys (a KeyError in Python) is not represented.
- The module-level `generate_3x3` call that writes a file on import is not modelled, and neither is its fixture.
- The metaclass and `dir()` reflection mechanics are replaced by the explicit `ClassTable` map and the per-subtype functions `RoadJson`, `CarJson`, `RoadLoad` and `CarLoad`.
- The `map` back-reference set by `add_map_instance` is not modelled. Exits are resolved through a tiles map passed explicitly.
- Records.RoadLoad: a string `pos` or `exits` makes Python build a road from its characters, and an empty list as `pos` (with well-formed `exits`) makes it store a road at the empty tuple `()`. Positions in the model are pairs, so the model raises TypeError for these instead.
- Records.CarLoad: the car's `width` is an opaque JSON value, not a float.
- Node identity:
  - Python compares nodes by identity and hashes them by position.
  - The model identifies a node with its position.
  - `Dijkstra.Find` requires the source to be the stored tile at its position and the tiles to be keyed by their own positions.
- Store.ObjectStep: loads a `Car` entry with the corrected `Car.load` (`tuple(pos)`); as written every `Car` entry raises TypeError (see "## Findings").
- Store.LaterObjectWins: stated for the corrected `Car.load`; as written no `Car` entry loads.
- Store.ObjectsLoadBack: stated for the corrected `Car.load`; as written the first saved car raises TypeError.
- Store.SaveThenLoad: stated for the corrected `Car.load`; as written a saved map with a car does not load back.
- Store.Map.Load: runs on the corrected `Car.load`; as written it raises TypeError at the first `Car` entry.
- Dijkstra.Backtrack: an endless walk is reported as `Forever` at the first repeated tile instead of running on.
- JSON values: `null`, booleans, floats, nested objects and lists other than a position or a list of positions are not represented (`Value`), nor are entries of `tiles` or `objects` that are not JSON objects.
- Concurrency is out of scope (none in the core), and so is `main.py`, a broken entry point outside the core.
