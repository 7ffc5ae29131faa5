/** The path finder of the map: a search over the road network from a source
    tile that records, for each tile it reaches, a distance and the tile it was
    reached from, then walks those records back from the goal. */
module Dijkstra {
  import opened Common
  import opened OrderedDict
  import opened Records
  import opened Graph

  /** What the search records for a tile: its distance and its predecessor
      (none for the source). */
  datatype Edge = Edge(distance: nat, predecessor: Option<Pos>)

  /** How `find` ends: it returns a path, or raises, or walks a cycle of
      predecessors without end. `Forever` holds the walk up to the point where
      it comes back to a tile it already passed (`again`); from there the walk
      repeats itself and `find` never returns. */
  datatype Outcome = Path(nodes: seq<Pos>) | Raised(error: Error) | Forever(nodes: seq<Pos>, again: Pos)

  /** The place of the first least element of `ds`. */
  function MinIndex(ds: seq<nat>): (m: nat)
    requires |ds| > 0
    ensures m < |ds|
    ensures forall j :: 0 <= j < |ds| ==> ds[m] <= ds[j]
    ensures forall j :: 0 <= j < m ==> ds[m] < ds[j]
  {
    if |ds| == 1 then 0
    else
      var m := MinIndex(ds[..|ds| - 1]);
      if ds[|ds| - 1] < ds[m] then |ds| - 1 else m
  }

  /** `min(queue, key=distance)`: the frontier tile of least distance, the
      first such in the queue's insertion order. */
  function Extract(queue: Dict<Pos, Edge>): (u: Pos)
    requires queue.Valid() && queue.keys != []
    ensures u in queue.entries
    ensures forall k :: k in queue.entries ==> queue.entries[u].distance <= queue.entries[k].distance
    ensures exists i :: 0 <= i < |queue.keys| && queue.keys[i] == u &&
                        forall j :: 0 <= j < i ==> queue.entries[u].distance < queue.entries[queue.keys[j]].distance
  {
    var ds := Distances(queue);
    var m := MinIndex(ds);
    LeastDistance(queue, m);
    queue.keys[m]
  }

  /** The distances of the queue, in its order. */
  function Distances(queue: Dict<Pos, Edge>): (ds: seq<nat>)
    requires queue.Valid()
    ensures |ds| == |queue.keys|
    ensures forall i :: 0 <= i < |ds| ==> ds[i] == queue.entries[queue.keys[i]].distance
  {
    seq(|queue.keys|, i requires 0 <= i < |queue.keys| => queue.entries[queue.keys[i]].distance)
  }

  /** A least distance in the order of the keys is least over the whole queue. */
  lemma LeastDistance(queue: Dict<Pos, Edge>, m: nat)
    requires queue.Valid() && m < |queue.keys|
    requires forall j :: 0 <= j < |queue.keys| ==> Distances(queue)[m] <= Distances(queue)[j]
    ensures forall k :: k in queue.entries ==>
              queue.entries[queue.keys[m]].distance <= queue.entries[k].distance
  {
    var ds := Distances(queue);
    forall k | k in queue.entries
      ensures queue.entries[queue.keys[m]].distance <= queue.entries[k].distance
    {
      var j :| 0 <= j < |queue.keys| && queue.keys[j] == k;
      assert ds[m] <= ds[j];
    }
  }

  /** Every recorded predecessor is itself recorded, and is a stored tile that
      has the tile it precedes among its exits. */
  ghost predicate LinksFollowExits(tiles: map<Pos, Road>, visited: map<Pos, Edge>) {
    forall v :: v in visited && visited[v].predecessor.Some? ==>
      visited[v].predecessor.value in visited && Link(tiles, visited[v].predecessor.value, v)
  }

  ghost predicate Distinct(s: seq<Pos>) {
    forall i, j :: 0 <= i < j < |s| ==> s[i] != s[j]
  }

  /** Every tile of `nodes` is recorded with a predecessor, and that
      predecessor is the tile before it in `nodes`. */
  ghost predicate Chain(visited: map<Pos, Edge>, nodes: seq<Pos>) {
    && (forall i :: 0 <= i < |nodes| ==> nodes[i] in visited && visited[nodes[i]].predecessor.Some?)
    && (forall i, j :: 0 <= i && j == i + 1 && j < |nodes| ==> visited[nodes[j]].predecessor == Some(nodes[i]))
  }

  /** The record `find` makes for `v` when it reaches it from `u`. */
  function Reached(w: (Pos, Pos) -> nat, visited: map<Pos, Edge>, u: Pos, v: Pos): (e: Edge)
    requires u in visited
    ensures e.predecessor == Some(u) && e.distance >= visited[u].distance
  {
    Edge(visited[u].distance + w(u, v), Some(u))
  }

  /** What the loop over the exits of `u` has done to the records once it has
      gone through the exits `seen`: the record of `u` stays; a tile recorded
      anew is one of `seen`, reached from `u`; an old record stays, or, for a
      tile of `seen` other than the goal whose distance was less than `u`'s,
      becomes "reached from `u`"; and unless the goal is recorded, every tile
      of `seen` is. */
  ghost predicate VisitedExpanded(w: (Pos, Pos) -> nat, goal: Pos, u: Pos, seen: seq<Pos>,
                                  visited0: map<Pos, Edge>, visited: map<Pos, Edge>)
    requires u in visited0
  {
    && visited0.Keys <= visited.Keys && u in visited && visited[u] == visited0[u]
    && (forall v :: v in visited && v !in visited0 ==> v in seen && visited[v] == Reached(w, visited0, u, v))
    && (forall v :: v in visited0 ==>
          visited[v] == visited0[v] ||
          (v in seen && v != goal && visited0[v].distance < visited0[u].distance &&
           visited[v] == Reached(w, visited0, u, v)))
    && (goal !in visited ==> forall v :: v in seen ==> v in visited)
  }

  /** What the same loop has done to the queue: the tiles recorded anew are
      queued after the old entries, with their new records; the old entries
      stay as they were. */
  ghost predicate QueueExpanded(visited0: map<Pos, Edge>, queue0: Dict<Pos, Edge>,
                                visited: map<Pos, Edge>, queue: Dict<Pos, Edge>)
  {
    && |queue0.keys| <= |queue.keys| && queue.keys[..|queue0.keys|] == queue0.keys
    && (forall k :: k in queue.entries <==> k in queue0.entries || (k in visited && k !in visited0))
    && (forall k :: k in queue0.entries ==> queue.entries[k] == queue0.entries[k])
    && (forall k :: k in visited && k !in visited0 ==> queue.entries[k] == visited[k])
    && (visited.Keys == visited0.Keys ==> queue == queue0)
  }

  /** The tiles of `seen` that are not in `known`, each once, in the order of
      their first occurrence: the order in which the exit loop queues the
      tiles it records anew (line 35). */
  function Fresh(seen: seq<Pos>, known: set<Pos>): seq<Pos>
    decreases |seen|
  {
    if seen == [] then []
    else
      var init := seen[..|seen| - 1];
      var v := seen[|seen| - 1];
      if v in known || v in init then Fresh(init, known) else Fresh(init, known) + [v]
  }

  /** The fresh tiles are exactly the tiles of `seen` not in `known`, and
      none of them is listed twice. */
  lemma {:induction false} FreshTiles(seen: seq<Pos>, known: set<Pos>)
    ensures forall v :: v in Fresh(seen, known) <==> v in seen && v !in known
    ensures Distinct(Fresh(seen, known))
    decreases |seen|
  {
    if seen != [] {
      var init := seen[..|seen| - 1];
      assert seen == init + [seen[|seen| - 1]];
      FreshTiles(init, known);
    }
  }

  /** One more exit adds itself to the fresh tiles when it is neither known
      nor seen before. */
  lemma FreshSnoc(seen: seq<Pos>, v: Pos, known: set<Pos>)
    ensures Fresh(seen + [v], known) ==
              if v in known || v in seen then Fresh(seen, known) else Fresh(seen, known) + [v]
  {
    assert (seen + [v])[..|seen|] == seen;
  }

  /** An exit neither known nor seen before is queued after the fresh tiles. */
  lemma FreshNew(keys0: seq<Pos>, keys: seq<Pos>, seen: seq<Pos>, v: Pos, known: set<Pos>)
    requires keys == keys0 + Fresh(seen, known) && v !in known && v !in seen
    ensures keys + [v] == keys0 + Fresh(seen + [v], known)
  {
    FreshSnoc(seen, v, known);
    SnocAssoc(keys0, Fresh(seen, known), v);
  }

  lemma SnocAssoc(a: seq<Pos>, b: seq<Pos>, v: Pos)
    ensures a + (b + [v]) == (a + b) + [v]
  {
  }

  /** An exit that is known or seen before adds nothing to the fresh tiles. */
  lemma FreshOld(seen: seq<Pos>, v: Pos, known: set<Pos>)
    requires v in known || v in seen
    ensures Fresh(seen + [v], known) == Fresh(seen, known)
  {
    FreshSnoc(seen, v, known);
  }

  /** Every exit in `seen` is recorded, and the rewrite of lines 37-42 has
      been done: an old record, other than the goal's, of an exit whose
      distance was less than `u`'s now says "reached from `u`". */
  ghost predicate ExitsHandled(w: (Pos, Pos) -> nat, goal: Pos, u: Pos, seen: seq<Pos>,
                               visited0: map<Pos, Edge>, visited: map<Pos, Edge>)
    requires u in visited0
  {
    forall v :: v in seen ==>
      && v in visited
      && (v in visited0 && v != goal && visited0[v].distance < visited0[u].distance ==>
            visited[v] == Reached(w, visited0, u, v))
  }

  /** Recording a first-discovered exit handles it. */
  lemma HandledNew(w: (Pos, Pos) -> nat, goal: Pos, u: Pos, seen: seq<Pos>,
                   visited0: map<Pos, Edge>, visited: map<Pos, Edge>, v: Pos)
    requires u in visited0 && visited0.Keys <= visited.Keys && v !in visited
    requires ExitsHandled(w, goal, u, seen, visited0, visited)
    ensures u in visited
    ensures ExitsHandled(w, goal, u, seen + [v], visited0, visited[v := Reached(w, visited, u, v)])
  {
  }

  /** Rewriting the record of an exit whose distance is less than `u`'s
      handles it. */
  lemma HandledAgain(w: (Pos, Pos) -> nat, goal: Pos, u: Pos, seen: seq<Pos>,
                     visited0: map<Pos, Edge>, visited: map<Pos, Edge>, v: Pos)
    requires u in visited0 && u in visited && visited[u] == visited0[u] && v in visited
    requires visited[v].distance < visited[u].distance
    requires ExitsHandled(w, goal, u, seen, visited0, visited)
    ensures ExitsHandled(w, goal, u, seen + [v], visited0, visited[v := Reached(w, visited, u, v)])
  {
    assert Reached(w, visited, u, v) == Reached(w, visited0, u, v);
  }

  /** An exit whose record is left alone at no less than `u`'s distance is
      handled: had its old distance been less, it would already carry the
      rewritten record. */
  lemma HandledKeep(w: (Pos, Pos) -> nat, goal: Pos, u: Pos, seen: seq<Pos>,
                    visited0: map<Pos, Edge>, visited: map<Pos, Edge>, v: Pos)
    requires u in visited0 && u in visited && visited[u] == visited0[u] && v in visited
    requires visited[v].distance >= visited[u].distance
    requires v in visited0 ==> visited[v] == visited0[v] || visited[v] == Reached(w, visited0, u, v)
    requires ExitsHandled(w, goal, u, seen, visited0, visited)
    ensures ExitsHandled(w, goal, u, seen + [v], visited0, visited)
  {
  }

  /** A tile not yet recorded is recorded as reached from `u`. */
  lemma VisitNew(w: (Pos, Pos) -> nat, goal: Pos, u: Pos, seen: seq<Pos>,
                 visited0: map<Pos, Edge>, visited: map<Pos, Edge>, v: Pos)
    requires u in visited0 && VisitedExpanded(w, goal, u, seen, visited0, visited) && v !in visited
    ensures VisitedExpanded(w, goal, u, seen + [v], visited0, visited[v := Reached(w, visited, u, v)])
  {
  }

  /** A recorded tile other than the goal, of lesser distance than `u`, is an
      old one, and is recorded again as reached from `u`. */
  lemma VisitAgain(w: (Pos, Pos) -> nat, goal: Pos, u: Pos, seen: seq<Pos>,
                   visited0: map<Pos, Edge>, visited: map<Pos, Edge>, v: Pos)
    requires u in visited0 && VisitedExpanded(w, goal, u, seen, visited0, visited)
    requires v in visited && v != goal && visited[v].distance < visited[u].distance
    ensures v in visited0
    ensures VisitedExpanded(w, goal, u, seen + [v], visited0, visited[v := Reached(w, visited, u, v)])
  {
  }

  /** Any other recorded tile keeps its record. */
  lemma VisitKeep(w: (Pos, Pos) -> nat, goal: Pos, u: Pos, seen: seq<Pos>,
                  visited0: map<Pos, Edge>, visited: map<Pos, Edge>, v: Pos)
    requires u in visited0 && VisitedExpanded(w, goal, u, seen, visited0, visited) && v in visited
    ensures VisitedExpanded(w, goal, u, seen + [v], visited0, visited)
  {
  }

  /** Leaving the loop early, at the goal once it is recorded, is as good as
      going through every exit. */
  lemma VisitStop(w: (Pos, Pos) -> nat, goal: Pos, u: Pos, exits: seq<Pos>, i: nat,
                  visited0: map<Pos, Edge>, visited: map<Pos, Edge>)
    requires u in visited0 && i <= |exits| && VisitedExpanded(w, goal, u, exits[..i], visited0, visited)
    requires i == |exits| || goal in visited
    ensures VisitedExpanded(w, goal, u, exits, visited0, visited)
  {
    if i == |exits| {
      assert exits[..i] == exits;
    }
  }

  /** A tile recorded anew goes last in the queue. */
  lemma QueueNew(visited0: map<Pos, Edge>, queue0: Dict<Pos, Edge>,
                 visited: map<Pos, Edge>, queue: Dict<Pos, Edge>, v: Pos, e: Edge)
    requires QueueExpanded(visited0, queue0, visited, queue) && visited0.Keys <= visited.Keys && v !in visited
    requires queue0.entries.Keys <= visited0.Keys
    ensures v !in queue.entries
    ensures QueueExpanded(visited0, queue0, visited[v := e], Dict(queue.keys + [v], queue.entries[v := e]))
  {
    var q := Dict(queue.keys + [v], queue.entries[v := e]);
    assert q.keys[..|queue0.keys|] == queue.keys[..|queue0.keys|];
    var visited' := visited[v := e];
    assert visited'.Keys != visited0.Keys by {
      assert v in visited'.Keys;
    }
  }

  lemma QueueAgain(visited0: map<Pos, Edge>, queue0: Dict<Pos, Edge>,
                   visited: map<Pos, Edge>, queue: Dict<Pos, Edge>, v: Pos, e: Edge)
    requires QueueExpanded(visited0, queue0, visited, queue) && v in visited0 && v in visited
    ensures QueueExpanded(visited0, queue0, visited[v := e], queue)
  {
    assert visited[v := e].Keys == visited.Keys;
  }

  /** Once the exits `seen` are handled, a tile is recorded iff it was
      recorded before the loop or is one of `seen`. */
  lemma SeenRecorded(w: (Pos, Pos) -> nat, goal: Pos, u: Pos, seen: seq<Pos>,
                     visited0: map<Pos, Edge>, visited: map<Pos, Edge>, v: Pos)
    requires u in visited0 && VisitedExpanded(w, goal, u, seen, visited0, visited)
    requires ExitsHandled(w, goal, u, seen, visited0, visited)
    ensures v in visited <==> v in visited0 || v in seen
  {
  }

  /** No exit of `seen` was a place where line 26 breaks: each occurrence of
      the goal in `seen` came while the goal was still unrecorded, before the
      loop and by the exits before it. */
  ghost predicate NoBreakYet(goal: Pos, visited0: map<Pos, Edge>, seen: seq<Pos>) {
    forall j :: 0 <= j < |seen| && seen[j] == goal ==> goal !in visited0 && goal !in seen[..j]
  }

  /** An exit passed while the goal is unrecorded, if it is the goal, keeps
      `seen` free of break points. */
  lemma NoBreakNext(goal: Pos, visited0: map<Pos, Edge>, seen: seq<Pos>, v: Pos)
    requires NoBreakYet(goal, visited0, seen)
    requires v == goal ==> goal !in visited0 && goal !in seen
    ensures NoBreakYet(goal, visited0, seen + [v])
  {
    assert forall j :: 0 <= j < |seen| ==> (seen + [v])[..j] == seen[..j];
    assert (seen + [v])[..|seen|] == seen;
  }

  /** What the exit loop keeps once it has gone through the exits `seen`: the
      records and the queue are as `VisitedExpanded` and `QueueExpanded` say,
      every exit of `seen` is handled, and the tiles recorded anew are queued
      in the order of their first occurrence in `seen`. */
  ghost predicate ExitLoop(w: (Pos, Pos) -> nat, goal: Pos, u: Pos, seen: seq<Pos>,
                           visited0: map<Pos, Edge>, queue0: Dict<Pos, Edge>,
                           visited: map<Pos, Edge>, queue: Dict<Pos, Edge>)
    requires u in visited0
  {
    && VisitedExpanded(w, goal, u, seen, visited0, visited)
    && queue.Valid() && QueueExpanded(visited0, queue0, visited, queue)
    && ExitsHandled(w, goal, u, seen, visited0, visited)
    && queue.keys == queue0.keys + Fresh(seen, visited0.Keys)
  }

  /** An exit not yet recorded is recorded as reached from `u` and queued last
      (lines 29-35). */
  lemma ExitNew(w: (Pos, Pos) -> nat, goal: Pos, u: Pos, seen: seq<Pos>,
                visited0: map<Pos, Edge>, queue0: Dict<Pos, Edge>,
                visited: map<Pos, Edge>, queue: Dict<Pos, Edge>, v: Pos)
    requires u in visited0 && queue0.entries.Keys <= visited0.Keys
    requires ExitLoop(w, goal, u, seen, visited0, queue0, visited, queue) && v !in visited
    ensures ExitLoop(w, goal, u, seen + [v], visited0, queue0, visited[v := Reached(w, visited, u, v)],
                     Update(queue, v, Reached(w, visited, u, v)))
  {
    var e := Reached(w, visited, u, v);
    VisitNew(w, goal, u, seen, visited0, visited, v);
    HandledNew(w, goal, u, seen, visited0, visited, v);
    QueueNew(visited0, queue0, visited, queue, v, e);
    SeenRecorded(w, goal, u, seen, visited0, visited, v);
    FreshNew(queue0.keys, queue.keys, seen, v, visited0.Keys);
  }

  /** A recorded exit other than the goal whose distance is less than `u`'s is
      recorded again as reached from `u`, and not queued (lines 37-42). */
  lemma ExitAgain(w: (Pos, Pos) -> nat, goal: Pos, u: Pos, seen: seq<Pos>,
                  visited0: map<Pos, Edge>, queue0: Dict<Pos, Edge>,
                  visited: map<Pos, Edge>, queue: Dict<Pos, Edge>, v: Pos)
    requires u in visited0
    requires ExitLoop(w, goal, u, seen, visited0, queue0, visited, queue) && v in visited && v != goal
    requires visited[v].distance < visited[u].distance
    ensures ExitLoop(w, goal, u, seen + [v], visited0, queue0, visited[v := Reached(w, visited, u, v)], queue)
  {
    var e := Reached(w, visited, u, v);
    VisitAgain(w, goal, u, seen, visited0, visited, v);
    HandledAgain(w, goal, u, seen, visited0, visited, v);
    QueueAgain(visited0, queue0, visited, queue, v, e);
    FreshOld(seen, v, visited0.Keys);
  }

  /** Any other recorded exit is left alone. */
  lemma ExitKeep(w: (Pos, Pos) -> nat, goal: Pos, u: Pos, seen: seq<Pos>,
                 visited0: map<Pos, Edge>, queue0: Dict<Pos, Edge>,
                 visited: map<Pos, Edge>, queue: Dict<Pos, Edge>, v: Pos)
    requires u in visited0
    requires ExitLoop(w, goal, u, seen, visited0, queue0, visited, queue) && v in visited
    requires visited[v].distance >= visited[u].distance
    ensures ExitLoop(w, goal, u, seen + [v], visited0, queue0, visited, queue)
  {
    VisitKeep(w, goal, u, seen, visited0, visited, v);
    HandledKeep(w, goal, u, seen, visited0, visited, v);
    SeenRecorded(w, goal, u, seen, visited0, visited, v);
    FreshOld(seen, v, visited0.Keys);
  }

  /** One pass of the exit loop (lines 29-42) for the exit `v`, the `i`-th of
      `exits`, the exits before it already handled: a tile not yet recorded is
      recorded as reached from `u` and queued; a recorded tile whose distance
      is less than `u`'s is recorded again as reached from `u`, not queued;
      any other is left alone. */
  method VisitExit(w: (Pos, Pos) -> nat, goal: Pos, u: Pos, v: Pos, ghost exits: seq<Pos>, ghost i: nat,
                   ghost visited0: map<Pos, Edge>, ghost queue0: Dict<Pos, Edge>,
                   visited: map<Pos, Edge>, queue: Dict<Pos, Edge>)
    returns (visited': map<Pos, Edge>, queue': Dict<Pos, Edge>)
    requires u in visited0 && queue0.entries.Keys <= visited0.Keys && i < |exits| && exits[i] == v
    requires ExitLoop(w, goal, u, exits[..i], visited0, queue0, visited, queue)
    requires v == goal ==> goal !in visited
    requires NoBreakYet(goal, visited0, exits[..i])
    ensures ExitLoop(w, goal, u, exits[..i + 1], visited0, queue0, visited', queue')
    ensures NoBreakYet(goal, visited0, exits[..i + 1])
  {
    assert exits[..i + 1] == exits[..i] + [v];
    if v == goal {
      SeenRecorded(w, goal, u, exits[..i], visited0, visited, goal);
    }
    NoBreakNext(goal, visited0, exits[..i], v);
    visited', queue' := visited, queue;
    if v !in visited {
      ExitNew(w, goal, u, exits[..i], visited0, queue0, visited, queue, v);
      var e := Reached(w, visited, u, v);
      visited' := visited[v := e];
      queue' := Update(queue, v, e);
    } else if visited[v].distance < visited[u].distance {
      ExitAgain(w, goal, u, exits[..i], visited0, queue0, visited, queue, v);
      visited' := visited[v := Reached(w, visited, u, v)];
    } else {
      ExitKeep(w, goal, u, exits[..i], visited0, queue0, visited, queue, v);
    }
  }

  /** The loop over the exits of the extracted tile `u`. It stops at the first
      occurrence of the goal that comes once the goal is recorded, and touches
      no exit after it. A tile not yet recorded is recorded as reached
      from `u` and queued; a recorded tile whose distance is LESS than `u`'s is
      recorded again as reached from `u`, and not queued. */
  method Expand(w: (Pos, Pos) -> nat, goal: Pos, u: Pos, exits: seq<Pos>,
                visited0: map<Pos, Edge>, queue0: Dict<Pos, Edge>)
    returns (visited: map<Pos, Edge>, queue: Dict<Pos, Edge>, ghost n: nat)
    requires u in visited0 && queue0.Valid() && queue0.entries.Keys <= visited0.Keys
    ensures VisitedExpanded(w, goal, u, exits, visited0, visited)
    ensures queue.Valid() && QueueExpanded(visited0, queue0, visited, queue)
    ensures n <= |exits| && (n == |exits| || (exits[n] == goal && goal in visited))
    ensures ExitsHandled(w, goal, u, exits[..n], visited0, visited)
    ensures VisitedExpanded(w, goal, u, exits[..n], visited0, visited)
    ensures queue.keys == queue0.keys + Fresh(exits[..n], visited0.Keys)
    ensures NoBreakYet(goal, visited0, exits[..n])
  {
    visited, queue := visited0, queue0;
    var i := 0;
    n := 0;
    while i < |exits|
      invariant 0 <= i <= |exits| && n == i
      invariant ExitLoop(w, goal, u, exits[..i], visited0, queue0, visited, queue)
      invariant NoBreakYet(goal, visited0, exits[..i])
    {
      var v := exits[i];
      if v == goal && goal in visited {
        n := i;
        break;
      }
      visited, queue := VisitExit(w, goal, u, v, exits, i, visited0, queue0, visited, queue);
      i := i + 1;
      n := i;
    }
    VisitStop(w, goal, u, exits, i, visited0, visited);
  }

  /** Each tile of `walks` has a walk from the source to it. */
  ghost predicate WalksFrom(tiles: map<Pos, Road>, source: Pos, walks: map<Pos, seq<Pos>>) {
    forall v :: v in walks ==> IsWalk(tiles, walks[v]) && walks[v][0] == source && walks[v][|walks[v]| - 1] == v
  }

  /** Only the source may lack a predecessor, and when the source is the goal
      it keeps its first record. */
  ghost predicate RecordsRooted(source: Pos, goal: Pos, visited: map<Pos, Edge>) {
    && (forall v :: v in visited && visited[v].predecessor.None? ==> v == source)
    && (source == goal ==> source in visited && visited[source] == Edge(0, None))
  }

  /** Until the goal is recorded, every exit of a done tile is recorded. */
  ghost predicate ClosedUntilGoal(tiles: map<Pos, Road>, goal: Pos, visited: map<Pos, Edge>, done: set<Pos>) {
    goal !in visited ==> forall u :: u in done ==> u in tiles && forall e :: e in tiles[u].exits ==> e in visited
  }

  /** What holds of the search between two extractions: the recorded tiles are
      the queued ones and the done ones (extracted and expanded), all stored
      tiles, each with a witness walk from the source, their predecessors
      following exits. */
  ghost predicate Searching(tiles: map<Pos, Road>, source: Pos, goal: Pos, visited: map<Pos, Edge>,
                            queue: Dict<Pos, Edge>, done: set<Pos>, walks: map<Pos, seq<Pos>>)
  {
    && queue.Valid()
    && visited.Keys == queue.entries.Keys + done && queue.entries.Keys !! done
    && source in visited && visited.Keys <= tiles.Keys
    && walks.Keys == visited.Keys && WalksFrom(tiles, source, walks)
    && LinksFollowExits(tiles, visited)
    && RecordsRooted(source, goal, visited)
    && ClosedUntilGoal(tiles, goal, visited, done)
  }

  /** The witness walks once `u` has been expanded: a tile recorded anew is
      reached by the walk to `u` and one more step. */
  ghost function ExtendWalks(walks: map<Pos, seq<Pos>>, u: Pos, visited0: map<Pos, Edge>,
                             visited: map<Pos, Edge>): map<Pos, seq<Pos>>
    requires u in walks && visited0.Keys <= walks.Keys
  {
    map v | v in visited :: if v in visited0 then walks[v] else walks[u] + [v]
  }

  /** Expanding the extracted tile `u` and popping it from the queue keeps the
      search invariant, and either records some tile anew or shrinks the queue. */
  lemma SearchStep(tiles: map<Pos, Road>, w: (Pos, Pos) -> nat, source: Pos, goal: Pos,
                   visited0: map<Pos, Edge>, queue0: Dict<Pos, Edge>, done: set<Pos>,
                   walks: map<Pos, seq<Pos>>, u: Pos, visited: map<Pos, Edge>, queue: Dict<Pos, Edge>)
    requires Searching(tiles, source, goal, visited0, queue0, done, walks) && u in queue0.entries
    requires forall e :: e in tiles[u].exits ==> e in tiles
    requires VisitedExpanded(w, goal, u, tiles[u].exits, visited0, visited)
    requires queue.Valid() && QueueExpanded(visited0, queue0, visited, queue)
    ensures u in queue.entries && |done + {u}| == |done| + 1
    ensures Searching(tiles, source, goal, visited, Pop(queue, u), done + {u},
                      ExtendWalks(walks, u, visited0, visited))
    ensures tiles.Keys - visited.Keys < tiles.Keys - visited0.Keys ||
            (tiles.Keys - visited.Keys == tiles.Keys - visited0.Keys && |Pop(queue, u).keys| < |queue0.keys|)
  {
    ExpandedKeys(tiles, w, goal, u, visited0, queue0, visited, queue);
    StepKeys(tiles, source, visited0, queue0, done, u, visited, queue);
    assert u !in done;
    StepWalks(tiles, w, source, goal, visited0, walks, u, visited);
    SearchLinks(tiles, w, goal, visited0, u, visited);
    StepRecords(w, source, goal, visited0, u, tiles[u].exits, visited);
    StepClosure(tiles, w, goal, visited0, done, u, visited);
  }

  /** What expanding `u` does to the sets of recorded and queued tiles: the
      tiles recorded anew are stored tiles, and exactly they join the queue. */
  lemma ExpandedKeys(tiles: map<Pos, Road>, w: (Pos, Pos) -> nat, goal: Pos, u: Pos,
                     visited0: map<Pos, Edge>, queue0: Dict<Pos, Edge>,
                     visited: map<Pos, Edge>, queue: Dict<Pos, Edge>)
    requires u in visited0 && u in tiles && forall e :: e in tiles[u].exits ==> e in tiles
    requires VisitedExpanded(w, goal, u, tiles[u].exits, visited0, visited)
    requires QueueExpanded(visited0, queue0, visited, queue)
    ensures visited0.Keys <= visited.Keys && visited.Keys - visited0.Keys <= tiles.Keys
    ensures queue.entries.Keys == queue0.entries.Keys + (visited.Keys - visited0.Keys)
    ensures visited.Keys == visited0.Keys ==> queue == queue0
  {
  }

  /** The set algebra of one pass: the recorded tiles `v` split into the
      queued `q` and the done `d`, and after `u` moves from queued to done
      they still do. */
  lemma SplitKeys(v0: set<Pos>, q0: set<Pos>, d: set<Pos>, v: set<Pos>, q: set<Pos>, u: Pos)
    requires v0 == q0 + d && q0 !! d && u in q0 && v0 <= v && q == q0 + (v - v0)
    ensures v == (q - {u}) + (d + {u}) && (q - {u}) !! (d + {u})
  {
  }

  /** The recorded tiles stay split between queue and done. */
  lemma StepKeys(tiles: map<Pos, Road>, source: Pos, visited0: map<Pos, Edge>, queue0: Dict<Pos, Edge>,
                 done: set<Pos>, u: Pos, visited: map<Pos, Edge>, queue: Dict<Pos, Edge>)
    requires visited0.Keys == queue0.entries.Keys + done && queue0.entries.Keys !! done
    requires source in visited0 && visited0.Keys <= tiles.Keys && u in queue0.entries
    requires visited0.Keys <= visited.Keys && visited.Keys - visited0.Keys <= tiles.Keys
    requires queue.Valid() && queue.entries.Keys == queue0.entries.Keys + (visited.Keys - visited0.Keys)
    requires visited.Keys == visited0.Keys ==> queue == queue0
    ensures u in queue.entries
    ensures visited.Keys == Pop(queue, u).entries.Keys + (done + {u}) && Pop(queue, u).entries.Keys !! (done + {u})
    ensures source in visited && visited.Keys <= tiles.Keys
    ensures tiles.Keys - visited.Keys < tiles.Keys - visited0.Keys ||
            (tiles.Keys - visited.Keys == tiles.Keys - visited0.Keys && |Pop(queue, u).keys| < |queue0.keys|)
  {
    SplitKeys(visited0.Keys, queue0.entries.Keys, done, visited.Keys, queue.entries.Keys, u);
    assert Pop(queue, u).entries.Keys == queue.entries.Keys - {u};
    StepMeasure(tiles, visited0, queue0, visited, queue, u);
  }

  /** Each pass records a new stored tile, or records none and leaves the
      queue one entry shorter. */
  lemma StepMeasure(tiles: map<Pos, Road>, visited0: map<Pos, Edge>, queue0: Dict<Pos, Edge>,
                    visited: map<Pos, Edge>, queue: Dict<Pos, Edge>, u: Pos)
    requires visited0.Keys <= visited.Keys && visited.Keys <= tiles.Keys
    requires queue.Valid() && u in queue.entries
    requires visited.Keys == visited0.Keys ==> queue == queue0
    ensures tiles.Keys - visited.Keys < tiles.Keys - visited0.Keys ||
            (tiles.Keys - visited.Keys == tiles.Keys - visited0.Keys && |Pop(queue, u).keys| < |queue0.keys|)
  {
    if visited.Keys != visited0.Keys {
      var v :| v in visited && v !in visited0;
      assert v in tiles.Keys - visited0.Keys;
    }
  }

  /** Every tile recorded anew gets a walk: the one to `u`, then one step. */
  lemma StepWalks(tiles: map<Pos, Road>, w: (Pos, Pos) -> nat, source: Pos, goal: Pos,
                  visited0: map<Pos, Edge>, walks: map<Pos, seq<Pos>>, u: Pos, visited: map<Pos, Edge>)
    requires walks.Keys == visited0.Keys && WalksFrom(tiles, source, walks) && u in visited0
    requires forall e :: e in tiles[u].exits ==> e in tiles
    requires VisitedExpanded(w, goal, u, tiles[u].exits, visited0, visited)
    ensures ExtendWalks(walks, u, visited0, visited).Keys == visited.Keys
    ensures WalksFrom(tiles, source, ExtendWalks(walks, u, visited0, visited))
  {
    var walks' := ExtendWalks(walks, u, visited0, visited);
    forall v | v in walks'
      ensures IsWalk(tiles, walks'[v]) && walks'[v][0] == source && walks'[v][|walks'[v]| - 1] == v
    {
      if v !in visited0 {
        WalkExtend(tiles, walks[u], v);
      }
    }
  }

  /** New records all name `u`, and the goal's record is never replaced. */
  lemma StepRecords(w: (Pos, Pos) -> nat, source: Pos, goal: Pos, visited0: map<Pos, Edge>,
                    u: Pos, exits: seq<Pos>, visited: map<Pos, Edge>)
    requires u in visited0 && RecordsRooted(source, goal, visited0)
    requires VisitedExpanded(w, goal, u, exits, visited0, visited)
    ensures RecordsRooted(source, goal, visited)
  {
  }

  /** Once `u` is expanded, all its exits are recorded, unless the goal is. */
  lemma StepClosure(tiles: map<Pos, Road>, w: (Pos, Pos) -> nat, goal: Pos, visited0: map<Pos, Edge>,
                    done: set<Pos>, u: Pos, visited: map<Pos, Edge>)
    requires u in visited0 && u in tiles && ClosedUntilGoal(tiles, goal, visited0, done)
    requires VisitedExpanded(w, goal, u, tiles[u].exits, visited0, visited)
    ensures ClosedUntilGoal(tiles, goal, visited, done + {u})
  {
  }

  /** Expanding `u` keeps predecessors following exits. */
  lemma SearchLinks(tiles: map<Pos, Road>, w: (Pos, Pos) -> nat, goal: Pos,
                    visited0: map<Pos, Edge>, u: Pos, visited: map<Pos, Edge>)
    requires u in visited0 && u in tiles && LinksFollowExits(tiles, visited0)
    requires VisitedExpanded(w, goal, u, tiles[u].exits, visited0, visited)
    ensures LinksFollowExits(tiles, visited)
  {
    forall v | v in visited && visited[v].predecessor.Some?
      ensures visited[v].predecessor.value in visited && Link(tiles, visited[v].predecessor.value, v)
    {
      if v in visited0 && visited[v] == visited0[v] {
      } else {
        assert visited[v].predecessor == Some(u);
      }
    }
  }

  /** The search starts with the source alone, recorded with distance 0 and no
      predecessor, and queued. */
  lemma SearchStart(tiles: map<Pos, Road>, source: Pos, goal: Pos)
    requires source in tiles
    ensures Dict([source], map[source := Edge(0, None)]).Valid()
    ensures Searching(tiles, source, goal, map[source := Edge(0, None)],
                      Dict([source], map[source := Edge(0, None)]), {}, map[source := [source]])
  {
    assert IsWalk(tiles, [source]);
  }

  /** An exit of the extracted tile that is not a stored tile dangles from
      the source. */
  lemma SearchDangling(tiles: map<Pos, Road>, source: Pos, goal: Pos, visited: map<Pos, Edge>,
                       queue: Dict<Pos, Edge>, done: set<Pos>, walks: map<Pos, seq<Pos>>, u: Pos, e: Pos)
    requires Searching(tiles, source, goal, visited, queue, done, walks) && u in queue.entries
    requires e in tiles[u].exits && e !in tiles
    ensures DanglingFrom(tiles, source, e)
  {
    assert IsWalk(tiles, walks[u]);
    assert Link(tiles, u, e);
  }

  /** When the queue is empty, every recorded tile is reachable from the
      source, and unless the goal is recorded, every reachable tile is
      recorded. */
  lemma SearchDone(tiles: map<Pos, Road>, source: Pos, goal: Pos, visited: map<Pos, Edge>,
                   queue: Dict<Pos, Edge>, done: set<Pos>, walks: map<Pos, seq<Pos>>)
    requires Searching(tiles, source, goal, visited, queue, done, walks) && queue.keys == []
    ensures done == visited.Keys
    ensures forall v :: v in visited ==> Reachable(tiles, source, v)
    ensures goal in visited <==> Reachable(tiles, source, goal)
    ensures goal !in visited ==> forall t :: Reachable(tiles, source, t) ==> t in visited
  {
    assert queue.entries.Keys == {};
    WalksReach(tiles, source, walks);
    if goal !in visited {
      assert Closed(tiles, visited.Keys);
      ClosedRecords(tiles, source, visited);
    }
  }

  /** Records closed under exits, the source among them, hold every tile
      reachable from the source. */
  lemma ClosedRecords(tiles: map<Pos, Road>, source: Pos, visited: map<Pos, Edge>)
    requires source in visited && Closed(tiles, visited.Keys)
    ensures forall t :: Reachable(tiles, source, t) ==> t in visited
  {
    forall t | Reachable(tiles, source, t) ensures t in visited {
      ClosedSetBoundsReach(tiles, visited.Keys, source, t);
    }
  }

  /** Each tile with a witness walk from the source is reachable from it. */
  lemma WalksReach(tiles: map<Pos, Road>, source: Pos, walks: map<Pos, seq<Pos>>)
    requires WalksFrom(tiles, source, walks)
    ensures forall v :: v in walks ==> Reachable(tiles, source, v)
  {
    forall v | v in walks ensures Reachable(tiles, source, v) {
      assert IsWalk(tiles, walks[v]);
    }
  }

  /** Every exit of every tile in `s` is a stored tile. */
  ghost predicate ExitsStored(tiles: map<Pos, Road>, s: set<Pos>) {
    forall x :: x in s ==> x in tiles && forall e :: e in tiles[x].exits ==> e in tiles
  }

  /** Resolving the exits of a tile succeeds only when each of them is a
      stored tile. */
  lemma ExitsResolved(tiles: map<Pos, Road>, u: Pos)
    requires u in tiles && ExitTiles(tiles, tiles[u].exits).Ok?
    ensures forall e :: e in tiles[u].exits ==> e in tiles
  {
    forall e | e in tiles[u].exits ensures e in tiles {
      var k :| 0 <= k < |tiles[u].exits| && tiles[u].exits[k] == e;
    }
  }

  /** A tile whose exits were all resolved joins the tiles whose exits are stored. */
  lemma ExitsStoredStep(tiles: map<Pos, Road>, s: set<Pos>, u: Pos)
    requires ExitsStored(tiles, s) && u in tiles && forall e :: e in tiles[u].exits ==> e in tiles
    ensures ExitsStored(tiles, s + {u})
  {
  }

  /** The search loop of `find` (everything before the walk back): the records
      of every tile the search reached, or the KeyError a dangling exit raised.
      `rounds` counts the passes of the loop: one per recorded tile. */
  method Explore(tiles: map<Pos, Road>, w: (Pos, Pos) -> nat, source: Pos, goal: Pos)
    returns (r: Result<map<Pos, Edge>>, ghost rounds: nat)
    requires source in tiles
    ensures r.Err? ==> r.error.KeyError? && r.error.key.Pair? && DanglingFrom(tiles, source, r.error.key.p)
    ensures r.Ok? ==> source in r.value && r.value.Keys <= tiles.Keys
    ensures r.Ok? ==> forall v :: v in r.value ==> Reachable(tiles, source, v)
    ensures r.Ok? ==> (goal in r.value <==> Reachable(tiles, source, goal))
    ensures r.Ok? && goal !in r.value ==> forall t :: Reachable(tiles, source, t) ==> t in r.value
    ensures r.Ok? ==> LinksFollowExits(tiles, r.value)
    ensures r.Ok? ==> forall v :: v in r.value && r.value[v].predecessor.None? ==> v == source
    ensures r.Ok? && source == goal ==> r.value[source] == Edge(0, None)
    ensures r.Ok? ==> rounds == |r.value|
    ensures r.Ok? ==> forall v :: v in r.value ==> forall e :: e in tiles[v].exits ==> e in tiles
  {
    rounds := 0;
    var visited := map[source := Edge(0, None)];
    var queue := Dict([source], visited);
    ghost var done: set<Pos> := {};
    ghost var walks: map<Pos, seq<Pos>> := map[source := [source]];
    SearchStart(tiles, source, goal);
    while queue.keys != []
      invariant Searching(tiles, source, goal, visited, queue, done, walks)
      invariant rounds == |done|
      invariant ExitsStored(tiles, done)
      decreases tiles.Keys - visited.Keys, |queue.keys|
    {
      var u := Extract(queue);
      var exits := ExitTiles(tiles, tiles[u].exits);
      if exits.Err? {
        var e :| e in tiles[u].exits && e !in tiles && exits.error == KeyError(Pair(e));
        SearchDangling(tiles, source, goal, visited, queue, done, walks, u, e);
        return Err(exits.error), rounds;
      }
      ExitsResolved(tiles, u);
      ExitsStoredStep(tiles, done, u);
      ghost var visited0, queue0 := visited, queue;
      ghost var n;
      visited, queue, n := Expand(w, goal, u, tiles[u].exits, visited, queue);
      SearchStep(tiles, w, source, goal, visited0, queue0, done, walks, u, visited, queue);
      walks := ExtendWalks(walks, u, visited0, visited);
      queue := Pop(queue, u);
      done := done + {u};
      rounds := rounds + 1;
    }
    SearchDone(tiles, source, goal, visited, queue, done, walks);
    r := Ok(visited);
  }

  /** The walk back of `find`: from the goal, prepend the current tile and
      step to its predecessor until a tile without one is reached. */
  method Backtrack(visited: map<Pos, Edge>, goal: Pos) returns (r: Outcome)
    ensures goal !in visited ==> r == Raised(KeyError(Pair(goal)))
    ensures goal in visited && visited[goal].predecessor.None? ==> r == Path([])
    ensures r.Raised? ==>
              (goal !in visited && r.error == KeyError(Pair(goal))) ||
              (exists v :: v in visited && visited[v].predecessor.Some? &&
                           visited[v].predecessor.value !in visited &&
                           r.error == KeyError(Pair(visited[v].predecessor.value)))
    ensures r.Path? ==> Chain(visited, r.nodes) && Distinct(r.nodes)
    ensures r.Path? && r.nodes == [] ==> goal in visited && visited[goal].predecessor.None?
    ensures r.Path? && r.nodes != [] ==>
              r.nodes[|r.nodes| - 1] == goal &&
              var start := visited[r.nodes[0]].predecessor.value;
              start in visited && visited[start].predecessor.None?
    ensures r.Forever? ==>
              && r.nodes != [] && r.again in r.nodes
              && Chain(visited, r.nodes) && Distinct(r.nodes)
              && r.nodes[|r.nodes| - 1] == goal && visited[r.nodes[0]].predecessor == Some(r.again)
  {
    if goal !in visited {
      return Raised(KeyError(Pair(goal)));
    }
    var current := goal;
    var path: seq<Pos> := [];
    while visited[current].predecessor.Some?
      invariant current in visited && Chain(visited, path) && Distinct(path)
      invariant path == [] ==> current == goal
      invariant path != [] ==> path[|path| - 1] == goal && visited[path[0]].predecessor == Some(current)
      decreases visited.Keys - (set x | x in path)
    {
      if current in path {
        return Forever(path, current);
      }
      ghost var before := set x | x in path;
      path := [current] + path;
      assert (set x | x in path) == before + {current};
      var predecessor := visited[current].predecessor.value;
      if predecessor !in visited {
        return Raised(KeyError(Pair(predecessor)));
      }
      current := predecessor;
    }
    r := Path(path);
  }

  /** A chain of predecessor records that follow exits, preceded by the
      predecessor of its first tile, is a walk. */
  lemma ChainIsWalk(tiles: map<Pos, Road>, visited: map<Pos, Edge>, start: Pos, nodes: seq<Pos>)
    requires LinksFollowExits(tiles, visited) && visited.Keys <= tiles.Keys
    requires Chain(visited, nodes) && start in visited
    requires nodes != [] ==> visited[nodes[0]].predecessor == Some(start)
    ensures IsWalk(tiles, [start] + nodes)
  {
    var p := [start] + nodes;
    forall i | 0 <= i < |p| ensures p[i] in tiles {
      if i > 0 {
        assert p[i] == nodes[i - 1];
      }
    }
    forall i, j | 0 <= i && j == i + 1 && j < |p| ensures Link(tiles, p[i], p[j]) {
      assert p[j] == nodes[j - 1];
      if i > 0 {
        assert p[i] == nodes[i - 1];
      }
    }
  }

  /** A chain that starts at the source, which then has no predecessor, is a
      walk from the source that never passes the source again. */
  lemma PathFromSource(tiles: map<Pos, Road>, visited: map<Pos, Edge>, source: Pos, nodes: seq<Pos>)
    requires LinksFollowExits(tiles, visited) && visited.Keys <= tiles.Keys
    requires Chain(visited, nodes) && Distinct(nodes)
    requires source in visited && visited[source].predecessor.None?
    requires nodes != [] ==> visited[nodes[0]].predecessor == Some(source)
    ensures IsWalk(tiles, [source] + nodes) && Distinct([source] + nodes)
  {
    ChainIsWalk(tiles, visited, source, nodes);
    var p := [source] + nodes;
    forall i, j | 0 <= i < j < |p| ensures p[i] != p[j] {
      assert p[j] == nodes[j - 1];
      if i > 0 {
        assert p[i] == nodes[i - 1];
      }
    }
  }

  /** The tile a finished walk back starts from is the source. */
  lemma BacktrackStart(visited: map<Pos, Edge>, source: Pos, goal: Pos, nodes: seq<Pos>)
    requires forall v :: v in visited && visited[v].predecessor.None? ==> v == source
    requires nodes == [] ==> goal in visited && visited[goal].predecessor.None?
    requires nodes != [] ==> nodes[0] in visited && visited[nodes[0]].predecessor.Some? &&
                             var start := visited[nodes[0]].predecessor.value;
                             start in visited && visited[start].predecessor.None?
    ensures source in visited && visited[source].predecessor.None?
    ensures nodes == [] ==> goal == source
    ensures nodes != [] ==> visited[nodes[0]].predecessor == Some(source)
  {
  }

  /** What a walk back over the search's records that returns a path says:
      preceded by the source, it is a simple walk to the goal. */
  lemma FoundPath(tiles: map<Pos, Road>, visited: map<Pos, Edge>, source: Pos, goal: Pos, nodes: seq<Pos>)
    requires LinksFollowExits(tiles, visited) && visited.Keys <= tiles.Keys
    requires forall v :: v in visited && visited[v].predecessor.None? ==> v == source
    requires source == goal ==> source in visited && visited[source] == Edge(0, None)
    requires Chain(visited, nodes) && Distinct(nodes)
    requires nodes == [] ==> goal in visited && visited[goal].predecessor.None?
    requires nodes != [] ==>
               nodes[|nodes| - 1] == goal &&
               var start := visited[nodes[0]].predecessor.value;
               start in visited && visited[start].predecessor.None?
    ensures nodes == [] <==> goal == source
    ensures IsWalk(tiles, [source] + nodes) && Distinct([source] + nodes) && ([source] + nodes)[|nodes|] == goal
  {
    BacktrackStart(visited, source, goal, nodes);
    PathFromSource(tiles, visited, source, nodes);
    if nodes != [] {
      assert ([source] + nodes)[|nodes|] == nodes[|nodes| - 1];
    }
  }

  /** `Dijkstra.find` from the stored tile at `source` to `goal`, edge weights
      given by `w`. */
  method Find(tiles: map<Pos, Road>, w: (Pos, Pos) -> nat, source: Pos, goal: Pos) returns (r: Outcome)
    requires source in tiles && KeyedBy(tiles, RoadKey)
    ensures r.Raised? ==>
              (r.error.KeyError? && r.error.key.Pair? && DanglingFrom(tiles, source, r.error.key.p)) ||
              (r.error == KeyError(Pair(goal)) && !Reachable(tiles, source, goal))
    ensures !Reachable(tiles, source, goal) ==> r.Raised?
    ensures source == goal ==> r == Path([]) || r.Raised?
    ensures r.Path? ==> (r.nodes == [] <==> goal == source)
    ensures r.Path? ==>
              && IsWalk(tiles, [source] + r.nodes) && Distinct([source] + r.nodes)
              && ([source] + r.nodes)[|r.nodes|] == goal
    ensures r.Forever? ==>
              && r.again in r.nodes && Distinct(r.nodes) && IsWalk(tiles, [r.again] + r.nodes)
              && r.nodes[|r.nodes| - 1] == goal
  {
    var explored, _ := Explore(tiles, w, source, goal);
    if explored.Err? {
      return Raised(explored.error);
    }
    var visited := explored.value;
    r := Backtrack(visited, goal);
    if r.Path? {
      FoundPath(tiles, visited, source, goal, r.nodes);
    } else if r.Forever? {
      ChainIsWalk(tiles, visited, r.again, r.nodes);
    }
  }
}
