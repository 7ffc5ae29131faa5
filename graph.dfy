/** The road network a map's tiles form: a tile leads to each of its exits. */
module Graph {
  import opened Common
  import opened Records

  /** `b` is one of the exits of the tile at `a`. */
  ghost predicate Link(tiles: map<Pos, Road>, a: Pos, b: Pos) {
    a in tiles && b in tiles[a].exits
  }

  /** `p` is a walk over stored tiles, each step following an exit. */
  ghost predicate IsWalk(tiles: map<Pos, Road>, p: seq<Pos>) {
    && |p| > 0
    && (forall i :: 0 <= i < |p| ==> p[i] in tiles)
    && (forall i, j :: 0 <= i && j == i + 1 && j < |p| ==> Link(tiles, p[i], p[j]))
  }

  /** Some walk leads from `s` to `t`. */
  ghost predicate Reachable(tiles: map<Pos, Road>, s: Pos, t: Pos) {
    exists p :: IsWalk(tiles, p) && p[0] == s && p[|p| - 1] == t
  }

  /** A tile reachable from `s` has the exit `e`, and no tile is stored at `e`. */
  ghost predicate DanglingFrom(tiles: map<Pos, Road>, s: Pos, e: Pos) {
    exists u :: Reachable(tiles, s, u) && Link(tiles, u, e) && e !in tiles
  }

  /** Every exit of every tile in `s` leads back into `s`. */
  ghost predicate Closed(tiles: map<Pos, Road>, s: set<Pos>) {
    forall u :: u in s ==> u in tiles && forall e :: e in tiles[u].exits ==> e in s
  }

  /** A walk that ends at a stored tile, extended by one of its exits that is
      itself stored, is a walk. */
  lemma WalkExtend(tiles: map<Pos, Road>, p: seq<Pos>, v: Pos)
    requires IsWalk(tiles, p) && Link(tiles, p[|p| - 1], v) && v in tiles
    ensures IsWalk(tiles, p + [v])
  {
    var q := p + [v];
    forall i, j | 0 <= i && j == i + 1 && j < |q| ensures Link(tiles, q[i], q[j]) {
      if j < |p| {
        assert q[i] == p[i] && q[j] == p[j];
      }
    }
  }

  /** A walk that starts in a closed set of tiles never leaves it. */
  lemma {:induction false} ClosedSetContainsWalk(tiles: map<Pos, Road>, s: set<Pos>, p: seq<Pos>)
    requires IsWalk(tiles, p) && p[0] in s && Closed(tiles, s)
    ensures p[|p| - 1] in s
    decreases |p|
  {
    if |p| > 1 {
      var init := p[..|p| - 1];
      assert IsWalk(tiles, init) by {
        forall i, j | 0 <= i && j == i + 1 && j < |init| ensures Link(tiles, init[i], init[j]) {
          assert init[i] == p[i] && init[j] == p[j];
        }
      }
      ClosedSetContainsWalk(tiles, s, init);
      assert Link(tiles, p[|p| - 2], p[|p| - 1]);
    }
  }

  /** So nothing outside a closed set is reachable from inside it. */
  lemma ClosedSetBoundsReach(tiles: map<Pos, Road>, s: set<Pos>, src: Pos, t: Pos)
    requires src in s && Closed(tiles, s) && Reachable(tiles, src, t)
    ensures t in s
  {
    var p :| IsWalk(tiles, p) && p[0] == src && p[|p| - 1] == t;
    ClosedSetContainsWalk(tiles, s, p);
  }
}
