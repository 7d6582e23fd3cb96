/**
 * The tile of UselessEngine/GameTile.swift: a position, an elevation
 * profile, weak links to the four neighbouring tiles and the list of game
 * objects standing on it. Game objects are compared by identity; an int
 * handle stands for each.
 */
module LegacyTile {
  import opened LegacyGeometry
  import opened Sequences

  type Obj = int

  predicate NoDuplicates(s: seq<Obj>) {
    forall i, j :: 0 <= i < j < |s| ==> s[i] != s[j]
  }

  /** Appending an element not yet listed keeps a list free of duplicates. */
  lemma AppendFreshKeepsNoDuplicates(s: seq<Obj>, o: Obj)
    requires NoDuplicates(s) && o !in s
    ensures NoDuplicates(s + [o])
  {
  }

  /** Removing an element keeps a list free of duplicates. */
  lemma RemoveFirstKeepsNoDuplicates(s: seq<Obj>, o: Obj)
    requires NoDuplicates(s)
    ensures NoDuplicates(RemoveFirst(s, o))
  {
    if o in s {
      var k := FirstIndex(s, o);
      var t := RemoveFirst(s, o);
      assert forall i :: 0 <= i < |t| ==> t[i] == if i < k then s[i] else s[i + 1];
    }
  }

  class GameTile {
    var position: Position
    /** The `GameTileElevation` profile, an opaque handle. */
    const elevation: int
    var u: GameTile?
    var d: GameTile?
    var l: GameTile?
    var r: GameTile?
    var objects: seq<Obj>

    predicate Valid()
      reads this
    {
      NoDuplicates(objects)
    }

    /** `init(graphics:elevation:)`: at the origin, with no objects and no neighbours. */
    constructor (elevation: int)
      ensures Valid() && position == Origin && objects == [] && this.elevation == elevation
      ensures u == null && d == null && l == null && r == null
    {
      position := Origin;
      this.elevation := elevation;
      objects := [];
      u, d, l, r := null, null, null, null;
    }

    /** `add(gameObject:)`: appended at the end unless the same object is already on the tile. */
    method Add(o: Obj) returns (added: bool)
      requires Valid()
      modifies this`objects
      ensures Valid()
      ensures added <==> o !in old(objects)
      ensures objects == if added then old(objects) + [o] else old(objects)
    {
      if o !in objects {
        objects := objects + [o];
        return true;
      }
      return false;
    }

    /** `remove(gameObject:)`: only the first identical entry goes; an absent object changes nothing. */
    method Remove(o: Obj)
      requires Valid()
      modifies this`objects
      ensures Valid()
      ensures objects == RemoveFirst(old(objects), o)
      ensures o !in objects && multiset(objects) == multiset(old(objects)) - multiset{o}
    {
      RemoveFirstKeepsNoDuplicates(objects, o);
      RemoveFirstCount(objects, o);
      if o in objects {
        var i := FirstIndex(objects, o);
        objects := objects[..i] + objects[i + 1..];
      }
    }

    /**
     * The tiles whose objects `executeOnObjectsAndNeighbors(work:)` hands to
     * `work`: this one, then up, up-right, right, right-down, down,
     * down-left, left and left-up, each only where the link is set.
     */
    function Neighborhood(): (ts: seq<GameTile>)
      reads this, u, r, d, l
      ensures |ts| >= 1 && ts[0] == this
    {
      [this]
      + Arm(u, if u != null then u.r else null)
      + Arm(r, if r != null then r.d else null)
      + Arm(d, if d != null then d.l else null)
      + Arm(l, if l != null then l.u else null)
    }

    /** `executeOnObjectsAndNeighbors(work:)`: the objects handed to `work`, in order. */
    method ExecuteOnObjectsAndNeighbors() returns (visited: seq<Obj>)
      ensures visited == ObjectsOf(Neighborhood())
    {
      ghost var ts := [this];
      visited := objects;
      assert ObjectsOf(ts) == visited by {
        assert ts[..0] == [];
      }
      visited, ts := VisitArm(visited, ts, u, if u != null then u.r else null);
      visited, ts := VisitArm(visited, ts, r, if r != null then r.d else null);
      visited, ts := VisitArm(visited, ts, d, if d != null then d.l else null);
      visited, ts := VisitArm(visited, ts, l, if l != null then l.u else null);
    }
  }

  /** The link `t` followed by its corner link, each where set. */
  function Arm(t: GameTile?, corner: GameTile?): seq<GameTile> {
    if t == null then [] else [t] + (if corner != null then [corner] else [])
  }

  /** The `forEach` over a linked tile's objects, then over its corner's. */
  method VisitArm(visited: seq<Obj>, ghost ts: seq<GameTile>, t: GameTile?, corner: GameTile?)
    returns (visited': seq<Obj>, ghost ts': seq<GameTile>)
    requires visited == ObjectsOf(ts)
    ensures ts' == ts + Arm(t, corner) && visited' == ObjectsOf(ts')
  {
    visited', ts' := visited, ts;
    if t != null {
      visited', ts' := Visit(visited', ts', t);
      if corner != null {
        visited', ts' := Visit(visited', ts', corner);
      }
    }
  }

  /** One `forEach` over a tile's objects. */
  method Visit(visited: seq<Obj>, ghost ts: seq<GameTile>, t: GameTile) returns (visited': seq<Obj>, ghost ts': seq<GameTile>)
    requires visited == ObjectsOf(ts)
    ensures ts' == ts + [t] && visited' == ObjectsOf(ts') && visited' == visited + t.objects
  {
    ts' := ts + [t];
    assert ts'[..|ts|] == ts;
    visited' := visited + t.objects;
  }

  /** The objects of the first tile come first. */
  lemma {:induction false} ObjectsOfStartsWithFirst(ts: seq<GameTile>)
    requires |ts| >= 1
    ensures |ObjectsOf(ts)| >= |ts[0].objects| && ObjectsOf(ts)[..|ts[0].objects|] == ts[0].objects
  {
    if |ts| > 1 {
      assert ts[..|ts| - 1][0] == ts[0];
      ObjectsOfStartsWithFirst(ts[..|ts| - 1]);
    } else {
      assert ts[..0] == [];
    }
  }

  /** The objects of a run of tiles, tile after tile. */
  function ObjectsOf(ts: seq<GameTile>): (r: seq<Obj>)
    reads set t | t in ts
  {
    if ts == [] then [] else ObjectsOf(ts[..|ts| - 1]) + ts[|ts| - 1].objects
  }
}
