/**
 * The path-finding graph of UselessEngine/GameWorldGraphNode.swift and
 * UselessEngine/GameWorldGraph.swift. Nodes sit on a regular grid over the
 * world; the world is reduced to what `generate` asks of it (its size,
 * whether a tile lies under a point, the elevation there, and the
 * collision grid's point and segment queries), each passed in as a
 * function.
 */
module LegacyGraph {
  import opened Wrappers
  import opened Numeric
  import opened LegacyGeometry
  import opened Sets
  import opened Sequences

  /** `UnitPosition`. */
  type Key = (int, int)

  predicate NoDuplicates<T(==)>(s: seq<T>) {
    forall i, j :: 0 <= i < j < |s| ==> s[i] != s[j]
  }

  /** `GameWorldGraphNode`; `==` is reference identity, as it is for Dafny objects. */
  class GraphNode {
    const graphPosition: Key
    const worldPosition: Position
    var neighbors: seq<GraphNode>

    constructor (graphPosition: Key, worldPosition: Position)
      ensures this.graphPosition == graphPosition && this.worldPosition == worldPosition && neighbors == []
    {
      this.graphPosition := graphPosition;
      this.worldPosition := worldPosition;
      neighbors := [];
    }

    /**
     * `add(neighbor:)`: nothing when the neighbour is already listed;
     * otherwise each node is appended to the other's list, so a node added
     * to itself is appended twice.
     */
    method AddNeighbor(neighbor: GraphNode)
      modifies this, neighbor
      ensures neighbor in old(neighbors) ==> neighbors == old(neighbors) && neighbor.neighbors == old(neighbor.neighbors)
      ensures neighbor !in old(neighbors) && neighbor != this ==>
        neighbors == old(neighbors) + [neighbor] && neighbor.neighbors == old(neighbor.neighbors) + [this]
      ensures neighbor !in old(neighbors) && neighbor == this ==> neighbors == old(neighbors) + [this, this]
    {
      if neighbor in neighbors {
        return;
      }
      neighbors := neighbors + [neighbor];
      neighbor.neighbors := neighbor.neighbors + [this];
    }
  }

  /** Adjacency among `ns` is symmetric, irreflexive and free of repeats. */
  ghost predicate Adjacency(ns: set<GraphNode>)
    reads ns
  {
    forall a :: a in ns ==>
      && NoDuplicates(a.neighbors)
      && a !in a.neighbors
      && forall b :: b in a.neighbors ==> b in ns && a in b.neighbors
  }

  /** The four keys `generate` tries to join a node to: up, down, left, right. */
  function Around(k: Key): (r: seq<Key>)
    ensures |r| == 4 && forall i :: 0 <= i < 4 ==> r[i] != k
  {
    [(k.0, k.1 + 1), (k.0, k.1 - 1), (k.0 - 1, k.1), (k.0 + 1, k.1)]
  }

  /** Keys one step apart on exactly one axis. */
  predicate Adjacent(k1: Key, k2: Key) {
    (k1.0 == k2.0 && AbsInt(k1.1 - k2.1) == 1) || (k1.1 == k2.1 && AbsInt(k1.0 - k2.0) == 1)
  }

  lemma AroundIsAdjacent(k1: Key, k2: Key)
    ensures k2 in Around(k1) <==> Adjacent(k1, k2)
    ensures Adjacent(k1, k2) <==> Adjacent(k2, k1)
  {
  }

  /** Where `generate` probes for key `k`: on the spacing grid, at the terrain's elevation. */
  function Site(k: Key, dx: real, dy: real, elevation: (real, real) -> real): Position {
    var x := k.0 as real * dx;
    var y := k.1 as real * dy;
    Position(x, y, elevation(x, y))
  }

  /** The world as `generate` sees it. */
  datatype World = World(width: real, height: real,
                         hasTile: (real, real) -> bool,
                         elevation: (real, real) -> real,
                         occupied: Position -> bool,
                         obstructed: (Position, Position) -> bool)

  /** A node is made at `k` when it lies in the grid, over a tile and on no matching object. */
  predicate NodeSite(k: Key, w: World, dx: real, dy: real)
    requires dx > 0.0 && dy > 0.0
  {
    && 0 <= k.0 <= (w.width / dx).Floor
    && 0 <= k.1 <= (w.height / dy).Floor
    && Free(k, w, dx, dy)
  }

  /** The site of `k` is over a tile and on no matching object. */
  predicate Free(k: Key, w: World, dx: real, dy: real) {
    var p := Site(k, dx, dy, w.elevation);
    w.hasTile(p.x, p.y) && !w.occupied(p)
  }

  /**
   * Visiting `k1` joins it to an adjacent `k2` when nothing lies on the
   * segment from `k2`'s site to `k1`'s; visiting `k2` does the same the
   * other way round.
   */
  predicate Joined(k1: Key, k2: Key, w: World, dx: real, dy: real) {
    var p1 := Site(k1, dx, dy, w.elevation);
    var p2 := Site(k2, dx, dy, w.elevation);
    Adjacent(k1, k2) && (!w.obstructed(p2, p1) || !w.obstructed(p1, p2))
  }

  /** Joined as far as the keys outside `pending` have been visited. */
  predicate JoinedSoFar(k1: Key, k2: Key, pending: set<Key>, w: World, dx: real, dy: real) {
    var p1 := Site(k1, dx, dy, w.elevation);
    var p2 := Site(k2, dx, dy, w.elevation);
    Adjacent(k1, k2) && ((k1 !in pending && !w.obstructed(p2, p1)) || (k2 !in pending && !w.obstructed(p1, p2)))
  }

  /** The pair of edges visiting `k` adds towards `p`, if any. */
  function Link(k: Key, p: Key, keys: set<Key>, w: World, dx: real, dy: real): set<(Key, Key)> {
    if p in keys && !w.obstructed(Site(p, dx, dy, w.elevation), Site(k, dx, dy, w.elevation)) then {(k, p), (p, k)} else {}
  }

  /** A `PriorityQueue` entry of `path`: a node and its priority. */
  type Entry = (GraphNode, real)

  /** Where an entry of least priority sits. */
  function LeastAt(frontier: seq<Entry>): (k: nat)
    requires frontier != []
    ensures k < |frontier| && forall j :: 0 <= j < |frontier| ==> frontier[k].1 <= frontier[j].1
  {
    if |frontier| == 1 then 0
    else
      var k := LeastAt(frontier[1..]);
      assert forall j :: 1 <= j < |frontier| ==> frontier[j] == frontier[1..][j - 1];
      if frontier[0].1 <= frontier[k + 1].1 then 0 else k + 1
  }

  /**
   * `dequeue()` of the `UselessCommon` priority queue ordered by `$0.1 < $1.1`:
   * removes an entry of least priority; which of several equal ones is left open.
   */
  method Dequeue(frontier: seq<Entry>) returns (e: Entry, rest: seq<Entry>)
    requires frontier != []
    ensures e in frontier && forall x :: x in frontier ==> e.1 <= x.1
    ensures |rest| == |frontier| - 1 && forall x :: x in rest ==> x in frontier
    ensures multiset(rest) == multiset(frontier) - multiset{e}
  {
    // `LeastAt` shows that an entry of least priority exists; which of
    // several equal ones the queue hands out is left open
    ghost var least := LeastAt(frontier);
    var i :| 0 <= i < |frontier| && forall j :: 0 <= j < |frontier| ==> frontier[i].1 <= frontier[j].1;
    e := frontier[i];
    rest := frontier[..i] + frontier[i + 1..];
    assert frontier == frontier[..i] + [e] + frontier[i + 1..];
  }

  /** The world positions along a run of nodes. */
  function Positions(ws: seq<GraphNode>): (r: seq<Position>)
    ensures |r| == |ws| && forall i :: 0 <= i < |ws| ==> r[i] == ws[i].worldPosition
  {
    seq(|ws|, i requires 0 <= i < |ws| => ws[i].worldPosition)
  }

  /** `ws` is a walk that leaves `from` along an edge and follows edges from there on. */
  ghost predicate Walk(from: GraphNode, ws: seq<GraphNode>)
    reads from, set n | n in ws
  {
    && (ws != [] ==> ws[0] in from.neighbors)
    && forall i :: 0 <= i < |ws| - 1 ==> ws[i + 1] in ws[i].neighbors
  }

  /** The keys whose cost so far lies below `c`: shrinks as `path` follows `cameFrom` back. */
  function Below(costSoFar: map<Key, real>, c: real): set<Key> {
    set k | k in costSoFar && costSoFar[k] < c
  }

  // ----- relaxing an edge in `path` -----

  /** `(costSoFar[current.graphPosition] ?? 0) + cost(from: current, to: next)`. */
  function NewCost(current: GraphNode, next: GraphNode, costSoFar: map<Key, real>, cost: (Key, Key) -> real): real {
    var c := current.graphPosition;
    (if c in costSoFar then costSoFar[c] else 0.0) + cost(c, next.graphPosition)
  }

  /** `next` is reached for the first time, or more cheaply than before, through `current`. */
  predicate Cheaper(current: GraphNode, next: GraphNode, costSoFar: map<Key, real>, cost: (Key, Key) -> real) {
    next.graphPosition !in costSoFar || NewCost(current, next, costSoFar, cost) < costSoFar[next.graphPosition]
  }

  /**
   * One edge relaxed: when `next` is cheaper through `current`, it gets the
   * new cost, a queue entry with priority the new cost plus the heuristic,
   * and `current` as its origin; otherwise nothing changes.
   */
  function EdgeUpdate(current: GraphNode, next: GraphNode, cameFrom: map<Key, GraphNode>, costSoFar: map<Key, real>,
                      frontier: seq<Entry>, cost: (Key, Key) -> real, heuristic: (Key, Key) -> real)
    : (map<Key, GraphNode>, map<Key, real>, seq<Entry>)
  {
    var n, newCost := next.graphPosition, NewCost(current, next, costSoFar, cost);
    if Cheaper(current, next, costSoFar, cost) then
      (cameFrom[n := current], costSoFar[n := newCost], frontier + [(next, newCost + heuristic(current.graphPosition, n))])
    else (cameFrom, costSoFar, frontier)
  }

  /** Every costed key stays costed, at no higher cost. */
  ghost predicate Lowered(costSoFar: map<Key, real>, costSoFar': map<Key, real>) {
    forall k :: k in costSoFar ==> k in costSoFar' && costSoFar'[k] <= costSoFar[k]
  }

  /** In `costSoFar'`, `next` costs at most `current`'s cost in `before` plus the edge. */
  ghost predicate WithinEdge(costSoFar': map<Key, real>, current: GraphNode, next: GraphNode, before: map<Key, real>,
                             cost: (Key, Key) -> real) {
    next.graphPosition in costSoFar' && costSoFar'[next.graphPosition] <= NewCost(current, next, before, cost)
  }

  /** One neighbour of the `neighbors.forEach` of `path`. */
  method RelaxEdge(current: GraphNode, next: GraphNode, cameFrom: map<Key, GraphNode>, costSoFar: map<Key, real>,
                   frontier: seq<Entry>, cost: (Key, Key) -> real, heuristic: (Key, Key) -> real)
    returns (cameFrom': map<Key, GraphNode>, costSoFar': map<Key, real>, frontier': seq<Entry>)
    ensures (cameFrom', costSoFar', frontier') == EdgeUpdate(current, next, cameFrom, costSoFar, frontier, cost, heuristic)
  {
    var c, n := current.graphPosition, next.graphPosition;
    var newCost := (if c in costSoFar then costSoFar[c] else 0.0) + cost(c, n);
    cameFrom', costSoFar', frontier' := cameFrom, costSoFar, frontier;
    if n !in costSoFar || newCost < costSoFar[n] {
      costSoFar' := costSoFar[n := newCost];
      var priority := newCost + heuristic(c, n);
      frontier' := frontier + [(next, priority)];
      cameFrom' := cameFrom[n := current];
    }
  }

  /** The `neighbors.forEach` of `path`: `EdgeUpdate` for each neighbour, in order. */
  function RelaxAll(current: GraphNode, neighbors: seq<GraphNode>, cameFrom: map<Key, GraphNode>, costSoFar: map<Key, real>,
                    frontier: seq<Entry>, cost: (Key, Key) -> real, heuristic: (Key, Key) -> real)
    : (map<Key, GraphNode>, map<Key, real>, seq<Entry>)
    decreases |neighbors|
  {
    if neighbors == [] then (cameFrom, costSoFar, frontier)
    else
      var r := RelaxAll(current, neighbors[..|neighbors| - 1], cameFrom, costSoFar, frontier, cost, heuristic);
      EdgeUpdate(current, neighbors[|neighbors| - 1], r.0, r.1, r.2, cost, heuristic)
  }

  /** Relaxing the first `i + 1` neighbours is relaxing the first `i`, then neighbour `i`. */
  lemma RelaxAllStep(current: GraphNode, neighbors: seq<GraphNode>, i: int, cameFrom: map<Key, GraphNode>,
                     costSoFar: map<Key, real>, frontier: seq<Entry>, cost: (Key, Key) -> real, heuristic: (Key, Key) -> real)
    requires 0 <= i < |neighbors|
    ensures var r := RelaxAll(current, neighbors[..i], cameFrom, costSoFar, frontier, cost, heuristic);
      RelaxAll(current, neighbors[..i + 1], cameFrom, costSoFar, frontier, cost, heuristic)
        == EdgeUpdate(current, neighbors[i], r.0, r.1, r.2, cost, heuristic)
  {
    assert neighbors[..i + 1][..i] == neighbors[..i];
  }

  /** Relaxing the neighbours leaves the cost and the origin of every other key as they were. */
  lemma {:induction false} RelaxAllElsewhere(current: GraphNode, neighbors: seq<GraphNode>, cameFrom: map<Key, GraphNode>,
                                             costSoFar: map<Key, real>, frontier: seq<Entry>, cost: (Key, Key) -> real,
                                             heuristic: (Key, Key) -> real, k: Key)
    requires forall j :: 0 <= j < |neighbors| ==> neighbors[j].graphPosition != k
    ensures var r := RelaxAll(current, neighbors, cameFrom, costSoFar, frontier, cost, heuristic);
      && (k in r.0 <==> k in cameFrom) && (k in cameFrom ==> r.0[k] == cameFrom[k])
      && (k in r.1 <==> k in costSoFar) && (k in costSoFar ==> r.1[k] == costSoFar[k])
    decreases |neighbors|
  {
    if neighbors != [] {
      RelaxAllElsewhere(current, neighbors[..|neighbors| - 1], cameFrom, costSoFar, frontier, cost, heuristic, k);
    }
  }

  /**
   * Relaxing an edge raises no cost, leaves `next` costing at most
   * `current`'s cost plus the edge, and only appends to the queue.
   */
  lemma EdgeUpdateLowers(current: GraphNode, next: GraphNode, cameFrom: map<Key, GraphNode>, costSoFar: map<Key, real>,
                         frontier: seq<Entry>, cost: (Key, Key) -> real, heuristic: (Key, Key) -> real)
    ensures var r := EdgeUpdate(current, next, cameFrom, costSoFar, frontier, cost, heuristic);
      && Lowered(costSoFar, r.1) && WithinEdge(r.1, current, next, costSoFar, cost)
      && |frontier| <= |r.2| && r.2[..|frontier|] == frontier
  {
  }

  /**
   * In `Relax`'s loop: after one more neighbour, no cost has risen since
   * the start, and each neighbour so far is within its edge of `current`.
   */
  lemma WithinEdgeStep(current: GraphNode, neighbors: seq<GraphNode>, i: int, costSoFar: map<Key, real>,
                  before: map<Key, real>, after: map<Key, real>, cost: (Key, Key) -> real)
    requires 0 <= i < |neighbors| && current.graphPosition in costSoFar
    requires Lowered(costSoFar, before) && Lowered(before, after)
    requires forall j :: 0 <= j < i ==> WithinEdge(before, current, neighbors[j], costSoFar, cost)
    requires WithinEdge(after, current, neighbors[i], before, cost)
    ensures Lowered(costSoFar, after)
    ensures forall j :: 0 <= j <= i ==> WithinEdge(after, current, neighbors[j], costSoFar, cost)
  {
  }

  /**
   * The bounds `Relax`'s loop keeps once the first `i` neighbours of
   * `current` are relaxed: no cost has risen, the queue has only grown at
   * its end, and each of those neighbours costs at most `current`'s cost
   * plus the edge.
   */
  ghost predicate Bounded(current: GraphNode, i: int, costSoFar: map<Key, real>, frontier: seq<Entry>,
                          costSoFar': map<Key, real>, frontier': seq<Entry>, cost: (Key, Key) -> real)
    reads current
  {
    && 0 <= i <= |current.neighbors|
    && Lowered(costSoFar, costSoFar') && |frontier| <= |frontier'| && frontier'[..|frontier|] == frontier
    && forall j :: 0 <= j < i ==> WithinEdge(costSoFar', current, current.neighbors[j], costSoFar, cost)
  }

  /** Relaxing the next neighbour keeps the bounds. */
  lemma BoundedStep(current: GraphNode, i: int, cameFrom': map<Key, GraphNode>, costSoFar: map<Key, real>, frontier: seq<Entry>,
                    costSoFar': map<Key, real>, frontier': seq<Entry>, cost: (Key, Key) -> real, heuristic: (Key, Key) -> real)
    requires current.graphPosition in costSoFar && i < |current.neighbors|
    requires Bounded(current, i, costSoFar, frontier, costSoFar', frontier', cost)
    ensures var r := EdgeUpdate(current, current.neighbors[i], cameFrom', costSoFar', frontier', cost, heuristic);
      Bounded(current, i + 1, costSoFar, frontier, r.1, r.2, cost)
  {
    var r := EdgeUpdate(current, current.neighbors[i], cameFrom', costSoFar', frontier', cost, heuristic);
    EdgeUpdateLowers(current, current.neighbors[i], cameFrom', costSoFar', frontier', cost, heuristic);
    WithinEdgeStep(current, current.neighbors, i, costSoFar, costSoFar', r.1, cost);
    assert r.2[..|frontier|] == frontier'[..|frontier|];
  }

  /** `GameWorldGraph`. */
  class Graph {
    var nodes: map<Key, GraphNode>
    var nodeSpacing: Option<(real, real)>

    ghost predicate Valid()
      reads this, nodes.Values
    {
      && (forall k :: k in nodes ==> nodes[k].graphPosition == k)
      && Adjacency(nodes.Values)
      && (nodeSpacing.Some? ==> nodeSpacing.value.0 > 0.0 && nodeSpacing.value.1 > 0.0)
    }

    /**
     * The adjacency lists of the nodes in `nodes` hold exactly the pairs of
     * `e`, which is symmetric and irreflexive, and only nodes of `nodes`.
     */
    ghost predicate Wired(e: set<(Key, Key)>)
      reads this, nodes.Values
    {
      && (forall k :: k in nodes ==> nodes[k].graphPosition == k)
      && (forall k1, k2 :: k1 in nodes && k2 in nodes ==> (nodes[k2] in nodes[k1].neighbors <==> (k1, k2) in e))
      && (forall k, n :: k in nodes && n in nodes[k].neighbors ==> n in nodes.Values)
      && (forall k :: k in nodes ==> NoDuplicates(nodes[k].neighbors))
      && (forall p :: p in e ==> p.0 != p.1 && (p.1, p.0) in e)
    }

    constructor ()
      ensures Valid() && nodes == map[] && nodeSpacing == None
    {
      nodes := map[];
      nodeSpacing := None;
    }

    /** `node(at:)`. */
    function NodeAt(k: Key): (r: Option<GraphNode>)
      reads this
      ensures r.Some? <==> k in nodes
      ensures r.Some? ==> r.value == nodes[k]
    {
      if k in nodes then Some(nodes[k]) else None
    }

    /** Wired nodes are symmetric, irreflexive and repeat-free neighbours. */
    lemma WiredIsAdjacency(e: set<(Key, Key)>)
      requires Wired(e)
      ensures Adjacency(nodes.Values)
    {
      forall a | a in nodes.Values
        ensures a !in a.neighbors && forall b :: b in a.neighbors ==> b in nodes.Values && a in b.neighbors
      {
        var k :| k in nodes && nodes[k] == a;
        forall b | b in a.neighbors
          ensures b in nodes.Values && a in b.neighbors
        {
          assert b in nodes.Values;
          var k2 :| k2 in nodes && nodes[k2] == b;
          assert (k, k2) in e;
        }
        assert (k, k) !in e;
      }
    }

    /**
     * `checkAndAddEdge`: joins the node at `k` to the node at `pos`, if there
     * is one and nothing lies on the segment from its site to `k`'s.
     */
    method CheckAndAddEdge(k: Key, pos: Key, w: World, dx: real, dy: real, ghost e: set<(Key, Key)>)
      returns (ghost e': set<(Key, Key)>)
      requires k in nodes && pos != k && Wired(e)
      requires forall j :: j in nodes ==> nodes[j].worldPosition == Site(j, dx, dy, w.elevation)
      modifies nodes.Values
      ensures Wired(e')
      ensures e' == e + Link(k, pos, nodes.Keys, w, dx, dy)
    {
      e' := e;
      if pos in nodes {
        var candidate := nodes[pos];
        var node := nodes[k];
        if !w.obstructed(candidate.worldPosition, node.worldPosition) {
          e' := e + {(k, pos), (pos, k)};
          Join(k, pos, e);
        }
      }
    }

    /** Adding `nodes[pos]` as a neighbour of `nodes[k]` wires the pair. */
    method Join(k: Key, pos: Key, ghost e: set<(Key, Key)>)
      requires k in nodes && pos in nodes && pos != k && Wired(e)
      modifies nodes.Values
      ensures Wired(e + {(k, pos), (pos, k)})
    {
      var a, b := nodes[k], nodes[pos];
      ghost var old_a, old_b := a.neighbors, b.neighbors;
      if b in a.neighbors {
        assert (k, pos) in e && (pos, k) in e;
        assert e + {(k, pos), (pos, k)} == e;
        return;
      }
      assert (k, pos) !in e && (pos, k) !in e;
      a.AddNeighbor(b);
      assert a.neighbors == old_a + [b] && b.neighbors == old_b + [a];
      ghost var e' := e + {(k, pos), (pos, k)};
      forall k1, k2 | k1 in nodes && k2 in nodes
        ensures nodes[k2] in nodes[k1].neighbors <==> (k1, k2) in e'
      {
        if k1 == k {
          assert nodes[k2] == b <==> k2 == pos;
        } else if k1 == pos {
          assert nodes[k2] == a <==> k2 == k;
        }
      }
      forall j | j in nodes
        ensures NoDuplicates(nodes[j].neighbors)
      {
      }
    }

    /**
     * `generate(for:nodeSpacing:isIncluded:)`: refused (`false`, nothing
     * changed) unless the world is wider and taller than two spacings;
     * otherwise every old node is dropped, a node is made on every free
     * tiled site of the grid, and each node is joined to its four grid
     * neighbours where the segment between them is clear. Non-positive
     * spacings make the grid loops trap and are excluded.
     */
    method Generate(w: World, dx: real, dy: real) returns (compatible: bool)
      requires Valid() && dx > 0.0 && dy > 0.0
      modifies this
      ensures compatible <==> w.width - dx > dx && w.height - dy > dy
      ensures !compatible ==> nodes == old(nodes) && nodeSpacing == old(nodeSpacing)
      ensures compatible ==>
        && Valid()
        && nodeSpacing == Some((dx, dy))
        && (forall k :: k in nodes <==> NodeSite(k, w, dx, dy))
        && (forall k :: k in nodes ==> fresh(nodes[k]) && nodes[k].worldPosition == Site(k, dx, dy, w.elevation))
        && (forall k1, k2 :: k1 in nodes && k2 in nodes ==> (nodes[k2] in nodes[k1].neighbors <==> Joined(k1, k2, w, dx, dy)))
    {
      if !(w.width - dx > dx && w.height - dy > dy) {
        return false;
      }
      nodeSpacing := Some((dx, dy));
      var upperX := (w.width / dx).Floor;
      var upperY := (w.height / dy).Floor;
      PlaceNodes(w, dx, dy, upperX, upperY);
      JoinAll(w, dx, dy);
      return true;
    }

    /**
     * The `nodes.keys.forEach` of `generate`, over freshly placed nodes with
     * no neighbours: afterwards each pair of nodes is joined exactly when
     * `Joined` says so.
     */
    method JoinAll(w: World, dx: real, dy: real)
      requires forall k :: k in nodes ==> nodes[k].graphPosition == k && nodes[k].neighbors == []
      requires forall k :: k in nodes ==> nodes[k].worldPosition == Site(k, dx, dy, w.elevation)
      modifies nodes.Values
      ensures Adjacency(nodes.Values)
      ensures forall k1, k2 :: k1 in nodes && k2 in nodes ==> (nodes[k2] in nodes[k1].neighbors <==> Joined(k1, k2, w, dx, dy))
    {
      var pending := nodes.Keys;
      ghost var e: set<(Key, Key)> := {};
      while pending != {}
        invariant pending <= nodes.Keys
        invariant Wired(e)
        invariant forall k1, k2 :: (k1, k2) in e <==> k1 in nodes && k2 in nodes && JoinedSoFar(k1, k2, pending, w, dx, dy)
        decreases |pending|
      {
        var k := Pick(pending);
        e := VisitNode(k, pending, w, dx, dy, e);
        pending := pending - {k};
      }
      WiredIsAdjacency(e);
      forall k1, k2 | k1 in nodes && k2 in nodes
        ensures nodes[k2] in nodes[k1].neighbors <==> Joined(k1, k2, w, dx, dy)
      {
        assert nodes[k2] in nodes[k1].neighbors <==> (k1, k2) in e;
        assert (k1, k2) in e <==> JoinedSoFar(k1, k2, {}, w, dx, dy);
      }
    }

    /** One step of `nodes.keys.forEach`: the four `checkAndAddEdge` calls for the node at `k`. */
    method VisitNode(k: Key, pending: set<Key>, w: World, dx: real, dy: real, ghost e: set<(Key, Key)>)
      returns (ghost e': set<(Key, Key)>)
      requires k in pending && pending <= nodes.Keys && Wired(e)
      requires forall j :: j in nodes ==> nodes[j].worldPosition == Site(j, dx, dy, w.elevation)
      requires forall k1, k2 :: (k1, k2) in e <==> k1 in nodes && k2 in nodes && JoinedSoFar(k1, k2, pending, w, dx, dy)
      modifies nodes.Values
      ensures Wired(e')
      ensures forall k1, k2 :: (k1, k2) in e' <==> k1 in nodes && k2 in nodes && JoinedSoFar(k1, k2, pending - {k}, w, dx, dy)
    {
      var around := Around(k);
      e' := CheckAndAddEdge(k, around[0], w, dx, dy, e);
      e' := CheckAndAddEdge(k, around[1], w, dx, dy, e');
      e' := CheckAndAddEdge(k, around[2], w, dx, dy, e');
      e' := CheckAndAddEdge(k, around[3], w, dx, dy, e');
      VisitJoins(k, pending, e, e', w, dx, dy);
    }

    /** The edge set after visiting `k` is the one `JoinedSoFar` gives with `k` no longer pending. */
    lemma VisitJoins(k: Key, pending: set<Key>, e0: set<(Key, Key)>, e: set<(Key, Key)>, w: World, dx: real, dy: real)
      requires k in pending && k in nodes
      requires forall k1, k2 :: (k1, k2) in e0 <==> k1 in nodes && k2 in nodes && JoinedSoFar(k1, k2, pending, w, dx, dy)
      requires var a := Around(k); var ks := nodes.Keys;
        e == e0 + Link(k, a[0], ks, w, dx, dy) + Link(k, a[1], ks, w, dx, dy) + Link(k, a[2], ks, w, dx, dy) + Link(k, a[3], ks, w, dx, dy)
      ensures forall k1, k2 :: (k1, k2) in e <==> k1 in nodes && k2 in nodes && JoinedSoFar(k1, k2, pending - {k}, w, dx, dy)
    {
      var a := Around(k);
      forall k1, k2
        ensures (k1, k2) in e <==> k1 in nodes && k2 in nodes && JoinedSoFar(k1, k2, pending - {k}, w, dx, dy)
      {
        AroundIsAdjacent(k, k1);
        AroundIsAdjacent(k, k2);
        if k1 == k {
          assert (k1, k2) in e <==> ((k1, k2) in e0 || (k2 in a && k2 in nodes
            && !w.obstructed(Site(k2, dx, dy, w.elevation), Site(k, dx, dy, w.elevation))));
        } else if k2 == k {
          assert (k1, k2) in e <==> ((k1, k2) in e0 || (k1 in a && k1 in nodes
            && !w.obstructed(Site(k1, dx, dy, w.elevation), Site(k, dx, dy, w.elevation))));
        } else {
          assert (k1, k2) in e <==> (k1, k2) in e0;
        }
      }
    }

    /**
     * The grid loops of `generate`: rows `0` to `upperY`, columns `0` to
     * `upperX`, a fresh node wherever `NodeSite` holds.
     */
    method PlaceNodes(w: World, dx: real, dy: real, upperX: int, upperY: int)
      requires dx > 0.0 && dy > 0.0 && upperX == (w.width / dx).Floor && upperY == (w.height / dy).Floor
      modifies this`nodes
      ensures forall k :: k in nodes <==> NodeSite(k, w, dx, dy)
      ensures forall k :: k in nodes ==>
        && fresh(nodes[k]) && nodes[k].graphPosition == k && nodes[k].neighbors == []
        && nodes[k].worldPosition == Site(k, dx, dy, w.elevation)
    {
      nodes := map[];
      var j := 0;
      while j <= upperY
        invariant j <= upperY + 1 || upperY < 0
        invariant forall k :: k in nodes <==> k.1 < j && NodeSite(k, w, dx, dy)
        invariant forall k :: k in nodes ==>
          && fresh(nodes[k]) && nodes[k].graphPosition == k && nodes[k].neighbors == []
          && nodes[k].worldPosition == Site(k, dx, dy, w.elevation)
      {
        PlaceRow(w, dx, dy, upperX, upperY, j);
        j := j + 1;
      }
    }

    /** The inner loop of the grid: row `j`, columns `0` to `upperX`. */
    method PlaceRow(w: World, dx: real, dy: real, upperX: int, upperY: int, j: int)
      requires dx > 0.0 && dy > 0.0 && upperX == (w.width / dx).Floor && upperY == (w.height / dy).Floor
      requires 0 <= j <= upperY
      requires forall k :: k in nodes <==> k.1 < j && NodeSite(k, w, dx, dy)
      modifies this`nodes
      ensures forall k :: k in nodes <==> k.1 <= j && NodeSite(k, w, dx, dy)
      ensures forall k :: k in nodes ==>
        && (k.1 < j ==> nodes[k] == old(nodes[k]))
        && (k.1 == j ==> (fresh(nodes[k]) && nodes[k].graphPosition == k && nodes[k].neighbors == []
            && nodes[k].worldPosition == Site(k, dx, dy, w.elevation)))
    {
      var i := 0;
      while i <= upperX
        invariant 0 <= i && (i <= upperX + 1 || upperX < 0)
        invariant forall k :: k in nodes <==> (k.1 < j || (k.1 == j && k.0 < i)) && NodeSite(k, w, dx, dy)
        invariant forall k :: k in nodes && k.1 < j ==> nodes[k] == old(nodes[k])
        invariant forall k :: k in nodes && k.1 == j ==>
          fresh(nodes[k]) && nodes[k].graphPosition == k && nodes[k].neighbors == [] && nodes[k].worldPosition == Site(k, dx, dy, w.elevation)
      {
        PlaceAt(w, dx, dy, (i, j));
        i := i + 1;
      }
      assert forall k: Key :: k.1 == j && NodeSite(k, w, dx, dy) ==> k.0 < i;
    }

    /** One step of the grid loops: a fresh node at `k` if its site is free. */
    method PlaceAt(w: World, dx: real, dy: real, k: Key)
      modifies this`nodes
      ensures Free(k, w, dx, dy) ==> nodes.Keys == old(nodes.Keys) + {k}
      ensures !Free(k, w, dx, dy) ==> nodes == old(nodes)
      ensures forall k' :: k' in old(nodes) && k' != k ==> k' in nodes && nodes[k'] == old(nodes[k'])
      ensures Free(k, w, dx, dy) ==>
        && fresh(nodes[k]) && nodes[k].graphPosition == k && nodes[k].neighbors == []
        && nodes[k].worldPosition == Site(k, dx, dy, w.elevation)
    {
      var check := Site(k, dx, dy, w.elevation);
      if w.hasTile(check.x, check.y) && !w.occupied(check) {
        var node := new GraphNode(k, check);
        nodes := nodes[k := node];
      }
    }

    /** The grid key `path` rounds a world position to. */
    function GraphKey(x: real, y: real, dx: real, dy: real): Key
      requires dx > 0.0 && dy > 0.0
    {
      (Round(x / dx), Round(y / dy))
    }

    /**
     * The search tree `path` keeps: `cameFrom` and `costSoFar` share their
     * keys; the start is its own origin at cost 0; every other entry came
     * from a node it is a neighbour of, at a strictly lower cost.
     */
    ghost predicate Tree(s: Key, cameFrom: map<Key, GraphNode>, costSoFar: map<Key, real>)
      reads this, nodes.Values
    {
      && s in cameFrom && cameFrom.Keys == costSoFar.Keys && costSoFar[s] == 0.0
      && (forall x :: x in costSoFar ==> costSoFar[x] >= 0.0)
      && (forall x :: x in cameFrom ==> cameFrom[x] in nodes.Values)
      && (forall x :: x in cameFrom && x != s ==>
            && x in nodes && nodes[x] in cameFrom[x].neighbors
            && cameFrom[x].graphPosition in costSoFar
            && costSoFar[cameFrom[x].graphPosition] < costSoFar[x])
    }

    /** Every queued node is a node of the graph with a cost so far. */
    ghost predicate Queued(frontier: seq<Entry>, costSoFar: map<Key, real>)
      reads this, nodes.Values
    {
      forall e :: e in frontier ==> e.0 in nodes.Values && e.0.graphPosition in costSoFar
    }

    /**
     * `path(from:to:)`: no path without a generated graph or when either end
     * rounds to a key with no node, and none from a node to itself;
     * otherwise the world positions of a walk that ends at the goal node,
     * leaving the start node along an edge, or the goal alone when the
     * search never reached it. The start position is not included. The
     * delegate's `cost` and `heuristic` are passed in, `cost` positive;
     * `maxSteps` bounds the number of dequeues.
     */
    method Path(start: Position, goal: Position, cost: (Key, Key) -> real, heuristic: (Key, Key) -> real, maxSteps: nat)
      returns (r: seq<Position>, ghost walk: seq<GraphNode>)
      requires Valid()
      requires forall a, b :: cost(a, b) > 0.0
      ensures nodeSpacing.None? ==> r == []
      ensures nodeSpacing.Some? ==>
        var s := GraphKey(start.x, start.y, nodeSpacing.value.0, nodeSpacing.value.1);
        var g := GraphKey(goal.x, goal.y, nodeSpacing.value.0, nodeSpacing.value.1);
        && (s !in nodes || g !in nodes || s == g ==> r == [])
        && (s in nodes && g in nodes && s != g ==>
              && r == Positions(walk) && walk != [] && walk[|walk| - 1] == nodes[g]
              && (forall n :: n in walk ==> n in nodes.Values)
              && (walk == [nodes[g]] || Walk(nodes[s], walk)))
    {
      walk := [];
      if nodeSpacing.None? {
        return [], [];
      }
      var (dx, dy) := nodeSpacing.value;
      var s := GraphKey(start.x, start.y, dx, dy);
      var g := GraphKey(goal.x, goal.y, dx, dy);
      if s !in nodes || g !in nodes {
        return [], [];
      }
      var startNode, goalNode := nodes[s], nodes[g];
      var cameFrom, costSoFar := Search(startNode, goalNode, cost, heuristic, maxSteps);
      r, walk := Reconstruct(startNode, goalNode, cameFrom, costSoFar);
    }

    /**
     * The search loop of `path`: dequeue a least-priority node, stop at the
     * goal, otherwise relax the edges to its neighbours.
     */
    method Search(startNode: GraphNode, goalNode: GraphNode, cost: (Key, Key) -> real, heuristic: (Key, Key) -> real, maxSteps: nat)
      returns (cameFrom: map<Key, GraphNode>, costSoFar: map<Key, real>)
      requires Valid() && startNode in nodes.Values
      requires forall a, b :: cost(a, b) > 0.0
      ensures Tree(startNode.graphPosition, cameFrom, costSoFar) && cameFrom[startNode.graphPosition] == startNode
    {
      var s := startNode.graphPosition;
      var frontier: seq<Entry> := [(startNode, 0.0)];
      cameFrom := map[s := startNode];
      costSoFar := map[s := 0.0];
      var steps := 0;
      while frontier != [] && steps < maxSteps
        invariant Tree(s, cameFrom, costSoFar) && cameFrom[s] == startNode
        invariant Queued(frontier, costSoFar)
        decreases maxSteps - steps
      {
        var dequeued;
        dequeued, frontier := Dequeue(frontier);
        steps := steps + 1;
        var current := dequeued.0;
        if current == goalNode {
          break;
        }
        cameFrom, costSoFar, frontier := Relax(s, current, cameFrom, costSoFar, frontier, cost, heuristic);
      }
    }

    /**
     * The `neighbors.forEach` of `path`: each neighbour reached more cheaply
     * through `current` than before, or for the first time, gets the new
     * cost, `current` as its origin and a queue entry. Afterwards no cost
     * has risen and every neighbour costs at most `current`'s cost plus the
     * edge.
     */
    method Relax(s: Key, current: GraphNode, cameFrom: map<Key, GraphNode>, costSoFar: map<Key, real>, frontier: seq<Entry>,
                 cost: (Key, Key) -> real, heuristic: (Key, Key) -> real)
      returns (cameFrom': map<Key, GraphNode>, costSoFar': map<Key, real>, frontier': seq<Entry>)
      requires Valid() && current in nodes.Values
      requires Tree(s, cameFrom, costSoFar) && Queued(frontier, costSoFar) && current.graphPosition in costSoFar
      requires forall a, b :: cost(a, b) > 0.0
      ensures Tree(s, cameFrom', costSoFar') && Queued(frontier', costSoFar')
      ensures cameFrom'[s] == cameFrom[s]
      ensures Lowered(costSoFar, costSoFar') && |frontier| <= |frontier'| && frontier'[..|frontier|] == frontier
      ensures forall j :: 0 <= j < |current.neighbors| ==> WithinEdge(costSoFar', current, current.neighbors[j], costSoFar, cost)
      ensures (cameFrom', costSoFar', frontier') == RelaxAll(current, current.neighbors, cameFrom, costSoFar, frontier, cost, heuristic)
    {
      cameFrom', costSoFar', frontier' := cameFrom, costSoFar, frontier;
      var neighbors := current.neighbors;
      var i := 0;
      while i < |neighbors|
        invariant Relaxing(s, current, i, cameFrom, costSoFar, frontier, cameFrom', costSoFar', frontier', cost, heuristic)
      {
        RelaxingStep(s, current, i, cameFrom, costSoFar, frontier, cameFrom', costSoFar', frontier', cost, heuristic);
        cameFrom', costSoFar', frontier' := RelaxEdge(current, neighbors[i], cameFrom', costSoFar', frontier', cost, heuristic);
        i := i + 1;
      }
      assert i == |current.neighbors|;
      RelaxingEnds(s, current, cameFrom, costSoFar, frontier, cameFrom', costSoFar', frontier', cost, heuristic);
    }

    /**
     * The invariant of `Relax`'s loop once the first `i` neighbours of
     * `current` are relaxed, starting from `cameFrom`, `costSoFar` and
     * `frontier`: the maps are those `RelaxAll` gives for those neighbours.
     */
    ghost predicate Relaxing(s: Key, current: GraphNode, i: int, cameFrom: map<Key, GraphNode>, costSoFar: map<Key, real>,
                             frontier: seq<Entry>, cameFrom': map<Key, GraphNode>, costSoFar': map<Key, real>,
                             frontier': seq<Entry>, cost: (Key, Key) -> real, heuristic: (Key, Key) -> real)
      reads this, nodes.Values, current
    {
      && 0 <= i <= |current.neighbors|
      && (cameFrom', costSoFar', frontier') == RelaxAll(current, current.neighbors[..i], cameFrom, costSoFar, frontier, cost, heuristic)
      && Tree(s, cameFrom', costSoFar') && Queued(frontier', costSoFar')
      && s in cameFrom && cameFrom'[s] == cameFrom[s] && current.graphPosition in costSoFar'
      && Bounded(current, i, costSoFar, frontier, costSoFar', frontier', cost)
    }

    /** With every neighbour relaxed, `Relax`'s loop invariant gives its postcondition. */
    lemma RelaxingEnds(s: Key, current: GraphNode, cameFrom: map<Key, GraphNode>, costSoFar: map<Key, real>,
                       frontier: seq<Entry>, cameFrom': map<Key, GraphNode>, costSoFar': map<Key, real>,
                       frontier': seq<Entry>, cost: (Key, Key) -> real, heuristic: (Key, Key) -> real)
      requires Relaxing(s, current, |current.neighbors|, cameFrom, costSoFar, frontier, cameFrom', costSoFar', frontier', cost, heuristic)
      ensures Tree(s, cameFrom', costSoFar') && Queued(frontier', costSoFar')
      ensures cameFrom'[s] == cameFrom[s]
      ensures Lowered(costSoFar, costSoFar') && |frontier| <= |frontier'| && frontier'[..|frontier|] == frontier
      ensures forall j :: 0 <= j < |current.neighbors| ==> WithinEdge(costSoFar', current, current.neighbors[j], costSoFar, cost)
      ensures (cameFrom', costSoFar', frontier') == RelaxAll(current, current.neighbors, cameFrom, costSoFar, frontier, cost, heuristic)
    {
      assert current.neighbors[..|current.neighbors|] == current.neighbors;
    }

    /** One more neighbour relaxed keeps `Relax`'s loop invariant. */
    lemma RelaxingStep(s: Key, current: GraphNode, i: int, cameFrom: map<Key, GraphNode>, costSoFar: map<Key, real>,
                       frontier: seq<Entry>, cameFrom': map<Key, GraphNode>, costSoFar': map<Key, real>,
                       frontier': seq<Entry>, cost: (Key, Key) -> real, heuristic: (Key, Key) -> real)
      requires Valid() && current in nodes.Values && current.graphPosition in costSoFar
      requires forall a, b :: cost(a, b) > 0.0
      requires Relaxing(s, current, i, cameFrom, costSoFar, frontier, cameFrom', costSoFar', frontier', cost, heuristic)
      requires i < |current.neighbors|
      ensures var r := EdgeUpdate(current, current.neighbors[i], cameFrom', costSoFar', frontier', cost, heuristic);
        Relaxing(s, current, i + 1, cameFrom, costSoFar, frontier, r.0, r.1, r.2, cost, heuristic)
    {
      RelaxAllStep(current, current.neighbors, i, cameFrom, costSoFar, frontier, cost, heuristic);
      EdgeUpdateKeepsTree(s, current, current.neighbors[i], cameFrom', costSoFar', frontier', cost, heuristic);
      BoundedStep(current, i, cameFrom', costSoFar, frontier, costSoFar', frontier', cost, heuristic);
    }

    /**
     * Relaxing an edge out of a costed node keeps the tree, keeps every
     * queued node costed, keeps the start's origin, and leaves `current`
     * costed.
     */
    lemma EdgeUpdateKeepsTree(s: Key, current: GraphNode, next: GraphNode, cameFrom: map<Key, GraphNode>, costSoFar: map<Key, real>,
                              frontier: seq<Entry>, cost: (Key, Key) -> real, heuristic: (Key, Key) -> real)
      requires Valid() && current in nodes.Values && next in current.neighbors
      requires Tree(s, cameFrom, costSoFar) && Queued(frontier, costSoFar) && current.graphPosition in costSoFar
      requires forall a, b :: cost(a, b) > 0.0
      ensures var r := EdgeUpdate(current, next, cameFrom, costSoFar, frontier, cost, heuristic);
        && Tree(s, r.0, r.1) && Queued(r.2, r.1)
        && r.0[s] == cameFrom[s] && current.graphPosition in r.1
    {
      if Cheaper(current, next, costSoFar, cost) {
        var newCost := NewCost(current, next, costSoFar, cost);
        assert next in nodes.Values && nodes[next.graphPosition] == next;
        TreeGrows(s, current, next, cameFrom, costSoFar, newCost);
        QueuedGrows(frontier, costSoFar, (next, newCost + heuristic(current.graphPosition, next.graphPosition)), newCost);
      }
    }

    /** Queuing a node of the graph along with its new cost keeps every queued node costed. */
    lemma QueuedGrows(frontier: seq<Entry>, costSoFar: map<Key, real>, e: Entry, newCost: real)
      requires Queued(frontier, costSoFar) && e.0 in nodes.Values
      ensures Queued(frontier + [e], costSoFar[e.0.graphPosition := newCost])
    {
    }

    /** Giving `next` the origin `current` at a cost above `current`'s and below its own keeps the tree. */
    lemma TreeGrows(s: Key, current: GraphNode, next: GraphNode, cameFrom: map<Key, GraphNode>, costSoFar: map<Key, real>, newCost: real)
      requires current in nodes.Values && next in current.neighbors && next.graphPosition in nodes && nodes[next.graphPosition] == next
      requires Tree(s, cameFrom, costSoFar) && current.graphPosition in costSoFar
      requires newCost > costSoFar[current.graphPosition]
      requires next.graphPosition !in costSoFar || newCost < costSoFar[next.graphPosition]
      ensures Tree(s, cameFrom[next.graphPosition := current], costSoFar[next.graphPosition := newCost])
    {
      var n := next.graphPosition;
      var cameFrom', costSoFar' := cameFrom[n := current], costSoFar[n := newCost];
      forall x | x in cameFrom' && x != s
        ensures && x in nodes && nodes[x] in cameFrom'[x].neighbors
                && cameFrom'[x].graphPosition in costSoFar'
                && costSoFar'[cameFrom'[x].graphPosition] < costSoFar'[x]
      {
      }
    }

    /**
     * The reconstruction loop of `path`: from the goal, append each node's
     * position and follow `cameFrom` until the start, or until a node with
     * no origin; then reverse.
     */
    method Reconstruct(startNode: GraphNode, goalNode: GraphNode, cameFrom: map<Key, GraphNode>, costSoFar: map<Key, real>)
      returns (r: seq<Position>, ghost walk: seq<GraphNode>)
      requires Valid() && startNode in nodes.Values && goalNode in nodes.Values
      requires Tree(startNode.graphPosition, cameFrom, costSoFar) && cameFrom[startNode.graphPosition] == startNode
      ensures goalNode == startNode ==> r == []
      ensures goalNode != startNode ==>
        && r == Positions(walk) && walk != [] && walk[|walk| - 1] == goalNode
        && (forall n :: n in walk ==> n in nodes.Values)
        && (walk == [goalNode] || Walk(startNode, walk))
    {
      var current := goalNode;
      var path: seq<Position> := [];
      ghost var chain: seq<GraphNode> := [];
      ghost var broken := false;
      while current != startNode
        invariant current in nodes.Values && forall n :: n in chain ==> n in nodes.Values
        invariant ChainBack(goalNode, current, chain, path)
        invariant chain == [] ==> current == goalNode
        invariant goalNode == startNode ==> chain == []
        invariant chain != [] ==> current.graphPosition in cameFrom
        decreases if current.graphPosition in costSoFar then |Below(costSoFar, costSoFar[current.graphPosition])| + 1 else 0
      {
        ghost var before, positions := chain, path;
        path := path + [current.worldPosition];
        chain := chain + [current];
        var k := current.graphPosition;
        if k in cameFrom {
          assert k != startNode.graphPosition;
          assert nodes[k] == current;
          BelowShrinks(costSoFar, cameFrom[k].graphPosition, costSoFar[k]);
          ChainGrows(goalNode, current, cameFrom[k], before, positions);
          current := cameFrom[k];
        } else {
          broken := true;
          break;
        }
      }
      walk := Reversed(chain);
      r := Reversed(path);
      ReversedPositions(chain, path);
      if !broken && chain != [] {
        ReversedChainWalks(startNode, chain);
      }
    }
  }

  /**
   * `chain` was followed back from `goalNode`, each node a neighbour of
   * the next and the last a neighbour of `current`, and `path` lists its
   * positions.
   */
  ghost predicate ChainBack(goalNode: GraphNode, current: GraphNode, chain: seq<GraphNode>, path: seq<Position>)
    reads current, set n | n in chain
  {
    && |path| == |chain| && (forall i :: 0 <= i < |chain| ==> path[i] == chain[i].worldPosition)
    && (chain != [] ==> chain[0] == goalNode && chain[|chain| - 1] in current.neighbors)
    && forall i :: 0 <= i < |chain| - 1 ==> chain[i] in chain[i + 1].neighbors
  }

  /** Stepping back from `current` to a node it neighbours extends the chain. */
  lemma ChainGrows(goalNode: GraphNode, current: GraphNode, next: GraphNode, chain: seq<GraphNode>, path: seq<Position>)
    requires ChainBack(goalNode, current, chain, path) && (chain == [] ==> current == goalNode)
    requires current in next.neighbors
    ensures ChainBack(goalNode, next, chain + [current], path + [current.worldPosition])
  {
  }

  /** Reversing the positions of a chain gives the positions of the reversed chain. */
  lemma ReversedPositions(chain: seq<GraphNode>, path: seq<Position>)
    requires |path| == |chain| && forall i :: 0 <= i < |chain| ==> path[i] == chain[i].worldPosition
    ensures Reversed(path) == Positions(Reversed(chain))
  {
  }

  /**
   * A chain followed back from the goal, each node a neighbour of the
   * next and the last a neighbour of the start, is reversed into a walk
   * from the start.
   */
  lemma ReversedChainWalks(startNode: GraphNode, chain: seq<GraphNode>)
    requires chain != [] && chain[|chain| - 1] in startNode.neighbors
    requires forall i :: 0 <= i < |chain| - 1 ==> chain[i] in chain[i + 1].neighbors
    ensures Walk(startNode, Reversed(chain))
  {
    var walk := Reversed(chain);
    forall i | 0 <= i < |walk| - 1
      ensures walk[i + 1] in walk[i].neighbors
    {
      assert walk[i + 1] == chain[|chain| - 2 - i] && walk[i] == chain[|chain| - 1 - i];
    }
  }

  /** Stepping down to a lower cost leaves fewer keys below. */
  lemma BelowShrinks(costSoFar: map<Key, real>, a: Key, c: real)
    requires a in costSoFar && costSoFar[a] < c
    ensures |Below(costSoFar, costSoFar[a])| < |Below(costSoFar, c)|
  {
    var small, big := Below(costSoFar, costSoFar[a]), Below(costSoFar, c);
    assert small <= big && a in big - small;
    assert big == small + (big - small);
  }
}
