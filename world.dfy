/**
 * The world of UselessEngine/GameWorld.swift: its size, grown by the tiles
 * added to the terrain; the set of game objects, indexed in the collision
 * grid by their contact boxes; the checkpoints, kept sorted; and the
 * per-tick loop that updates each object and tests a moved object against
 * its grid neighbours.
 *
 * Each object's own `update(_:in:)`, and the collision delegate's
 * `isGameObject(_:contactableWith:)`, `isGameObject(_:collidableWith:)`
 * and `resolveCollision(on:against:for:)`, are passed in as functions; the
 * state handlers they trigger are recorded as events.
 */
module LegacyWorld {
  import opened Wrappers
  import opened Numeric
  import opened LegacyGeometry
  import A = PackageAabb
  import opened GridCells
  import opened LegacyCollisionGrid
  import T = LegacyTile
  import opened LegacyTerrain
  import opened Sets

  // ----- checkpoints -----

  /**
   * The `addCheckpoint` comparator as written: its tie-break compares
   * `$0.y` with itself, so it never fires.
   */
  predicate CheckpointBeforeAsWritten(a: Position, b: Position) {
    if a.x < b.x then true
    else if a.x > b.x then false
    else if a.y < a.y then true
    else false
  }

  /** The comparator as evidently intended: by `x`, ties by `y`. */
  predicate CheckpointBefore(a: Position, b: Position) {
    a.x < b.x || (a.x == b.x && a.y < b.y)
  }

  /** No checkpoint is strictly before an earlier one, as written. */
  predicate SortedAsWritten(s: seq<Position>) {
    forall i, j :: 0 <= i < j < |s| ==> !CheckpointBeforeAsWritten(s[j], s[i])
  }

  /** No checkpoint is strictly before an earlier one. */
  predicate Sorted(s: seq<Position>) {
    forall i, j :: 0 <= i < j < |s| ==> !CheckpointBefore(s[j], s[i])
  }

  /** As written, the comparator orders by `x` alone. */
  lemma TieBreakNeverFires(a: Position, b: Position)
    ensures CheckpointBeforeAsWritten(a, b) <==> a.x < b.x
  {
  }

  /** Two checkpoints with equal `x` may stay in descending `y` as written. */
  lemma AsWrittenLeavesTiesUnordered()
    ensures SortedAsWritten([Position(0.0, 1.0, 0.0), Position(0.0, 0.0, 0.0)])
    ensures !Sorted([Position(0.0, 1.0, 0.0), Position(0.0, 0.0, 0.0)])
  {
    var s := [Position(0.0, 1.0, 0.0), Position(0.0, 0.0, 0.0)];
    assert CheckpointBefore(s[1], s[0]);
  }

  /** Ordered by the intended comparator is ordered by `x` alone, and then by `y` among equal `x`. */
  lemma SortedIsLexicographic(s: seq<Position>, i: int, j: int)
    requires Sorted(s) && 0 <= i < j < |s|
    ensures s[i].x <= s[j].x && (s[i].x == s[j].x ==> s[i].y <= s[j].y)
    ensures SortedAsWritten(s)
  {
    assert !CheckpointBefore(s[j], s[i]);
  }

  /** A sorted insertion of `p`: a witness that the sort in `addCheckpoint` has a result. */
  function InsertCheckpoint(s: seq<Position>, p: Position): (r: seq<Position>)
    requires Sorted(s)
    ensures multiset(r) == multiset(s) + multiset{p} && Sorted(r)
  {
    if s == [] || !CheckpointBefore(s[0], p) then
      InsertFirst(s, p);
      [p] + s
    else
      var rest := InsertCheckpoint(s[1..], p);
      InsertAfterFirst(s, p, rest);
      [s[0]] + rest
  }

  /** `p` goes first when the first checkpoint is not before it. */
  lemma InsertFirst(s: seq<Position>, p: Position)
    requires Sorted(s) && (s == [] || !CheckpointBefore(s[0], p))
    ensures Sorted([p] + s)
  {
    forall j | 0 <= j < |s| ensures !CheckpointBefore(s[j], p) {
      if j > 0 {
        assert !CheckpointBefore(s[j], s[0]);
      }
    }
    assert forall j :: 0 < j < |s| + 1 ==> ([p] + s)[j] == s[j - 1];
  }

  /** Otherwise the first checkpoint stays first, ahead of the sorted rest with `p` in it. */
  lemma InsertAfterFirst(s: seq<Position>, p: Position, rest: seq<Position>)
    requires Sorted(s) && s != [] && CheckpointBefore(s[0], p)
    requires Sorted(rest) && multiset(rest) == multiset(s[1..]) + multiset{p}
    ensures Sorted([s[0]] + rest) && multiset([s[0]] + rest) == multiset(s) + multiset{p}
  {
    assert s == [s[0]] + s[1..];
    forall j | 0 <= j < |rest| ensures !CheckpointBefore(rest[j], s[0]) {
      assert rest[j] in multiset(rest);
      if rest[j] != p {
        assert rest[j] in multiset(s[1..]);
        var k :| 0 <= k < |s[1..]| && s[1..][k] == rest[j];
        assert s[k + 1] == rest[j];
      }
    }
    assert forall j :: 0 < j < |rest| + 1 ==> ([s[0]] + rest)[j] == rest[j - 1];
  }

  // ----- the tick -----

  /**
   * What an object's own `update(_:in:)` did: whether the changes it
   * returned contain `.position`, and its contact box afterwards.
   */
  datatype Step = Step(moved: bool, box: A.Aabb)

  /**
   * The corrections `resolveCollision` returns, with the contact boxes the
   * two objects have once the delegate has applied them.
   */
  datatype Resolution = Resolution(thisCorrection: Vector, otherCorrection: Vector, thisBox: A.Aabb, otherBox: A.Aabb)

  /** The world's `GameWorldCollisionDelegate`. */
  datatype Delegate = Delegate(contactable: (Obj, Obj) -> bool,
                               collidable: (Obj, Obj) -> bool,
                               resolve: (Obj, Obj, A.Hit) -> Resolution)

  /**
   * What a tick does, in order: an object was updated; a moved object's
   * contact box was intersected with another's; both objects'
   * `handleContact` ran; the collision was resolved and both objects'
   * `handleCollision` ran.
   */
  datatype Event = Updated(g: Obj) | Tested(g: Obj, other: Obj) | Contact(g: Obj, other: Obj) | Collision(g: Obj, other: Obj, r: Resolution)

  /** What a tick changes: the contact boxes and the grid's two tables. */
  datatype Scene = Scene(boxes: Boxes, onCell: CellLists, positions: PositionLists)

  /** The events of a part of the tick and the scene it leaves. */
  datatype Run = Run(events: seq<Event>, scene: Scene)

  /** Every box the tick can produce spans a valid range of cells. */
  ghost predicate BoxesInRange(step: Obj -> Step, d: Delegate, width: real, height: real)
    requires width > 0.0 && height > 0.0
  {
    && (forall g :: RangesOk(step(g).box, width, height))
    && (forall g, o, h :: RangesOk(d.resolve(g, o, h).thisBox, width, height) && RangesOk(d.resolve(g, o, h).otherBox, width, height))
  }

  /**
   * `collisionGrid.update(for: x)` with `x`'s contact box `b`: the cells
   * under `b` become `x`'s recorded list, and the cell arrays are rewritten
   * only when that list differs from the recorded one.
   */
  function Regrid(s: Scene, x: Obj, b: A.Aabb, cellWidth: real, cellHeight: real): Scene
    requires cellWidth > 0.0 && cellHeight > 0.0
  {
    var current := GridPositions(Low(b, cellWidth, cellHeight), High(b, cellWidth, cellHeight));
    var previous := RecordedCells(s.positions, x);
    Scene(s.boxes,
          if current != previous then Appended(Cleared(s.onCell, x, previous), x, current) else s.onCell,
          s.positions[x := current])
  }

  /** After a collision: `x` is re-indexed under its box when its correction is not zero. */
  function ReindexIf(s: Scene, x: Obj, correction: Vector, cellWidth: real, cellHeight: real): Scene
    requires cellWidth > 0.0 && cellHeight > 0.0 && x in s.boxes
  {
    if correction == ZeroVector then s else Regrid(s, x, s.boxes[x], cellWidth, cellHeight)
  }

  /**
   * The action `onNeighbors` runs for `o` in the turn of a moved `g`: the
   * two contact boxes are intersected; on a hit, a contact when the delegate
   * says contactable, and when it says collidable the delegate's
   * resolution, its boxes, the collision, and the re-indexing of each side
   * whose correction is not zero. An object without a contact box is never
   * on a cell of a valid world; it is passed over.
   */
  function NeighborStep(s: Scene, g: Obj, o: Obj, d: Delegate, cellWidth: real, cellHeight: real): (r: Run)
    requires cellWidth > 0.0 && cellHeight > 0.0
    ensures r.scene.boxes.Keys == s.boxes.Keys
  {
    if g !in s.boxes || o !in s.boxes then Run([], s)
    else match A.IntersectAsWritten(s.boxes[g], s.boxes[o])
      case None => Run([Tested(g, o)], s)
      case Some(hit) =>
        var contacts := if d.contactable(g, o) then [Contact(g, o)] else [];
        if !d.collidable(g, o) then Run([Tested(g, o)] + contacts, s)
        else
          var res := d.resolve(g, o, hit);
          var corrected := Scene(s.boxes[g := res.thisBox][o := res.otherBox], s.onCell, s.positions);
          Run([Tested(g, o)] + contacts + [Collision(g, o, res)],
              ReindexIf(ReindexIf(corrected, g, res.thisCorrection, cellWidth, cellHeight),
                        o, res.otherCorrection, cellWidth, cellHeight))
  }

  /** The inner `forEach` of `onNeighbors` over one cell's array: each object but `g`, in order. */
  function CellRun(s: Scene, g: Obj, others: seq<Obj>, d: Delegate, cellWidth: real, cellHeight: real): (r: Run)
    requires cellWidth > 0.0 && cellHeight > 0.0
    ensures r.scene.boxes.Keys == s.boxes.Keys
    decreases |others|
  {
    if others == [] then Run([], s)
    else
      var prev := CellRun(s, g, others[..|others| - 1], d, cellWidth, cellHeight);
      var o := others[|others| - 1];
      if o == g then prev
      else
        var next := NeighborStep(prev.scene, g, o, d, cellWidth, cellHeight);
        Run(prev.events + next.events, next.scene)
  }

  /** One more object of the array. */
  lemma CellRunStep(s: Scene, g: Obj, others: seq<Obj>, j: int, d: Delegate, cellWidth: real, cellHeight: real)
    requires cellWidth > 0.0 && cellHeight > 0.0 && 0 <= j < |others|
    ensures var prev := CellRun(s, g, others[..j], d, cellWidth, cellHeight);
      CellRun(s, g, others[..j + 1], d, cellWidth, cellHeight) ==
        if others[j] == g then prev
        else Run(prev.events + NeighborStep(prev.scene, g, others[j], d, cellWidth, cellHeight).events,
                 NeighborStep(prev.scene, g, others[j], d, cellWidth, cellHeight).scene)
  {
    assert others[..j + 1][..j] == others[..j];
  }

  /**
   * `onNeighbors(of: g)` over the list `cells` recorded for `g` when it
   * starts: each cell's array is read as it stands when that cell comes up.
   */
  function ObjectRun(s: Scene, g: Obj, cells: seq<Cell>, d: Delegate, cellWidth: real, cellHeight: real): (r: Run)
    requires cellWidth > 0.0 && cellHeight > 0.0
    ensures r.scene.boxes.Keys == s.boxes.Keys
    decreases |cells|
  {
    if cells == [] then Run([], s)
    else
      var prev := ObjectRun(s, g, cells[..|cells| - 1], d, cellWidth, cellHeight);
      var next := CellRun(prev.scene, g, ObjectsAt(prev.scene.onCell, cells[|cells| - 1]), d, cellWidth, cellHeight);
      Run(prev.events + next.events, next.scene)
  }

  /** One more cell of the list. */
  lemma ObjectRunStep(s: Scene, g: Obj, cells: seq<Cell>, i: int, d: Delegate, cellWidth: real, cellHeight: real)
    requires cellWidth > 0.0 && cellHeight > 0.0 && 0 <= i < |cells|
    ensures var prev := ObjectRun(s, g, cells[..i], d, cellWidth, cellHeight);
      var next := CellRun(prev.scene, g, ObjectsAt(prev.scene.onCell, cells[i]), d, cellWidth, cellHeight);
      ObjectRun(s, g, cells[..i + 1], d, cellWidth, cellHeight) == Run(prev.events + next.events, next.scene)
  {
    assert cells[..i + 1][..i] == cells[..i];
  }

  /**
   * One object's turn: its own update sets its contact box; only when it
   * moved is it re-indexed and tested against the objects of each of its
   * newly recorded cells.
   */
  function UpdateRun(s: Scene, g: Obj, step: Obj -> Step, d: Delegate, cellWidth: real, cellHeight: real): (r: Run)
    requires cellWidth > 0.0 && cellHeight > 0.0
    ensures r.scene.boxes.Keys == s.boxes.Keys + {g}
  {
    var boxed := Scene(s.boxes[g := step(g).box], s.onCell, s.positions);
    if !step(g).moved then Run([Updated(g)], boxed)
    else
      var cells := GridPositions(Low(step(g).box, cellWidth, cellHeight), High(step(g).box, cellWidth, cellHeight));
      var tests := ObjectRun(Regrid(boxed, g, step(g).box, cellWidth, cellHeight), g, cells, d, cellWidth, cellHeight);
      Run([Updated(g)] + tests.events, tests.scene)
  }

  /** The tick over the objects in the order `order` that `forEach` visits them: the turn of each one passing `criteria`. */
  function TickRun(s: Scene, order: seq<Obj>, criteria: Obj -> bool, step: Obj -> Step, d: Delegate,
                   cellWidth: real, cellHeight: real): Run
    requires cellWidth > 0.0 && cellHeight > 0.0
    decreases |order|
  {
    if order == [] then Run([], s)
    else
      var prev := TickRun(s, order[..|order| - 1], criteria, step, d, cellWidth, cellHeight);
      var g := order[|order| - 1];
      if !criteria(g) then prev
      else
        var turn := UpdateRun(prev.scene, g, step, d, cellWidth, cellHeight);
        Run(prev.events + turn.events, turn.scene)
  }

  /** One more object visited. */
  lemma TickRunStep(s: Scene, order: seq<Obj>, g: Obj, criteria: Obj -> bool, step: Obj -> Step, d: Delegate,
                    cellWidth: real, cellHeight: real)
    requires cellWidth > 0.0 && cellHeight > 0.0
    ensures var prev := TickRun(s, order, criteria, step, d, cellWidth, cellHeight);
      TickRun(s, order + [g], criteria, step, d, cellWidth, cellHeight) ==
        if !criteria(g) then prev
        else Run(prev.events + UpdateRun(prev.scene, g, step, d, cellWidth, cellHeight).events,
                 UpdateRun(prev.scene, g, step, d, cellWidth, cellHeight).scene)
  {
    assert (order + [g])[..|order|] == order;
  }

  /**
   * Each event a tick records has its cause: an updated object passed
   * `matchCriteria`, and a test, contact or collision involves a moved
   * object that passed it, another object, and a delegate that allowed it.
   */
  ghost predicate Justified(e: Event, criteria: Obj -> bool, step: Obj -> Step, d: Delegate) {
    match e
    case Updated(g) => criteria(g)
    case Tested(g, o) => g != o && criteria(g) && step(g).moved
    case Contact(g, o) => g != o && criteria(g) && step(g).moved && d.contactable(g, o)
    case Collision(g, o, r) => g != o && criteria(g) && step(g).moved && d.collidable(g, o) && exists h :: r == d.resolve(g, o, h)
  }

  /** An object found in a cell's array has that cell recorded. */
  lemma CellMemberIsRecorded(onCell: CellLists, positions: PositionLists, c: Cell, o: Obj)
    requires Indexed(onCell, positions) && o in ObjectsAt(onCell, c)
    ensures o in positions
  {
    assert multiset(ObjectsAt(onCell, c))[o] == (if c in RecordedCells(positions, o) then 1 else 0);
  }

  class GameWorld {
    var isPaused: bool
    var gravity: real
    /** `size`. */
    var width: real
    var height: real
    var objects: set<Obj>
    var checkpoints: seq<Position>
    /** Each object's `physics.collision.contactAABB`. */
    var boxes: Boxes
    const terrain: Terrain
    const collisionGrid: CollisionGrid

    ghost predicate Valid()
      reads this, terrain, collisionGrid
    {
      && terrain.Valid()
      && collisionGrid.Valid()
      && objects <= boxes.Keys
      && collisionGrid.positions.Keys <= boxes.Keys
      && (forall g :: g in boxes ==> RangesOk(boxes[g], collisionGrid.cellWidth, collisionGrid.cellHeight))
      && Sorted(checkpoints)
    }

    /** The part of the world the tick changes. */
    ghost function Current(): Scene
      reads this, collisionGrid
    {
      Scene(boxes, collisionGrid.onCell, collisionGrid.positions)
    }

    /** `init(gravity:tileSize:collisionCellSize:collisionDelegate:pathGraphDelegate:)`: empty and unpaused. */
    constructor (gravity: real, tileWidth: real, tileHeight: real, cellWidth: real, cellHeight: real)
      requires tileWidth != 0.0 && tileHeight != 0.0 && cellWidth > 0.0 && cellHeight > 0.0
      ensures Valid() && !isPaused && this.gravity == gravity
      ensures width == 0.0 && height == 0.0 && objects == {} && checkpoints == [] && boxes == map[]
      ensures fresh(terrain) && fresh(collisionGrid)
      ensures terrain.tileByGridPosition == map[] && terrain.tileWidth == tileWidth && terrain.tileHeight == tileHeight
      ensures collisionGrid.positions == map[] && collisionGrid.cellWidth == cellWidth && collisionGrid.cellHeight == cellHeight
    {
      isPaused := false;
      this.gravity := gravity;
      width, height := 0.0, 0.0;
      objects, checkpoints, boxes := {}, [], map[];
      terrain := new Terrain(tileWidth, tileHeight);
      collisionGrid := new CollisionGrid(cellWidth, cellHeight);
    }

    /**
     * `add(gameTile:)`: the terrain decides; only on success does `size`
     * grow, per axis, to cover the tile (`tileWidth` and `tileHeight` are
     * the tile's `size`).
     */
    method AddTile(tile: T.GameTile, tileWidth: real, tileHeight: real) returns (success: bool)
      requires Valid()
      modifies this, terrain
      ensures Valid()
      ensures success <==> GridPosition(tile.position.x, tile.position.y, terrain.tileWidth, terrain.tileHeight) !in old(terrain.tileByGridPosition)
      ensures success ==> width == Max(old(width), tile.position.x + tileWidth) && height == Max(old(height), tile.position.y + tileHeight)
      ensures success ==> terrain.TileAt(tile.position.x, tile.position.y) == Some(tile)
      ensures !success ==> width == old(width) && height == old(height) && terrain.tileByGridPosition == old(terrain.tileByGridPosition)
      ensures objects == old(objects) && boxes == old(boxes) && checkpoints == old(checkpoints)
      ensures isPaused == old(isPaused) && gravity == old(gravity)
    {
      success := terrain.Add(tile);
      if success {
        width := Max(width, tile.position.x + tileWidth);
        height := Max(height, tile.position.y + tileHeight);
      }
    }

    /** `add(gameObject:)`: inserted into `objects` and indexed in the grid under its contact box. */
    method AddObject(g: Obj, box: A.Aabb)
      requires Valid() && RangesOk(box, collisionGrid.cellWidth, collisionGrid.cellHeight)
      modifies this, collisionGrid
      ensures Valid()
      ensures objects == old(objects) + {g} && boxes == old(boxes)[g := box] && checkpoints == old(checkpoints)
      ensures var current := GridPositions(
          Low(box, collisionGrid.cellWidth, collisionGrid.cellHeight), High(box, collisionGrid.cellWidth, collisionGrid.cellHeight));
        var previous := RecordedCells(old(collisionGrid.positions), g);
        && collisionGrid.positions == old(collisionGrid.positions)[g := current]
        && collisionGrid.onCell == if current != previous
                                   then Appended(Cleared(old(collisionGrid.onCell), g, previous), g, current)
                                   else old(collisionGrid.onCell)
      ensures isPaused == old(isPaused) && gravity == old(gravity) && width == old(width) && height == old(height)
      ensures unchanged(terrain)
    {
      objects := objects + {g};
      boxes := boxes[g := box];
      collisionGrid.Update(g, Some(box));
    }

    /** `remove(gameObject:)`: dropped from the grid's cells and from `objects`. */
    method RemoveObject(g: Obj)
      requires Valid()
      modifies this, collisionGrid
      ensures Valid()
      ensures objects == old(objects) - {g} && boxes == old(boxes) && checkpoints == old(checkpoints)
      ensures collisionGrid.onCell == Cleared(old(collisionGrid.onCell), g, RecordedCells(old(collisionGrid.positions), g))
      ensures collisionGrid.positions == if RecordedCells(old(collisionGrid.positions), g) == [] then old(collisionGrid.positions)
                                         else old(collisionGrid.positions) - {g}
      ensures isPaused == old(isPaused) && gravity == old(gravity) && width == old(width) && height == old(height)
      ensures unchanged(terrain)
      ensures forall c :: g !in ObjectsAt(collisionGrid.onCell, c)
    {
      collisionGrid.Remove(g);
      objects := objects - {g};
      assert RecordedCells(collisionGrid.positions, g) == [];
      forall c ensures g !in ObjectsAt(collisionGrid.onCell, c) {
        assert multiset(ObjectsAt(collisionGrid.onCell, c))[g] == (if c in RecordedCells(collisionGrid.positions, g) then 1 else 0);
      }
    }

    /**
     * `addCheckpoint(at:)`: appended, then sorted with the intended
     * comparator; the order among checkpoints equal in `x` and `y` is left
     * open, as Swift's sort is not stable.
     */
    method AddCheckpoint(p: Position)
      requires Valid()
      modifies this
      ensures Valid()
      ensures Sorted(checkpoints) && multiset(checkpoints) == multiset(old(checkpoints)) + multiset{p}
      ensures objects == old(objects) && boxes == old(boxes)
      ensures isPaused == old(isPaused) && gravity == old(gravity) && width == old(width) && height == old(height)
      ensures unchanged(terrain)
    {
      var appended := checkpoints + [p];
      ghost var inserted := InsertCheckpoint(checkpoints, p);
      assert multiset(inserted) == multiset(appended);
      var sorted :| Sorted(sorted) && multiset(sorted) == multiset(appended);
      checkpoints := sorted;
    }

    /**
     * `update(_:matchCriteria:)`: nothing while paused; otherwise the turn
     * of each object in `order`, the order in which the set's `forEach`
     * visits them, which Swift leaves unspecified. Every object passing
     * `matchCriteria` is updated exactly once and no other, and every test,
     * contact and collision has its cause. Terrain's update comes last and
     * changes nothing here.
     */
    method Update(criteria: Obj -> bool, step: Obj -> Step, d: Delegate) returns (events: seq<Event>, ghost order: seq<Obj>)
      requires Valid() && BoxesInRange(step, d, collisionGrid.cellWidth, collisionGrid.cellHeight)
      modifies this, collisionGrid
      ensures Valid()
      ensures objects == old(objects) && checkpoints == old(checkpoints) && width == old(width) && height == old(height)
      ensures isPaused == old(isPaused) && gravity == old(gravity) && unchanged(terrain)
      ensures Run(events, Current()) == TickRun(old(Current()), order, criteria, step, d, collisionGrid.cellWidth, collisionGrid.cellHeight)
      ensures old(isPaused) ==> order == []
      ensures !old(isPaused) ==> T.NoDuplicates(order) && forall g :: g in order <==> g in objects
      ensures T.NoDuplicates(UpdatedObjects(events))
      ensures forall g :: g in UpdatedObjects(events) <==> !old(isPaused) && g in objects && criteria(g)
      ensures forall e :: e in events ==> Justified(e, criteria, step, d)
    {
      events, order := [], [];
      if isPaused {
        assert UpdatedObjects(events) == [];
        return;
      }
      ghost var start := Current();
      var pending := objects;
      while pending != {}
        invariant pending <= objects && objects == old(objects) && checkpoints == old(checkpoints)
        invariant width == old(width) && height == old(height) && !isPaused && gravity == old(gravity)
        invariant Valid()
        invariant Run(events, Current()) == TickRun(start, order, criteria, step, d, collisionGrid.cellWidth, collisionGrid.cellHeight)
        invariant T.NoDuplicates(order) && forall g :: g in order <==> g in objects - pending
        decreases |pending|
      {
        var g := Pick(pending);
        pending := pending - {g};
        TickRunStep(start, order, g, criteria, step, d, collisionGrid.cellWidth, collisionGrid.cellHeight);
        T.AppendFreshKeepsNoDuplicates(order, g);
        order := order + [g];
        if criteria(g) {
          var es := UpdateObject(g, criteria, step, d);
          events := events + es;
        }
      }
      TickReports(start, order, criteria, step, d, collisionGrid.cellWidth, collisionGrid.cellHeight);
      PassingMembers(order, criteria);
    }

    /**
     * One object's turn in the tick: its own update, then, only when the
     * changes contain `.position`, its re-indexing and the tests against
     * the objects of each of its recorded cells, each cell's array read
     * when that cell comes up.
     */
    method UpdateObject(g: Obj, criteria: Obj -> bool, step: Obj -> Step, d: Delegate) returns (es: seq<Event>)
      requires Valid() && g in objects && criteria(g) && BoxesInRange(step, d, collisionGrid.cellWidth, collisionGrid.cellHeight)
      modifies this, collisionGrid
      ensures Valid()
      ensures objects == old(objects) && checkpoints == old(checkpoints) && width == old(width) && height == old(height)
      ensures isPaused == old(isPaused) && gravity == old(gravity)
      ensures Run(es, Current()) == UpdateRun(old(Current()), g, step, d, collisionGrid.cellWidth, collisionGrid.cellHeight)
      ensures UpdatedObjects(es) == [g] && es[0] == Updated(g)
      ensures forall e :: e in es ==> Justified(e, criteria, step, d)
    {
      TurnJustified(Current(), g, criteria, step, d, collisionGrid.cellWidth, collisionGrid.cellHeight);
      var s := step(g);
      boxes := boxes[g := s.box];
      es := [Updated(g)];
      if s.moved {
        var tests := TestMoved(g, s.box, criteria, step, d);
        es := es + tests;
      }
    }

    /** A moved `g`: `collisionGrid.update(for: g)`, then `onNeighbors(of: g)` over its new list of cells. */
    method TestMoved(g: Obj, box: A.Aabb, criteria: Obj -> bool, step: Obj -> Step, d: Delegate) returns (tests: seq<Event>)
      requires Valid() && g in boxes && RangesOk(box, collisionGrid.cellWidth, collisionGrid.cellHeight)
      requires BoxesInRange(step, d, collisionGrid.cellWidth, collisionGrid.cellHeight)
      modifies this, collisionGrid
      ensures Valid()
      ensures objects == old(objects) && checkpoints == old(checkpoints) && width == old(width) && height == old(height)
      ensures isPaused == old(isPaused) && gravity == old(gravity)
      ensures var cw, ch := collisionGrid.cellWidth, collisionGrid.cellHeight;
        Run(tests, Current()) == ObjectRun(Regrid(old(Current()), g, box, cw, ch), g, GridPositions(Low(box, cw, ch), High(box, cw, ch)), d, cw, ch)
    {
      collisionGrid.Update(g, Some(box));
      ghost var placed := Current();
      var cells := RecordedCells(collisionGrid.positions, g);
      tests := [];
      var i := 0;
      while i < |cells|
        invariant 0 <= i <= |cells|
        invariant Valid() && g in boxes && objects == old(objects) && checkpoints == old(checkpoints)
        invariant width == old(width) && height == old(height) && isPaused == old(isPaused) && gravity == old(gravity)
        invariant Run(tests, Current()) == ObjectRun(placed, g, cells[..i], d, collisionGrid.cellWidth, collisionGrid.cellHeight)
      {
        ObjectRunStep(placed, g, cells, i, d, collisionGrid.cellWidth, collisionGrid.cellHeight);
        var more := TestRecordedCell(g, cells[i], criteria, step, d);
        tests := tests + more;
        i := i + 1;
      }
      assert cells[..i] == cells;
    }

    /** The objects in cell `c` at the time it comes up, each but `g` tested against `g`. */
    method TestRecordedCell(g: Obj, c: Cell, criteria: Obj -> bool, step: Obj -> Step, d: Delegate) returns (es: seq<Event>)
      requires Valid() && g in boxes && BoxesInRange(step, d, collisionGrid.cellWidth, collisionGrid.cellHeight)
      modifies this, collisionGrid
      ensures Valid()
      ensures objects == old(objects) && checkpoints == old(checkpoints) && width == old(width) && height == old(height)
      ensures isPaused == old(isPaused) && gravity == old(gravity)
      ensures Run(es, Current()) == CellRun(old(Current()), g, ObjectsAt(old(collisionGrid.onCell), c), d,
                                            collisionGrid.cellWidth, collisionGrid.cellHeight)
    {
      var others := ObjectsAt(collisionGrid.onCell, c);
      forall o | o in others
        ensures o in boxes
      {
        CellMemberIsRecorded(collisionGrid.onCell, collisionGrid.positions, c, o);
      }
      es := TestCell(g, others, criteria, step, d);
    }

    /** The `forEach` over one cell's array: every object but `g` itself is tested against it. */
    method TestCell(g: Obj, others: seq<Obj>, criteria: Obj -> bool, step: Obj -> Step, d: Delegate) returns (es: seq<Event>)
      requires Valid() && g in boxes && (forall o :: o in others ==> o in boxes)
      requires BoxesInRange(step, d, collisionGrid.cellWidth, collisionGrid.cellHeight)
      modifies this, collisionGrid
      ensures Valid()
      ensures objects == old(objects) && checkpoints == old(checkpoints) && width == old(width) && height == old(height)
      ensures isPaused == old(isPaused) && gravity == old(gravity)
      ensures Run(es, Current()) == CellRun(old(Current()), g, others, d, collisionGrid.cellWidth, collisionGrid.cellHeight)
    {
      ghost var start := Current();
      es := [];
      var j := 0;
      while j < |others|
        invariant 0 <= j <= |others|
        invariant Valid() && g in boxes && (forall o :: o in others ==> o in boxes)
        invariant objects == old(objects) && checkpoints == old(checkpoints)
        invariant width == old(width) && height == old(height) && isPaused == old(isPaused) && gravity == old(gravity)
        invariant Run(es, Current()) == CellRun(start, g, others[..j], d, collisionGrid.cellWidth, collisionGrid.cellHeight)
      {
        CellRunStep(start, g, others, j, d, collisionGrid.cellWidth, collisionGrid.cellHeight);
        if others[j] != g {
          var more := TestNeighbor(g, others[j], d);
          es := es + more;
        }
        j := j + 1;
      }
      assert others[..j] == others;
    }

    /**
     * The action `onNeighbors` runs for `o`: `intersect` on the two contact
     * boxes; on a hit, a contact when the delegate says contactable, and a
     * collision when it says collidable, which is resolved and re-indexes
     * each side whose correction is not zero.
     */
    method TestNeighbor(g: Obj, o: Obj, d: Delegate) returns (es: seq<Event>)
      requires Valid() && g in boxes && o in boxes && g != o
      requires forall h :: RangesOk(d.resolve(g, o, h).thisBox, collisionGrid.cellWidth, collisionGrid.cellHeight)
      requires forall h :: RangesOk(d.resolve(g, o, h).otherBox, collisionGrid.cellWidth, collisionGrid.cellHeight)
      modifies this, collisionGrid
      ensures Valid()
      ensures objects == old(objects) && checkpoints == old(checkpoints) && width == old(width) && height == old(height)
      ensures isPaused == old(isPaused) && gravity == old(gravity)
      ensures Run(es, Current()) == NeighborStep(old(Current()), g, o, d, collisionGrid.cellWidth, collisionGrid.cellHeight)
    {
      es := [Tested(g, o)];
      var hit := A.IntersectAsWritten(boxes[g], boxes[o]);
      if hit.None? {
        return;
      }
      if d.contactable(g, o) {
        es := es + [Contact(g, o)];
      }
      if d.collidable(g, o) {
        var r := d.resolve(g, o, hit.value);
        boxes := boxes[g := r.thisBox][o := r.otherBox];
        es := es + [Collision(g, o, r)];
        if r.thisCorrection != ZeroVector {
          collisionGrid.Update(g, Some(boxes[g]));
        }
        if r.otherCorrection != ZeroVector {
          collisionGrid.Update(o, Some(boxes[o]));
        }
      }
    }
  }

  /** The objects a run of events reports as updated, in order. */
  function UpdatedObjects(es: seq<Event>): seq<Obj> {
    if es == [] then []
    else UpdatedObjects(es[..|es| - 1]) + (if es[|es| - 1].Updated? then [es[|es| - 1].g] else [])
  }

  /** The objects a run of events reports as tested against a moved object, in order. */
  function TestedObjects(es: seq<Event>): seq<Obj> {
    if es == [] then []
    else TestedObjects(es[..|es| - 1]) + (if es[|es| - 1].Tested? then [es[|es| - 1].other] else [])
  }

  /** The updated and the tested objects of two runs of events, one after the other. */
  lemma {:induction false} ReportsAppend(a: seq<Event>, b: seq<Event>)
    ensures UpdatedObjects(a + b) == UpdatedObjects(a) + UpdatedObjects(b)
    ensures TestedObjects(a + b) == TestedObjects(a) + TestedObjects(b)
    decreases |b|
  {
    if b == [] {
      assert a + b == a;
    } else {
      assert (a + b)[..|a + b| - 1] == a + b[..|b| - 1];
      ReportsAppend(a, b[..|b| - 1]);
    }
  }

  /** Contacts and collisions report no update and no test. */
  lemma {:induction false} Unreported(es: seq<Event>)
    requires forall e :: e in es ==> e.Contact? || e.Collision?
    ensures UpdatedObjects(es) == [] && TestedObjects(es) == []
    decreases |es|
  {
    if es != [] {
      assert es[|es| - 1] in es;
      Unreported(es[..|es| - 1]);
    }
  }

  /** The objects of `order` that pass `criteria`, in order. */
  function Passing(order: seq<Obj>, criteria: Obj -> bool): seq<Obj>
    decreases |order|
  {
    if order == [] then []
    else Passing(order[..|order| - 1], criteria) + (if criteria(order[|order| - 1]) then [order[|order| - 1]] else [])
  }

  /** The objects passing `criteria` are those of `order` that pass it, each as often as in `order`. */
  lemma {:induction false} PassingMembers(order: seq<Obj>, criteria: Obj -> bool)
    ensures forall g :: g in Passing(order, criteria) <==> g in order && criteria(g)
    ensures T.NoDuplicates(order) ==> T.NoDuplicates(Passing(order, criteria))
    decreases |order|
  {
    if order != [] {
      var init, g := order[..|order| - 1], order[|order| - 1];
      assert order == init + [g];
      PassingMembers(init, criteria);
      if T.NoDuplicates(order) {
        assert g !in init;
      }
    }
  }

  /**
   * A tick reports as updated exactly the objects of `order` passing
   * `matchCriteria`, in order, and every event it records has its cause.
   */
  lemma {:induction false} TickReports(s: Scene, order: seq<Obj>, criteria: Obj -> bool, step: Obj -> Step, d: Delegate,
                                       cellWidth: real, cellHeight: real)
    requires cellWidth > 0.0 && cellHeight > 0.0
    ensures var r := TickRun(s, order, criteria, step, d, cellWidth, cellHeight);
      && UpdatedObjects(r.events) == Passing(order, criteria)
      && forall e :: e in r.events ==> Justified(e, criteria, step, d)
    decreases |order|
  {
    if order != [] {
      var init, g := order[..|order| - 1], order[|order| - 1];
      TickReports(s, init, criteria, step, d, cellWidth, cellHeight);
      if criteria(g) {
        var prev := TickRun(s, init, criteria, step, d, cellWidth, cellHeight);
        TurnJustified(prev.scene, g, criteria, step, d, cellWidth, cellHeight);
        ReportsAppend(prev.events, UpdateRun(prev.scene, g, step, d, cellWidth, cellHeight).events);
      }
    }
  }

  /** One neighbour test reports `o` as tested, first, and no update. */
  lemma NeighborTested(s: Scene, g: Obj, o: Obj, d: Delegate, cellWidth: real, cellHeight: real)
    requires cellWidth > 0.0 && cellHeight > 0.0
    ensures var r := NeighborStep(s, g, o, d, cellWidth, cellHeight);
      && UpdatedObjects(r.events) == []
      && (g in s.boxes && o in s.boxes ==> r.events[0] == Tested(g, o) && TestedObjects(r.events) == [o])
  {
    var es := NeighborStep(s, g, o, d, cellWidth, cellHeight).events;
    if es != [] {
      Unreported(es[1..]);
      ReportsAppend([es[0]], es[1..]);
      assert es == [es[0]] + es[1..];
    }
  }

  /** For a moved `g` that passed `matchCriteria`, each event of a neighbour test has its cause. */
  lemma NeighborJustified(s: Scene, g: Obj, o: Obj, criteria: Obj -> bool, step: Obj -> Step, d: Delegate,
                          cellWidth: real, cellHeight: real)
    requires cellWidth > 0.0 && cellHeight > 0.0 && g != o && criteria(g) && step(g).moved
    ensures forall e :: e in NeighborStep(s, g, o, d, cellWidth, cellHeight).events ==> Justified(e, criteria, step, d)
  {
    if g in s.boxes && o in s.boxes {
      var hit := A.IntersectAsWritten(s.boxes[g], s.boxes[o]);
      if hit.Some? && d.collidable(g, o) {
        assert Justified(Collision(g, o, d.resolve(g, o, hit.value)), criteria, step, d);
      }
    }
  }

  /** Testing one cell's array tests exactly the objects of the array other than `g`, in order. */
  lemma {:induction false} CellRunTests(s: Scene, g: Obj, others: seq<Obj>, d: Delegate, cellWidth: real, cellHeight: real)
    requires cellWidth > 0.0 && cellHeight > 0.0
    requires g in s.boxes && forall o :: o in others ==> o in s.boxes
    ensures TestedObjects(CellRun(s, g, others, d, cellWidth, cellHeight).events) == Without(others, g)
    decreases |others|
  {
    if others != [] {
      var init, o := others[..|others| - 1], others[|others| - 1];
      assert others == init + [o];
      CellRunTests(s, g, init, d, cellWidth, cellHeight);
      WithoutAppend(init, [o], g);
      assert Without([o], g) == if o == g then [] else [o];
      if o != g {
        var prev := CellRun(s, g, init, d, cellWidth, cellHeight);
        NeighborTested(prev.scene, g, o, d, cellWidth, cellHeight);
        ReportsAppend(prev.events, NeighborStep(prev.scene, g, o, d, cellWidth, cellHeight).events);
      }
    }
  }

  /** The tests of a moved object that passed `matchCriteria` report no update and have their causes. */
  lemma {:induction false} CellRunJustified(s: Scene, g: Obj, others: seq<Obj>, criteria: Obj -> bool, step: Obj -> Step,
                                            d: Delegate, cellWidth: real, cellHeight: real)
    requires cellWidth > 0.0 && cellHeight > 0.0 && criteria(g) && step(g).moved
    ensures var r := CellRun(s, g, others, d, cellWidth, cellHeight);
      UpdatedObjects(r.events) == [] && forall e :: e in r.events ==> Justified(e, criteria, step, d)
    decreases |others|
  {
    if others != [] {
      var init, o := others[..|others| - 1], others[|others| - 1];
      CellRunJustified(s, g, init, criteria, step, d, cellWidth, cellHeight);
      if o != g {
        var prev := CellRun(s, g, init, d, cellWidth, cellHeight);
        NeighborTested(prev.scene, g, o, d, cellWidth, cellHeight);
        NeighborJustified(prev.scene, g, o, criteria, step, d, cellWidth, cellHeight);
        ReportsAppend(prev.events, NeighborStep(prev.scene, g, o, d, cellWidth, cellHeight).events);
      }
    }
  }

  /** The same over all of `g`'s recorded cells. */
  lemma {:induction false} ObjectRunJustified(s: Scene, g: Obj, cells: seq<Cell>, criteria: Obj -> bool, step: Obj -> Step,
                                              d: Delegate, cellWidth: real, cellHeight: real)
    requires cellWidth > 0.0 && cellHeight > 0.0 && criteria(g) && step(g).moved
    ensures var r := ObjectRun(s, g, cells, d, cellWidth, cellHeight);
      UpdatedObjects(r.events) == [] && forall e :: e in r.events ==> Justified(e, criteria, step, d)
    decreases |cells|
  {
    if cells != [] {
      var init := cells[..|cells| - 1];
      ObjectRunJustified(s, g, init, criteria, step, d, cellWidth, cellHeight);
      var prev := ObjectRun(s, g, init, d, cellWidth, cellHeight);
      var others := ObjectsAt(prev.scene.onCell, cells[|cells| - 1]);
      CellRunJustified(prev.scene, g, others, criteria, step, d, cellWidth, cellHeight);
      ReportsAppend(prev.events, CellRun(prev.scene, g, others, d, cellWidth, cellHeight).events);
    }
  }

  /** An object's turn reports it as updated, first and only, and each of its events has its cause. */
  lemma TurnJustified(s: Scene, g: Obj, criteria: Obj -> bool, step: Obj -> Step, d: Delegate, cellWidth: real, cellHeight: real)
    requires cellWidth > 0.0 && cellHeight > 0.0 && criteria(g)
    ensures var r := UpdateRun(s, g, step, d, cellWidth, cellHeight);
      && r.events[0] == Updated(g) && UpdatedObjects(r.events) == [g]
      && forall e :: e in r.events ==> Justified(e, criteria, step, d)
  {
    assert UpdatedObjects([Updated(g)]) == [g] by {
      assert [Updated(g)][..0] == [];
    }
    if step(g).moved {
      var boxed := Scene(s.boxes[g := step(g).box], s.onCell, s.positions);
      var placed := Regrid(boxed, g, step(g).box, cellWidth, cellHeight);
      var cells := GridPositions(Low(step(g).box, cellWidth, cellHeight), High(step(g).box, cellWidth, cellHeight));
      ObjectRunJustified(placed, g, cells, criteria, step, d, cellWidth, cellHeight);
      ReportsAppend([Updated(g)], ObjectRun(placed, g, cells, d, cellWidth, cellHeight).events);
    }
  }

  /** `update(for:)` keeps the grid's arrays and lists in step. */
  lemma RegridKeepsIndexed(s: Scene, x: Obj, b: A.Aabb, cellWidth: real, cellHeight: real)
    requires cellWidth > 0.0 && cellHeight > 0.0 && RangesOk(b, cellWidth, cellHeight)
    requires Indexed(s.onCell, s.positions)
    ensures var r := Regrid(s, x, b, cellWidth, cellHeight); Indexed(r.onCell, r.positions)
  {
    var lo, hi := Low(b, cellWidth, cellHeight), High(b, cellWidth, cellHeight);
    GridPositionsShape(lo, hi);
    if GridPositions(lo, hi) != RecordedCells(s.positions, x) {
      MoveKeepsIndexed(s.onCell, s.positions, x, GridPositions(lo, hi));
    } else {
      SameListKeepsIndexed(s.onCell, s.positions, x, GridPositions(lo, hi));
    }
  }

  /** When the delegate lets `g` collide with nothing, testing one cell changes nothing. */
  lemma {:induction false} CellRunQuiet(s: Scene, g: Obj, others: seq<Obj>, d: Delegate, cellWidth: real, cellHeight: real)
    requires cellWidth > 0.0 && cellHeight > 0.0 && forall o :: !d.collidable(g, o)
    ensures CellRun(s, g, others, d, cellWidth, cellHeight).scene == s
    decreases |others|
  {
    if others != [] {
      CellRunQuiet(s, g, others[..|others| - 1], d, cellWidth, cellHeight);
    }
  }

  /**
   * When the delegate lets `g` collide with nothing, the grid stays as it
   * is, and the objects tested are exactly those `onNeighbors` hands over.
   */
  lemma {:induction false} ObjectRunQuiet(s: Scene, g: Obj, cells: seq<Cell>, d: Delegate, cellWidth: real, cellHeight: real)
    requires cellWidth > 0.0 && cellHeight > 0.0 && forall o :: !d.collidable(g, o)
    requires g in s.boxes && forall c, o :: o in ObjectsAt(s.onCell, c) ==> o in s.boxes
    ensures var r := ObjectRun(s, g, cells, d, cellWidth, cellHeight);
      r.scene == s && TestedObjects(r.events) == NeighborCalls(s.onCell, cells, g)
    decreases |cells|
  {
    if cells != [] {
      var init := cells[..|cells| - 1];
      ObjectRunQuiet(s, g, init, d, cellWidth, cellHeight);
      var prev := ObjectRun(s, g, init, d, cellWidth, cellHeight);
      var others := ObjectsAt(s.onCell, cells[|cells| - 1]);
      CellRunQuiet(s, g, others, d, cellWidth, cellHeight);
      CellRunTests(s, g, others, d, cellWidth, cellHeight);
      ReportsAppend(prev.events, CellRun(s, g, others, d, cellWidth, cellHeight).events);
    }
  }

  /**
   * The turn of a moved object that collides with nothing: it is
   * re-indexed on exactly the cells under its new box, and every other
   * object is tested against it once for each of those cells it lies on,
   * `g` itself never.
   */
  lemma QuietTurnTestsNeighbors(s: Scene, g: Obj, o: Obj, step: Obj -> Step, d: Delegate, cellWidth: real, cellHeight: real)
    requires cellWidth > 0.0 && cellHeight > 0.0 && RangesOk(step(g).box, cellWidth, cellHeight)
    requires Indexed(s.onCell, s.positions) && s.positions.Keys <= s.boxes.Keys
    requires step(g).moved && forall x :: !d.collidable(g, x)
    ensures var r := UpdateRun(s, g, step, d, cellWidth, cellHeight);
      var cells := GridPositions(Low(step(g).box, cellWidth, cellHeight), High(step(g).box, cellWidth, cellHeight));
      && r.scene.boxes == s.boxes[g := step(g).box]
      && r.scene.positions == s.positions[g := cells]
      && multiset(TestedObjects(r.events))[o] == if o == g then 0 else SharedCount(cells, r.scene.positions, o)
  {
    var boxed := Scene(s.boxes[g := step(g).box], s.onCell, s.positions);
    var placed := Regrid(boxed, g, step(g).box, cellWidth, cellHeight);
    var cells := GridPositions(Low(step(g).box, cellWidth, cellHeight), High(step(g).box, cellWidth, cellHeight));
    RegridKeepsIndexed(boxed, g, step(g).box, cellWidth, cellHeight);
    forall c, x | x in ObjectsAt(placed.onCell, c)
      ensures x in placed.boxes
    {
      CellMemberIsRecorded(placed.onCell, placed.positions, c, x);
    }
    ObjectRunQuiet(placed, g, cells, d, cellWidth, cellHeight);
    var tests := ObjectRun(placed, g, cells, d, cellWidth, cellHeight);
    ReportsAppend([Updated(g)], tests.events);
    assert TestedObjects([Updated(g)]) == [] by {
      assert [Updated(g)][..0] == [];
    }
    NeighborCallsCount(placed.onCell, placed.positions, cells, g, o);
  }
}
