/**
 * The broad-phase collision grid of Sources/GameWorldCollisionGrid.swift.
 *
 * Two dictionaries index the world: cell -> objects on it, and object ->
 * cells last known below it. They are kept as mutual inverses. A per-frame
 * table of performed checks makes `resolve` test each pair once.
 */
module PackageCollisionGrid {
  import opened Wrappers
  import opened Numeric
  import opened LegacyGeometry
  import A = PackageAabb
  import opened GridCells
  import opened Sets

  /** `gameObjectsOnCell`. */
  type CellIndex = map<Cell, set<Obj>>

  /** `lastKnownCellsBelowGameObject`. */
  type ObjectIndex = map<Obj, set<Cell>>

  /** The contact box of each object that has a physics component. */
  type Boxes = map<Obj, A.Aabb>

  /** The objects on a cell; a missing entry reads as none. */
  function ObjectsOn(onCell: CellIndex, c: Cell): set<Obj> {
    if c in onCell then onCell[c] else {}
  }

  /** The cells last known below an object; a missing entry reads as none. */
  function CellsBelow(below: ObjectIndex, o: Obj): set<Cell> {
    if o in below then below[o] else {}
  }

  /** The two indexes are mutual inverses. */
  ghost predicate Inverse(onCell: CellIndex, below: ObjectIndex) {
    forall c: Cell, o: Obj :: o in ObjectsOn(onCell, c) <==> c in CellsBelow(below, o)
  }

  /** `gameObjectsOnCell[c]?.remove(g)` for every `c` in `cells`: cells without an entry stay without one. */
  function Withdrawn(onCell: CellIndex, g: Obj, cells: set<Cell>): CellIndex {
    map c | c in onCell :: if c in cells then onCell[c] - {g} else onCell[c]
  }

  /** Inserting `g` into each cell of `cells`, creating `[g]` where the cell has no entry. */
  function Deposited(onCell: CellIndex, g: Obj, cells: set<Cell>): CellIndex {
    map c | c in onCell.Keys + cells :: if c in cells then ObjectsOn(onCell, c) + {g} else onCell[c]
  }

  /** `updateCellPositions` on the cell index: leave the stale cells, then join the current ones. */
  function Reindexed(onCell: CellIndex, g: Obj, last: set<Cell>, current: set<Cell>): CellIndex {
    Deposited(Withdrawn(onCell, g, last - current), g, current)
  }

  /** Re-indexing one object to `current` keeps the indexes inverse, with `g` on exactly the current cells. */
  lemma ReindexKeepsInverse(onCell: CellIndex, below: ObjectIndex, g: Obj, current: set<Cell>)
    requires Inverse(onCell, below)
    ensures Inverse(Reindexed(onCell, g, CellsBelow(below, g), current), below[g := current])
    ensures forall c :: g in ObjectsOn(Reindexed(onCell, g, CellsBelow(below, g), current), c) <==> c in current
  {
    var r := Reindexed(onCell, g, CellsBelow(below, g), current);
    var b := below[g := current];
    forall c: Cell, o: Obj
      ensures o in ObjectsOn(r, c) <==> c in CellsBelow(b, o)
    {
      assert o in ObjectsOn(onCell, c) <==> c in CellsBelow(below, o);
    }
    assert CellsBelow(b, g) == current;
  }

  /** Re-indexing `g` moves no other object. */
  lemma ReindexMovesOnlyItsObject(onCell: CellIndex, g: Obj, last: set<Cell>, current: set<Cell>, o: Obj, c: Cell)
    requires o != g
    ensures o in ObjectsOn(Reindexed(onCell, g, last, current), c) <==> o in ObjectsOn(onCell, c)
  {
  }

  /** `remove(g)` keeps the indexes inverse and leaves `g` on no cell. */
  lemma RemoveKeepsInverse(onCell: CellIndex, below: ObjectIndex, g: Obj)
    requires Inverse(onCell, below)
    ensures Inverse(Withdrawn(onCell, g, CellsBelow(below, g)), below - {g})
    ensures forall c :: g !in ObjectsOn(Withdrawn(onCell, g, CellsBelow(below, g)), c)
  {
    var r := Withdrawn(onCell, g, CellsBelow(below, g));
    var b := below - {g};
    forall c: Cell, o: Obj
      ensures o in ObjectsOn(r, c) <==> c in CellsBelow(b, o)
    {
      assert o in ObjectsOn(onCell, c) <==> c in CellsBelow(below, o);
    }
    assert CellsBelow(b, g) == {};
  }

  /** `gameObjectsOnCell[c]?.remove(g)`. */
  function Withdraw(onCell: CellIndex, g: Obj, c: Cell): CellIndex {
    if c in onCell then onCell[c := onCell[c] - {g}] else onCell
  }

  /** One more cell withdrawn from. */
  lemma WithdrawnStep(onCell: CellIndex, g: Obj, done: set<Cell>, c: Cell)
    ensures Withdrawn(onCell, g, done + {c}) == Withdraw(Withdrawn(onCell, g, done), g, c)
  {
    var w := Withdrawn(onCell, g, done);
    var lhs, rhs := Withdrawn(onCell, g, done + {c}), Withdraw(w, g, c);
    assert lhs.Keys == rhs.Keys;
    forall k | k in lhs
      ensures lhs[k] == rhs[k]
    {
    }
  }

  /** `if gameObjectsOnCell[c]?.insert(g) == nil { gameObjectsOnCell[c] = [g] }`. */
  function Deposit(onCell: CellIndex, g: Obj, c: Cell): CellIndex {
    if c in onCell then onCell[c := onCell[c] + {g}] else onCell[c := {g}]
  }

  /** One more cell deposited into. */
  lemma DepositedStep(onCell: CellIndex, g: Obj, done: set<Cell>, c: Cell)
    ensures Deposited(onCell, g, done + {c}) == Deposit(Deposited(onCell, g, done), g, c)
  {
    var w := Deposited(onCell, g, done);
    var lhs, rhs := Deposited(onCell, g, done + {c}), Deposit(w, g, c);
    assert lhs.Keys == rhs.Keys;
    forall k | k in lhs
      ensures lhs[k] == rhs[k]
    {
    }
  }

  lemma DepositedNothing(onCell: CellIndex, g: Obj)
    ensures Deposited(onCell, g, {}) == onCell
  {
    var d := Deposited(onCell, g, {});
    assert d.Keys == onCell.Keys;
    forall k | k in d
      ensures d[k] == onCell[k]
    {
    }
  }

  /** `below[g]?.remove(p)`. */
  function Forget(below: ObjectIndex, g: Obj, p: Cell): ObjectIndex {
    if g in below then below[g := below[g] - {p}] else below
  }

  /** `remove(g, from: p)` keeps the indexes inverse and touches no cell other than `p`. */
  lemma RemoveFromKeepsInverse(onCell: CellIndex, below: ObjectIndex, g: Obj, p: Cell)
    requires Inverse(onCell, below)
    ensures Inverse(Withdrawn(onCell, g, {p}), Forget(below, g, p))
    ensures g !in ObjectsOn(Withdrawn(onCell, g, {p}), p)
    ensures forall c :: c != p ==> ObjectsOn(Withdrawn(onCell, g, {p}), c) == ObjectsOn(onCell, c)
    ensures forall o :: o != g ==> CellsBelow(Forget(below, g, p), o) == CellsBelow(below, o)
  {
    var r := Withdrawn(onCell, g, {p});
    var b := Forget(below, g, p);
    forall c: Cell, o: Obj
      ensures o in ObjectsOn(r, c) <==> c in CellsBelow(b, o)
    {
      assert o in ObjectsOn(onCell, c) <==> c in CellsBelow(below, o);
    }
  }

  /** A box whose halfwidths are not negative in the plane. */
  predicate Flat(b: A.Aabb) {
    b.halfwidths.dx >= 0.0 && b.halfwidths.dy >= 0.0
  }

  predicate WellFormed(boxes: Boxes) {
    forall o :: o in boxes ==> Flat(boxes[o])
  }

  /** Such a box never inverts the ranges of `currentCellPositions`. */
  lemma FlatRangesOk(b: A.Aabb, width: real, height: real)
    requires width > 0.0 && height > 0.0 && Flat(b)
    ensures RangesOk(b, width, height)
  {
    DivideMonotone(b.center.x - b.halfwidths.dx, b.center.x + b.halfwidths.dx, width);
    DivideMonotone(b.center.y - b.halfwidths.dy, b.center.y + b.halfwidths.dy, height);
    FloorMonotone((b.center.x - b.halfwidths.dx) / width, (b.center.x + b.halfwidths.dx) / width);
    FloorMonotone((b.center.y - b.halfwidths.dy) / height, (b.center.y + b.halfwidths.dy) / height);
  }

  /** `hasObject(at:)`: some matching object on the point's cell has a contact box containing the point. */
  predicate PointQuery(onCell: CellIndex, width: real, height: real, p: Position, criteria: Obj -> bool, boxes: Boxes)
    requires width > 0.0 && height > 0.0
  {
    exists o :: o in ObjectsOn(onCell, CellOf(p, width, height)) && criteria(o) && o in boxes && A.Contains(boxes[o], p)
  }

  /**
   * The point query misses nothing: a matching object indexed under its
   * current box is found at every point of that box.
   */
  lemma PointQueryFindsIndexedBox(onCell: CellIndex, below: ObjectIndex, width: real, height: real,
                                  p: Position, criteria: Obj -> bool, boxes: Boxes, g: Obj)
    requires width > 0.0 && height > 0.0 && Inverse(onCell, below)
    requires g in boxes && A.Consistent(boxes[g]) && criteria(g) && A.Contains(boxes[g], p)
    requires CellsBelow(below, g) == CellsUnder(boxes[g], width, height)
    ensures PointQuery(onCell, width, height, p, criteria, boxes)
  {
    var b := boxes[g];
    A.ContainsIsWithinHalfwidths(b, p);
    BoxPointIsCovered(b, width, height, p);
    assert g in ObjectsOn(onCell, CellOf(p, width, height));
  }

  /** The point query only reports objects whose box contains the point. */
  lemma PointQuerySound(onCell: CellIndex, width: real, height: real, p: Position, criteria: Obj -> bool, boxes: Boxes)
    requires width > 0.0 && height > 0.0 && PointQuery(onCell, width, height, p, criteria, boxes)
    ensures exists o :: o in boxes && criteria(o) && A.Contains(boxes[o], p)
  {
  }

  // ----- resolve(for:) -----

  /** The collision delegate and the state handlers, as seen by the grid. */
  datatype Delegate = Delegate(
    intersect: (Boxes, Obj, Obj) -> Option<A.Hit>,
    contactable: (Obj, Obj) -> bool,
    collidable: (Obj, Obj) -> bool,
    resolveCollision: (Boxes, Obj, Obj, A.Hit) -> Resolution)

  /** What `resolveCollision` yields: both corrections, and the contact boxes after it moved the objects. */
  datatype Resolution = Resolution(thisCorrection: Vector, otherCorrection: Vector, boxes: Boxes)

  /** The delegate never gives a box negative halfwidths. */
  ghost predicate KeepsWellFormed(d: Delegate) {
    forall boxes, a, b, hit {:trigger d.resolveCollision(boxes, a, b, hit)} ::
      WellFormed(boxes) ==> WellFormed(d.resolveCollision(boxes, a, b, hit).boxes)
  }

  /**
   * What `resolve` does, in order: re-indexing an object on the cells under
   * its box, reading the set of objects on a cell, testing a pair, and the
   * handler calls.
   */
  datatype Event =
    | Moved(obj: Obj, cells: set<Cell>)
    | Scanned(cell: Cell, objects: set<Obj>)
    | Tested(other: Obj)
    | Contact(self: Obj, other: Obj)
    | Collision(self: Obj, other: Obj, correction: Vector)

  /**
   * One step of `resolve(for:)` after the re-indexing of the object: a
   * cell read with the objects found on it, or a pair that was tested
   * (pairs skipped by the guard leave no step).
   */
  datatype Action = Read(cell: Cell, objects: set<Obj>) | Pair(other: Obj)

  /** The objects tested, in order. */
  function Tests(events: seq<Event>): (r: seq<Obj>)
    ensures |r| <= |events|
  {
    if events == [] then []
    else (if events[0].Tested? then [events[0].other] else []) + Tests(events[1..])
  }

  /** `Tests` lists exactly the objects of the `Tested` events. */
  lemma {:induction false} TestsAreTested(events: seq<Event>)
    ensures forall n :: n in Tests(events) <==> Tested(n) in events
    decreases |events|
  {
    if events != [] {
      TestsAreTested(events[1..]);
      assert events == [events[0]] + events[1..];
    }
  }

  lemma {:induction false} TestsAppend(a: seq<Event>, b: seq<Event>)
    ensures Tests(a + b) == Tests(a) + Tests(b)
    decreases |a|
  {
    if a == [] {
      assert a + b == b;
    } else {
      var head := if a[0].Tested? then [a[0].other] else [];
      assert (a + b)[0] == a[0];
      assert (a + b)[1..] == a[1..] + b;
      calc {
        Tests(a + b);
        head + Tests(a[1..] + b);
        { TestsAppend(a[1..], b); }
        head + (Tests(a[1..]) + Tests(b));
        Tests(a) + Tests(b);
      }
    }
  }

  /** The objects tested, as a set. */
  function TestedSet(events: seq<Event>): set<Obj> {
    set n | n in Tests(events)
  }

  lemma TestedSetAppend(a: seq<Event>, b: seq<Event>)
    ensures TestedSet(a + b) == TestedSet(a) + TestedSet(b)
    ensures TestedSet([]) == {}
  {
    TestsAppend(a, b);
  }

  /** Events none of which is a pair test test nothing. */
  lemma {:induction false} Untested(events: seq<Event>)
    requires forall i :: 0 <= i < |events| ==> !events[i].Tested?
    ensures Tests(events) == []
    decreases |events|
  {
    if events != [] {
      Untested(events[1..]);
    }
  }

  /** The `i`th and `j`th elements differ. */
  predicate Differ(s: seq<Obj>, i: nat, j: nat)
    requires i < |s| && j < |s|
  {
    s[i] != s[j]
  }

  predicate NoRepeats(s: seq<Obj>) {
    forall i, j :: 0 <= i < j < |s| ==> Differ(s, i, j)
  }

  /**
   * While `resolve(for: g)` runs: the checks table is the one it started
   * from with `g`'s entry holding `g` and every neighbour tested so far, no
   * neighbour has been tested twice or against itself, and none had already
   * checked `g` when the run started.
   */
  ghost predicate Recorded(checks: map<Obj, set<Obj>>, g: Obj, before: map<Obj, set<Obj>>, events: seq<Event>) {
    && checks == before[g := {g} + TestedSet(events)]
    && g !in Tests(events)
    && NoRepeats(Tests(events))
    && forall n :: n in Tests(events) ==> !(n in before && g in before[n])
  }

  /** Appending an element not yet present keeps a sequence free of repeats. */
  lemma NoRepeatsAppend(s: seq<Obj>, n: Obj)
    requires NoRepeats(s) && n !in s
    ensures NoRepeats(s + [n])
  {
    var t := s + [n];
    forall i, j | 0 <= i < j < |t|
      ensures Differ(t, i, j)
    {
      if j == |s| {
        assert t[i] == s[i];
      } else {
        assert Differ(s, i, j);
      }
    }
  }

  /** Recording a neighbour that neither side has checked yet keeps the bookkeeping. */
  lemma RecordKeepsBookkeeping(checks: map<Obj, set<Obj>>, g: Obj, n: Obj, before: map<Obj, set<Obj>>,
                               done: seq<Event>, events: seq<Event>)
    requires Recorded(checks, g, before, done) && Tests(events) == [n]
    requires n !in checks[g] && !(n in checks && g in checks[n])
    ensures Recorded(checks[g := checks[g] + {n}], g, before, done + events)
  {
    TestsAppend(done, events);
    TestedSetAppend(done, events);
    var t := Tests(done + events);
    assert t == Tests(done) + [n];
    assert TestedSet(events) == {n} by {
      assert n in Tests(events);
    }
    assert checks[g] == {g} + TestedSet(done);
    assert checks[g] + {n} == {g} + TestedSet(done + events);
    assert checks[g := checks[g] + {n}] == before[g := {g} + TestedSet(done + events)];
    assert n !in Tests(done) by {
      assert TestedSet(done) <= checks[g];
    }
    NoRepeatsAppend(Tests(done), n);
    assert forall m :: m in t ==> m in Tests(done) || m == n;
  }

  /** The cells recorded below each object after one event: re-indexing records its object's new cells; no other event touches them. */
  function Apply(below: ObjectIndex, e: Event): ObjectIndex {
    if e.Moved? then below[e.obj := e.cells] else below
  }

  /** The cells recorded below each object after a run of events. */
  function Replay(below: ObjectIndex, events: seq<Event>): ObjectIndex
    decreases |events|
  {
    if events == [] then below else Apply(Replay(below, events[..|events| - 1]), events[|events| - 1])
  }

  /** Replaying a joined run is replaying its second part after its first. */
  lemma {:induction false} ReplayAppend(s: ObjectIndex, a: seq<Event>, b: seq<Event>)
    ensures Replay(s, a + b) == Replay(Replay(s, a), b)
    decreases |b|
  {
    if b == [] {
      assert a + b == a;
    } else {
      assert (a + b)[..|a + b| - 1] == a + b[..|b| - 1];
      ReplayAppend(s, a, b[..|b| - 1]);
    }
  }

  /** The objects whose recorded cells include `c`. */
  function Occupants(below: ObjectIndex, c: Cell): set<Obj> {
    set o | o in below && c in below[o]
  }

  /** While the indexes are inverse, a cell's entry holds exactly its occupants. */
  lemma OccupantsMirror(onCell: CellIndex, below: ObjectIndex, c: Cell)
    requires Inverse(onCell, below)
    ensures ObjectsOn(onCell, c) == Occupants(below, c)
  {
    forall o
      ensures o in ObjectsOn(onCell, c) <==> o in Occupants(below, c)
    {
      assert o in ObjectsOn(onCell, c) <==> c in CellsBelow(below, o);
    }
  }

  /** Replaying one event applies it; a run without re-indexing leaves the tables alone. */
  lemma {:induction false} ReplayQuiet(s: ObjectIndex, events: seq<Event>)
    ensures |events| == 1 ==> Replay(s, events) == Apply(s, events[0])
    ensures (forall i :: 0 <= i < |events| ==> !events[i].Moved?) ==> Replay(s, events) == s
    decreases |events|
  {
    if events != [] {
      ReplayQuiet(s, events[..|events| - 1]);
    }
  }

  /** Every cell's set of objects was read from the tables as they stood at that point of the run. */
  ghost predicate ScansFaithful(s: ObjectIndex, events: seq<Event>)
    decreases |events|
  {
    events != [] ==>
      var prefix, e := events[..|events| - 1], events[|events| - 1];
      && ScansFaithful(s, prefix)
      && (e.Scanned? ==> e.objects == Occupants(Replay(s, prefix), e.cell))
  }

  /** The cells read. */
  function ScanCells(events: seq<Event>): set<Cell>
    decreases |events|
  {
    if events == [] then {}
    else
      var e := events[|events| - 1];
      ScanCells(events[..|events| - 1]) + (if e.Scanned? then {e.cell} else {})
  }

  /** The objects found on the cells read. */
  function ScannedObjects(events: seq<Event>): set<Obj>
    decreases |events|
  {
    if events == [] then {}
    else
      var e := events[|events| - 1];
      ScannedObjects(events[..|events| - 1]) + (if e.Scanned? then e.objects else {})
  }

  /** No cell is read twice. */
  predicate ScansDistinct(events: seq<Event>)
    decreases |events|
  {
    events != [] ==>
      var prefix, e := events[..|events| - 1], events[|events| - 1];
      ScansDistinct(prefix) && (e.Scanned? ==> e.cell !in ScanCells(prefix))
  }

  predicate NoScans(events: seq<Event>) {
    forall i :: 0 <= i < |events| ==> !events[i].Scanned?
  }

  /** Events that read no cell keep the reads faithful and distinct, and add no cell or object read. */
  lemma {:induction false} ScansAppend(s: ObjectIndex, a: seq<Event>, b: seq<Event>)
    requires NoScans(b)
    ensures ScansFaithful(s, a) ==> ScansFaithful(s, a + b)
    ensures ScansDistinct(a) ==> ScansDistinct(a + b)
    ensures ScanCells(a + b) == ScanCells(a) && ScannedObjects(a + b) == ScannedObjects(a)
    decreases |b|
  {
    if b == [] {
      assert a + b == a;
    } else {
      var b' := b[..|b| - 1];
      assert (a + b)[..|a + b| - 1] == a + b';
      assert (a + b)[|a + b| - 1] == b[|b| - 1];
      ScansAppend(s, a, b');
    }
  }

  /** Reading cell `c` from the current tables: the read is faithful, the tables stay, and `c` and its objects join what was read. */
  lemma ScanStep(s: ObjectIndex, a: seq<Event>, c: Cell)
    ensures var e := Scanned(c, Occupants(Replay(s, a), c));
      && (ScansFaithful(s, a) ==> ScansFaithful(s, a + [e]))
      && Replay(s, a + [e]) == Replay(s, a)
      && ScanCells(a + [e]) == ScanCells(a) + {c}
      && ScannedObjects(a + [e]) == ScannedObjects(a) + e.objects
      && (ScansDistinct(a) && c !in ScanCells(a) ==> ScansDistinct(a + [e]))
  {
    var e := Scanned(c, Occupants(Replay(s, a), c));
    assert (a + [e])[..|a|] == a;
  }

  /** The objects whose own `resolve` in this frame already checked `g`. */
  function CheckedBy(checks: map<Obj, set<Obj>>, g: Obj): set<Obj> {
    set n | n in checks && g in checks[n]
  }

  /** While `resolve(for: g)` runs, a pair counts as checked exactly when `resolve` skips it. */
  lemma SkipWhenChecked(checks: map<Obj, set<Obj>>, g: Obj, n: Obj, before: map<Obj, set<Obj>>, done: seq<Event>)
    requires Recorded(checks, g, before, done)
    ensures (n in checks[g] || (n in checks && g in checks[n])) <==>
            (n == g || n in TestedSet(done) || n in CheckedBy(before, g))
  {
  }

  /**
   * While `resolve(for: g)` runs: the checks table is kept as `Recorded`
   * says, the recorded cells are the starting ones with the re-indexing so
   * far applied, and every cell read so far was read as it then stood.
   */
  ghost predicate Running(checks: map<Obj, set<Obj>>, below: ObjectIndex, g: Obj, before: map<Obj, set<Obj>>,
                          start: ObjectIndex, events: seq<Event>) {
    && Recorded(checks, g, before, events)
    && below == Replay(start, events)
    && ScansFaithful(start, events)
  }

  /** Every object read so far was tested, except `g` and those whose own resolve already checked `g`. */
  ghost predicate Complete(g: Obj, before: map<Obj, set<Obj>>, events: seq<Event>) {
    TestedSet(events) == ScannedObjects(events) - {g} - CheckedBy(before, g)
  }

  /**
   * The outer loop of `resolve(for: g)`: the run began with `head`, the
   * cells read so far and the cells still to read (`left`) make up `all`,
   * no cell was read twice, and the run is `Complete`.
   */
  ghost predicate Progress(g: Obj, before: map<Obj, set<Obj>>, head: seq<Event>, events: seq<Event>,
                           left: set<Cell>, all: set<Cell>) {
    && |head| <= |events| && events[..|head|] == head
    && ScanCells(events) + left == all && ScanCells(events) !! left
    && ScansDistinct(events)
    && Complete(g, before, events)
  }

  /** Cell `c` may be read next after `done`. */
  ghost predicate Ready(g: Obj, before: map<Obj, set<Obj>>, done: seq<Event>, c: Cell) {
    ScansDistinct(done) && c !in ScanCells(done) && Complete(g, before, done)
  }

  /** The run `trace` extends `done` by reading `c` and checking its objects. */
  ghost predicate CellDone(g: Obj, before: map<Obj, set<Obj>>, done: seq<Event>, c: Cell, trace: seq<Event>) {
    && |done| < |trace| && trace[..|done|] == done
    && ScansDistinct(trace) && ScanCells(trace) == ScanCells(done) + {c}
    && Complete(g, before, trace)
  }

  /**
   * The inner loop, while the objects read on `c` are checked: `seen` have
   * been checked and `left` remain.
   */
  ghost predicate CellProgress(g: Obj, before: map<Obj, set<Obj>>, done: seq<Event>, c: Cell, trace: seq<Event>,
                               seen: set<Obj>, left: set<Obj>) {
    && |done| < |trace| && trace[..|done|] == done
    && ScanCells(trace) == ScanCells(done) + {c}
    && Scanning(g, before, trace, seen, left)
  }

  /** The run starts with `head`, which reads no cell and tests nothing. */
  lemma ProgressStarts(g: Obj, before: map<Obj, set<Obj>>, head: seq<Event>, all: set<Cell>)
    requires NoScans(head) && Tests(head) == []
    ensures Progress(g, before, head, head, all, all)
  {
    ScansAppend(map[], [], head);
    assert [] + head == head;
    assert TestedSet(head) == {};
  }

  /** A cell still to read is ready to be read. */
  lemma ProgressReady(g: Obj, before: map<Obj, set<Obj>>, head: seq<Event>, events: seq<Event>,
                      left: set<Cell>, all: set<Cell>, c: Cell)
    requires Progress(g, before, head, events, left, all) && c in left
    ensures Ready(g, before, events, c)
  {
  }

  /** Reading and checking one more cell keeps `Progress`. */
  lemma ProgressStep(g: Obj, before: map<Obj, set<Obj>>, head: seq<Event>, done: seq<Event>, events: seq<Event>,
                     left: set<Cell>, all: set<Cell>, c: Cell)
    requires Progress(g, before, head, done, left, all) && c in left && CellDone(g, before, done, c, events)
    ensures Progress(g, before, head, events, left - {c}, all)
  {
    assert events[..|head|] == done[..|head|];
  }

  /** With no cell left, every cell of `all` was read. */
  lemma ProgressEnds(g: Obj, before: map<Obj, set<Obj>>, head: seq<Event>, events: seq<Event>, all: set<Cell>)
    requires Progress(g, before, head, events, {}, all)
    ensures ScanCells(events) == all
  {
    assert ScanCells(events) + {} == ScanCells(events);
  }

  /** With no object left on the cell, the cell is done. */
  lemma CellEnds(g: Obj, before: map<Obj, set<Obj>>, done: seq<Event>, c: Cell, trace: seq<Event>, seen: set<Obj>)
    requires CellProgress(g, before, done, c, trace, seen, {})
    ensures CellDone(g, before, done, c, trace)
  {
    assert seen + {} == seen;
  }

  /** Reading cell `c` from the current tables starts checking its objects and keeps the run `Running`. */
  lemma ReadKeepsState(checks: map<Obj, set<Obj>>, g: Obj, before: map<Obj, set<Obj>>, start: ObjectIndex,
                       done: seq<Event>, c: Cell, now: ObjectIndex)
    requires Running(checks, now, g, before, start, done) && Ready(g, before, done, c)
    ensures var t := done + [Scanned(c, Occupants(now, c))];
      && Running(checks, now, g, before, start, t)
      && CellProgress(g, before, done, c, t, ScannedObjects(done), Occupants(now, c))
  {
    var e := Scanned(c, Occupants(now, c));
    ScanStep(start, done, c);
    Untested([e]);
    TestsAppend(done, [e]);
    assert Tests(done + [e]) == Tests(done);
    TestedSetAppend(done, [e]);
    assert TestedSet([e]) == {};
    assert TestedSet(done + [e]) == TestedSet(done);
    assert (done + [e])[..|done|] == done;
  }

  /** A pair test, with what follows it, keeps the state of the run. */
  lemma PairKeepsState(checks: map<Obj, set<Obj>>, g: Obj, n: Obj, before: map<Obj, set<Obj>>, start: ObjectIndex,
                       done: seq<Event>, events: seq<Event>, now: ObjectIndex)
    requires Recorded(checks, g, before, done) && ScansFaithful(start, done)
    requires Tests(events) == [n] && NoScans(events)
    requires n !in checks[g] && !(n in checks && g in checks[n])
    requires now == Replay(Replay(start, done), events)
    ensures Recorded(checks[g := checks[g] + {n}], g, before, done + events)
    ensures now == Replay(start, done + events) && ScansFaithful(start, done + events)
  {
    RecordKeepsBookkeeping(checks, g, n, before, done, events);
    ReplayAppend(start, done, events);
    ScansAppend(start, done, events);
  }

  /**
   * While the objects on one cell are checked: no cell has been read twice,
   * the objects read are those checked so far (`seen`) and those still to
   * check (`left`), and the objects tested are those checked so far, less
   * `g` and those whose own resolve already checked `g`.
   */
  ghost predicate Scanning(g: Obj, before: map<Obj, set<Obj>>, trace: seq<Event>, seen: set<Obj>, left: set<Obj>) {
    && ScansDistinct(trace)
    && ScannedObjects(trace) == seen + left
    && TestedSet(trace) == seen - {g} - CheckedBy(before, g)
  }

  /** Checking one more object `n` on the cell keeps `CellProgress`, whether the pair was skipped or tested. */
  lemma CellStep(g: Obj, n: Obj, before: map<Obj, set<Obj>>, done: seq<Event>, c: Cell, trace: seq<Event>,
                 more: seq<Event>, seen: set<Obj>, left: set<Obj>)
    requires CellProgress(g, before, done, c, trace, seen, left) && n in left && NoScans(more)
    requires n == g || n in TestedSet(trace) || n in CheckedBy(before, g) ==> more == []
    requires !(n == g || n in TestedSet(trace) || n in CheckedBy(before, g)) ==> Tests(more) == [n]
    ensures CellProgress(g, before, done, c, trace + more, seen + {n}, left - {n})
  {
    ScansAppend(map[], trace, more);
    TestedSetAppend(trace, more);
    if more != [] {
      assert TestedSet(more) == {n} by {
        assert n in Tests(more);
      }
    }
    assert (trace + more)[..|done|] == trace[..|done|];
  }

  /** The objects a run of steps has tested. */
  function Paired(actions: seq<Action>): set<Obj>
    decreases |actions|
  {
    if actions == [] then {}
    else
      var before := Paired(actions[..|actions| - 1]);
      match actions[|actions| - 1]
      case Read(_, _) => before
      case Pair(n) => before + {n}
  }

  /** The objects of the last cell read, when a cell has been read. */
  function Open(actions: seq<Action>): Option<set<Obj>>
    decreases |actions|
  {
    if actions == [] then None
    else
      match actions[|actions| - 1]
      case Read(_, objects) => Some(objects)
      case Pair(_) => Open(actions[..|actions| - 1])
  }

  /**
   * The last cell read has had all its objects tested, except `g` and the
   * `skip`ped ones (those whose own resolve already checked `g`).
   */
  predicate Closed(g: Obj, skip: set<Obj>, actions: seq<Action>) {
    Open(actions).None? || Open(actions).value - {g} - skip <= Paired(actions)
  }

  /**
   * The steps have the shape of the nested `forEach`: each pair test is of
   * an object of the cell read last, neither `g` nor skipped nor tested
   * before; and a cell is read only once the previous one is `Closed`.
   */
  predicate Nested(g: Obj, skip: set<Obj>, actions: seq<Action>)
    decreases |actions|
  {
    if actions == [] then true
    else
      var prefix := actions[..|actions| - 1];
      && Nested(g, skip, prefix)
      && match actions[|actions| - 1]
         case Read(_, _) => Closed(g, skip, prefix)
         case Pair(n) => Open(prefix).Some? && n in Open(prefix).value && n != g && n !in skip && n !in Paired(prefix)
  }

  /** A read after a closed block keeps the shape and opens a block for its objects. */
  lemma NestedRead(g: Obj, skip: set<Obj>, actions: seq<Action>, c: Cell, objects: set<Obj>)
    requires Nested(g, skip, actions) && Closed(g, skip, actions)
    ensures var next := actions + [Read(c, objects)];
      Nested(g, skip, next) && Open(next) == Some(objects) && Paired(next) == Paired(actions)
  {
    assert (actions + [Read(c, objects)])[..|actions|] == actions;
  }

  /** Testing an untested, unskipped object of the open block keeps the shape. */
  lemma NestedPair(g: Obj, skip: set<Obj>, actions: seq<Action>, n: Obj)
    requires Nested(g, skip, actions) && Open(actions).Some? && n in Open(actions).value
    requires n != g && n !in skip && n !in Paired(actions)
    ensures var next := actions + [Pair(n)];
      Nested(g, skip, next) && Open(next) == Open(actions) && Paired(next) == Paired(actions) + {n}
  {
    assert (actions + [Pair(n)])[..|actions|] == actions;
  }

  /** The open block is the last read, with only pair tests after it. */
  lemma {:induction false} OpenIsLastRead(actions: seq<Action>)
    requires Open(actions).Some?
    ensures exists j :: 0 <= j < |actions| && actions[j].Read? && actions[j].objects == Open(actions).value
                        && forall k :: j < k < |actions| ==> actions[k].Pair?
    decreases |actions|
  {
    var prefix := actions[..|actions| - 1];
    if actions[|actions| - 1].Pair? {
      OpenIsLastRead(prefix);
      var j :| 0 <= j < |prefix| && prefix[j].Read? && prefix[j].objects == Open(prefix).value
               && forall k :: j < k < |prefix| ==> prefix[k].Pair?;
      assert actions[j] == prefix[j];
      assert forall k :: j < k < |actions| - 1 ==> actions[k] == prefix[k];
    } else {
      assert actions[|actions| - 1].Read?;
    }
  }

  /**
   * In a run of the nested shape, every pair test follows the read of a
   * cell holding that object, with no other read in between.
   */
  lemma {:induction false} PairFollowsItsRead(g: Obj, skip: set<Obj>, actions: seq<Action>, i: int)
    requires Nested(g, skip, actions) && 0 <= i < |actions| && actions[i].Pair?
    ensures exists j :: 0 <= j < i && actions[j].Read? && actions[i].other in actions[j].objects
                        && forall k :: j < k < i ==> actions[k].Pair?
    decreases |actions|
  {
    var prefix := actions[..|actions| - 1];
    if i < |actions| - 1 {
      PairFollowsItsRead(g, skip, prefix, i);
      var j :| 0 <= j < i && prefix[j].Read? && prefix[i].other in prefix[j].objects
               && forall k :: j < k < i ==> prefix[k].Pair?;
      assert actions[j] == prefix[j] && actions[i] == prefix[i];
      assert forall k :: j < k < i ==> actions[k] == prefix[k];
    } else {
      OpenIsLastRead(prefix);
      var j :| 0 <= j < |prefix| && prefix[j].Read? && prefix[j].objects == Open(prefix).value
               && forall k :: j < k < |prefix| ==> prefix[k].Pair?;
      assert actions[j] == prefix[j];
      assert forall k :: j < k < i ==> actions[k] == prefix[k];
    }
  }

  /** A test cannot come before the read of the cell its object was found on. */
  lemma TestBeforeReadIsNotNested(g: Obj, skip: set<Obj>, n: Obj, c: Cell, objects: set<Obj>)
    ensures !Nested(g, skip, [Pair(n), Read(c, objects)])
  {
    assert [Pair(n), Read(c, objects)][..1] == [Pair(n)];
    assert [Pair(n)][..0] == [];
  }

  /** The steps are `prior`, then the read of `c` finding `objects`, then pair tests only. */
  predicate Block(prior: seq<Action>, c: Cell, objects: set<Obj>, actions: seq<Action>) {
    && |prior| < |actions| && actions[..|prior| + 1] == prior + [Read(c, objects)]
    && forall k :: |prior| < k < |actions| ==> actions[k].Pair?
  }

  /** A pair test extends the cell's block. */
  lemma BlockGrows(prior: seq<Action>, c: Cell, objects: set<Obj>, actions: seq<Action>, n: Obj)
    requires Block(prior, c, objects, actions)
    ensures Block(prior, c, objects, actions + [Pair(n)])
  {
    assert (actions + [Pair(n)])[..|prior| + 1] == actions[..|prior| + 1];
  }

  /**
   * While the objects of the cell read last are checked: the steps have
   * the nested shape, and of `objects`, those no longer `left` are `g`,
   * skipped or tested.
   */
  predicate InCell(g: Obj, skip: set<Obj>, actions: seq<Action>, objects: set<Obj>, left: set<Obj>) {
    && Nested(g, skip, actions) && Open(actions) == Some(objects)
    && left <= objects && objects - left - {g} - skip <= Paired(actions)
  }

  /** Reading a cell after a closed block starts checking its objects, with the tests still matching the steps. */
  lemma InCellStarts(g: Obj, skip: set<Obj>, actions: seq<Action>, trace: seq<Event>, c: Cell, objects: set<Obj>)
    requires Nested(g, skip, actions) && Closed(g, skip, actions) && TestedSet(trace) == Paired(actions)
    ensures InCell(g, skip, actions + [Read(c, objects)], objects, objects)
    ensures TestedSet(trace + [Scanned(c, objects)]) == Paired(actions + [Read(c, objects)])
  {
    NestedRead(g, skip, actions, c, objects);
    TestedSetAppend(trace, [Scanned(c, objects)]);
    Untested([Scanned(c, objects)]);
    assert TestedSet([Scanned(c, objects)]) == {};
  }

  /** One more object of the cell, skipped or tested, keeps `InCell`. */
  lemma InCellStep(g: Obj, skip: set<Obj>, actions: seq<Action>, objects: set<Obj>, left: set<Obj>, n: Obj,
                   trace: seq<Event>, more: seq<Event>, actions': seq<Action>)
    requires InCell(g, skip, actions, objects, left) && TestedSet(trace) == Paired(actions) && n in left
    requires n == g || n in TestedSet(trace) || n in skip ==> more == [] && actions' == actions
    requires !(n == g || n in TestedSet(trace) || n in skip) ==> Tests(more) == [n] && actions' == actions + [Pair(n)]
    ensures InCell(g, skip, actions', objects, left - {n}) && TestedSet(trace + more) == Paired(actions')
  {
    TestedSetAppend(trace, more);
    if n == g || n in TestedSet(trace) || n in skip {
      assert trace + more == trace;
    } else {
      NestedPair(g, skip, actions, n);
      assert TestedSet(more) == {n} by {
        assert n in Tests(more);
      }
    }
  }

  /** Between cells: the steps have the nested shape, the last block is closed, and the tests are those of the steps. */
  predicate Shaped(g: Obj, skip: set<Obj>, actions: seq<Action>, trace: seq<Event>) {
    Nested(g, skip, actions) && Closed(g, skip, actions) && TestedSet(trace) == Paired(actions)
  }

  /** With no object left, the cell's block is closed. */
  lemma InCellEnds(g: Obj, skip: set<Obj>, actions: seq<Action>, objects: set<Obj>)
    requires InCell(g, skip, actions, objects, {})
    ensures Nested(g, skip, actions) && Closed(g, skip, actions)
  {
    assert objects - {} == objects;
  }

  const Zero: Vector := Vector(0.0, 0.0, 0.0)

  function BoxOf(boxes: Boxes, o: Obj): Option<A.Aabb> {
    if o in boxes then Some(boxes[o]) else None
  }

  /** `forEach { gameObjectsOnCell[$0]?.remove(g) }` over `cells`, in any order. */
  method WithdrawAll(onCell: CellIndex, g: Obj, cells: set<Cell>) returns (r: CellIndex)
    ensures r == Withdrawn(onCell, g, cells)
  {
    r := onCell;
    var todo := cells;
    ghost var done: set<Cell> := {};
    while todo != {}
      invariant done + todo == cells
      invariant r == Withdrawn(onCell, g, done)
      decreases |todo|
    {
      var c := Pick(todo);
      WithdrawnStep(onCell, g, done, c);
      r := Withdraw(r, g, c);
      todo, done := todo - {c}, done + {c};
    }
  }

  /** `forEach` over `cells`: insert `g`, or create the entry `[g]`. */
  method DepositAll(onCell: CellIndex, g: Obj, cells: set<Cell>) returns (r: CellIndex)
    ensures r == Deposited(onCell, g, cells)
  {
    r := onCell;
    var todo := cells;
    ghost var done: set<Cell> := {};
    DepositedNothing(onCell, g);
    while todo != {}
      invariant done + todo == cells
      invariant r == Deposited(onCell, g, done)
      decreases |todo|
    {
      var c := Pick(todo);
      DepositedStep(onCell, g, done, c);
      r := Deposit(r, g, c);
      todo, done := todo - {c}, done + {c};
    }
  }

  // ----- nextObject(between:and:) -----

  /** No cell of `cells` before index `k` holds a candidate. */
  predicate MissedBefore(onCell: CellIndex, cells: seq<Cell>, k: int, criteria: Obj -> bool, boxes: Boxes, ray: A.Ray)
    requires k <= |cells|
  {
    forall i :: 0 <= i < k ==> !CellHasHit(ObjectsOn(onCell, cells[i]), criteria, boxes, ray)
  }

  /** A cell without a candidate after cells without one extends the run of misses. */
  lemma MissedNext(onCell: CellIndex, cells: seq<Cell>, k: int, criteria: Obj -> bool, boxes: Boxes, ray: A.Ray)
    requires 0 <= k < |cells| && MissedBefore(onCell, cells, k, criteria, boxes, ray)
    requires !CellHasHit(ObjectsOn(onCell, cells[k]), criteria, boxes, ray)
    ensures MissedBefore(onCell, cells, k + 1, criteria, boxes, ray)
  {
  }

  /**
   * What `nextObject` returns for the walk `cells`: nil when no cell holds a
   * candidate; otherwise a nearest candidate (under `ranking`) of the first
   * cell that holds one, with its hit point.
   */
  predicate FirstHit(r: Option<(Obj, Vector)>, onCell: CellIndex, cells: seq<Cell>, criteria: Obj -> bool,
                     boxes: Boxes, ray: A.Ray, ranking: Ranking)
  {
    && (r.None? <==> MissedBefore(onCell, cells, |cells|, criteria, boxes, ray))
    && (r.Some? ==>
          exists k :: 0 <= k < |cells| && MissedBefore(onCell, cells, k, criteria, boxes, ray)
                      && NearestIn(r, ObjectsOn(onCell, cells[k]), criteria, boxes, ray, ranking))
  }

  /** The nearest candidate of the first cell that holds one is a first hit. */
  lemma HitAt(onCell: CellIndex, cells: seq<Cell>, k: int, criteria: Obj -> bool, boxes: Boxes, ray: A.Ray,
              ranking: Ranking, r: Option<(Obj, Vector)>)
    requires 0 <= k < |cells| && MissedBefore(onCell, cells, k, criteria, boxes, ray)
    requires r.Some? && NearestIn(r, ObjectsOn(onCell, cells[k]), criteria, boxes, ray, ranking)
    ensures FirstHit(r, onCell, cells, criteria, boxes, ray, ranking)
  {
    assert !MissedBefore(onCell, cells, |cells|, criteria, boxes, ray) by {
      assert CellHasHit(ObjectsOn(onCell, cells[k]), criteria, boxes, ray);
    }
  }

  /**
   * The ranking decides only which candidate of the cell is returned: under
   * any two rankings the walk stops at the same cell, so both return nil or
   * both return a candidate of that cell.
   */
  lemma RankingsStopAtSameCell(r1: Option<(Obj, Vector)>, r2: Option<(Obj, Vector)>, onCell: CellIndex, cells: seq<Cell>,
                               criteria: Obj -> bool, boxes: Boxes, ray: A.Ray, ranking1: Ranking, ranking2: Ranking)
    requires FirstHit(r1, onCell, cells, criteria, boxes, ray, ranking1)
    requires FirstHit(r2, onCell, cells, criteria, boxes, ray, ranking2)
    ensures r1.None? <==> r2.None?
    ensures r1.Some? ==> exists k :: 0 <= k < |cells| && MissedBefore(onCell, cells, k, criteria, boxes, ray)
                                   && r1.value.0 in ObjectsOn(onCell, cells[k]) && r2.value.0 in ObjectsOn(onCell, cells[k])
  {
    if r1.Some? {
      var k1 :| 0 <= k1 < |cells| && MissedBefore(onCell, cells, k1, criteria, boxes, ray)
                && NearestIn(r1, ObjectsOn(onCell, cells[k1]), criteria, boxes, ray, ranking1);
      var k2 :| 0 <= k2 < |cells| && MissedBefore(onCell, cells, k2, criteria, boxes, ray)
                && NearestIn(r2, ObjectsOn(onCell, cells[k2]), criteria, boxes, ray, ranking2);
      assert k1 == k2;
    }
  }

  /** A returned object's box contains its hit point, which lies ahead of the start on the segment's line. */
  lemma FirstHitIsOnItsBox(r: Option<(Obj, Vector)>, onCell: CellIndex, cells: seq<Cell>, criteria: Obj -> bool,
                           boxes: Boxes, ray: A.Ray, ranking: Ranking)
    requires FirstHit(r, onCell, cells, criteria, boxes, ray, ranking) && r.Some?
    requires forall o :: o in boxes ==> A.Proper(boxes[o])
    ensures r.value.0 in boxes && criteria(r.value.0)
    ensures var t := HitParameter(r.value.0, boxes, ray);
      t >= 0.0 && r.value.1 == A.PointAt(ray, t) && A.InsideTested(boxes[r.value.0], ray, true, t)
  {
    var k :| 0 <= k < |cells| && MissedBefore(onCell, cells, k, criteria, boxes, ray)
              && NearestIn(r, ObjectsOn(onCell, cells[k]), criteria, boxes, ray, ranking);
    var o := r.value.0;
    HitDisplacement(o, boxes, ray);
    A.RayHitIsInside(boxes[o], ray, true);
  }

  /** `r` is what the per-cell search yields for `cands`: nil without a candidate, else a nearest one and its hit point. */
  predicate NearestIn(r: Option<(Obj, Vector)>, cands: set<Obj>, criteria: Obj -> bool, boxes: Boxes, ray: A.Ray, ranking: Ranking) {
    && (r.None? <==> !CellHasHit(cands, criteria, boxes, ray))
    && (r.Some? ==> IsNearest(ranking, r.value.0, cands, criteria, boxes, ray) && r.value.1 == HitOf(r.value.0, boxes, ray))
  }

  /** A candidate `o` that does not rank strictly lower than the one kept leaves the search's result standing. */
  lemma NearestKept(r: Option<(Obj, Vector)>, done: set<Obj>, o: Obj, criteria: Obj -> bool, boxes: Boxes, ray: A.Ray, ranking: Ranking)
    requires NearestIn(r, done, criteria, boxes, ray, ranking)
    requires !(Candidate(o, criteria, boxes, ray) && (r.None? || Rank(ranking, o, boxes, ray) < Rank(ranking, r.value.0, boxes, ray)))
    ensures NearestIn(r, done + {o}, criteria, boxes, ray, ranking)
  {
  }

  /** A candidate `o` that ranks strictly lower, or is the first, becomes the result. */
  lemma NearestReplaced(r: Option<(Obj, Vector)>, done: set<Obj>, o: Obj, criteria: Obj -> bool, boxes: Boxes, ray: A.Ray, ranking: Ranking)
    requires NearestIn(r, done, criteria, boxes, ray, ranking)
    requires Candidate(o, criteria, boxes, ray) && (r.None? || Rank(ranking, o, boxes, ray) < Rank(ranking, r.value.0, boxes, ray))
    ensures NearestIn(Some((o, HitOf(o, boxes, ray))), done + {o}, criteria, boxes, ray, ranking)
  {
  }

  /**
   * The per-cell `forEach` of `nextObject`: keep the candidate that ranks
   * strictly lower than the one kept so far. The set's iteration order is
   * unspecified, so among equally ranked candidates any may be kept.
   */
  method NearestOnCell(cands: set<Obj>, criteria: Obj -> bool, boxes: Boxes, ray: A.Ray, ranking: Ranking)
    returns (r: Option<(Obj, Vector)>)
    ensures NearestIn(r, cands, criteria, boxes, ray, ranking)
  {
    r := None;
    var todo := cands;
    ghost var done: set<Obj> := {};
    while todo != {}
      invariant done + todo == cands && done !! todo
      invariant NearestIn(r, done, criteria, boxes, ray, ranking)
      decreases |todo|
    {
      var o := Pick(todo);
      var better := false;
      if criteria(o) && o in boxes {
        var hit := A.RayCast(boxes[o], ray, true);
        better := hit.HitPoint? && (r.None? || Rank(ranking, o, boxes, ray) < Rank(ranking, r.value.0, boxes, ray));
      }
      if better {
        NearestReplaced(r, done, o, criteria, boxes, ray, ranking);
        r := Some((o, HitOf(o, boxes, ray)));
      } else {
        NearestKept(r, done, o, criteria, boxes, ray, ranking);
      }
      todo, done := todo - {o}, done + {o};
    }
  }

  /** The walk of `nextObject(between:and:matchCriteria:)` over the cell index `onCell` of cells `width` by `height`. */
  method CastOver(onCell: CellIndex, width: real, height: real, from: Position, to: Position, criteria: Obj -> bool,
                  boxes: Boxes, ranking: Ranking) returns (r: Option<(Obj, Vector)>)
    requires width > 0.0 && height > 0.0
    ensures FirstHit(r, onCell, Walk(from, to, width, height), criteria, boxes, SegmentRay(from, to), ranking)
  {
    var w, n := StartCells(from, to, width, height);
    ghost var cells := Walk(from, to, width, height);
    var ray := SegmentRay(from, to);
    var i := n;
    while i > 0
      invariant 0 <= i <= n == |cells|
      invariant CellsFrom(w, i) == cells[n - i..]
      invariant MissedBefore(onCell, cells, n - i, criteria, boxes, ray)
      decreases i
    {
      assert cells[n - i] == (w.x, w.y);
      var best := NearestOnCell(ObjectsOn(onCell, (w.x, w.y)), criteria, boxes, ray, ranking);
      if best.Some? {
        HitAt(onCell, cells, n - i, criteria, boxes, ray, ranking, best);
        return best;
      }
      MissedNext(onCell, cells, n - i, criteria, boxes, ray);
      assert cells[n - i + 1..] == CellsFrom(w, i)[1..];
      w := Step(w);
      i := i - 1;
    }
    r := None;
  }

  class CollisionGrid {
    const cellWidth: real
    const cellHeight: real
    const delegate: Delegate
    var onCell: CellIndex
    var below: ObjectIndex
    /** `collisionChecksPerformed`. */
    var checks: map<Obj, set<Obj>>
    var updateFrame: int

    ghost predicate Valid()
      reads this
    {
      cellWidth > 0.0 && cellHeight > 0.0 && KeepsWellFormed(delegate) && Inverse(onCell, below)
    }

    /** `init(cellSize:delegate:)`; a cell size that is not positive would make every cell computation trap. */
    constructor (width: real, height: real, d: Delegate)
      requires width > 0.0 && height > 0.0 && KeepsWellFormed(d)
      ensures Valid() && cellWidth == width && cellHeight == height && delegate == d
      ensures onCell == map[] && below == map[] && checks == map[] && updateFrame == 0
    {
      cellWidth, cellHeight, delegate := width, height, d;
      onCell, below, checks, updateFrame := map[], map[], map[], 0;
    }

    /** `currentCellPositions(below:)`: every cell from the bottom-left to the top-right cell under the box. */
    method CurrentCellPositions(box: A.Aabb) returns (cells: set<Cell>)
      requires Valid() && RangesOk(box, cellWidth, cellHeight)
      ensures cells == CellsUnder(box, cellWidth, cellHeight)
    {
      var lo, hi := Low(box, cellWidth, cellHeight), High(box, cellWidth, cellHeight);
      cells := {};
      var y := lo.1;
      while y <= hi.1
        invariant lo.1 <= y <= hi.1 + 1
        invariant cells == Rect(lo, (hi.0, y - 1))
      {
        var x := lo.0;
        while x <= hi.0
          invariant lo.0 <= x <= hi.0 + 1
          invariant cells == Rect(lo, (hi.0, y - 1)) + Rect((lo.0, y), (x - 1, y))
        {
          cells := cells + {(x, y)};
          x := x + 1;
        }
        y := y + 1;
      }
    }

    /**
     * `updateCellPositions(for:)`: `box` is the object's contact box, `None`
     * when it has no physics component, in which case nothing changes.
     */
    method UpdateCellPositions(g: Obj, box: Option<A.Aabb>)
      requires Valid() && (box.Some? ==> RangesOk(box.value, cellWidth, cellHeight))
      modifies this
      ensures Valid() && checks == old(checks) && updateFrame == old(updateFrame)
      ensures box.None? ==> onCell == old(onCell) && below == old(below)
      ensures box.Some? ==>
        && below == old(below)[g := CellsUnder(box.value, cellWidth, cellHeight)]
        && onCell == Reindexed(old(onCell), g, CellsBelow(old(below), g), CellsUnder(box.value, cellWidth, cellHeight))
    {
      if box.None? {
        return;
      }
      var current := CurrentCellPositions(box.value);
      var last := CellsBelow(below, g);
      ReindexKeepsInverse(onCell, below, g, current);
      var withdrawn := WithdrawAll(onCell, g, last - current);
      onCell := DepositAll(withdrawn, g, current);
      below := below[g := current];
    }

    /** `remove(g)`: drop `g` from every cell it was last known on, then forget its entry. */
    method Remove(g: Obj)
      requires Valid()
      modifies this
      ensures Valid() && checks == old(checks) && updateFrame == old(updateFrame)
      ensures below == old(below) - {g}
      ensures onCell == Withdrawn(old(onCell), g, CellsBelow(old(below), g))
    {
      RemoveKeepsInverse(onCell, below, g);
      onCell := WithdrawAll(onCell, g, CellsBelow(below, g));
      below := below - {g};
    }

    /** `remove(g, from: p)`: forget the single cell `p` in both indexes. */
    method RemoveFrom(g: Obj, p: Cell)
      requires Valid()
      modifies this
      ensures Valid() && checks == old(checks) && updateFrame == old(updateFrame)
      ensures below == Forget(old(below), g, p)
      ensures onCell == Withdrawn(old(onCell), g, {p})
    {
      RemoveFromKeepsInverse(onCell, below, g, p);
      if g in below {
        below := below[g := below[g] - {p}];
      }
      if p in onCell {
        onCell := onCell[p := onCell[p] - {g}];
      }
      assert onCell == Withdrawn(old(onCell), g, {p});
    }

    /** `worldDidUpdate(_:)`: a new frame, with no checks performed yet. */
    method WorldDidUpdate()
      requires Valid()
      modifies this
      ensures Valid() && checks == map[] && updateFrame == old(updateFrame) + 1
      ensures onCell == old(onCell) && below == old(below)
    {
      checks := map[];
      updateFrame := updateFrame + 1;
    }

    /** `hasObject(at:matchCriteria:)`. */
    method HasObjectAt(p: Position, criteria: Obj -> bool, boxes: Boxes) returns (found: bool)
      requires Valid()
      ensures found == PointQuery(onCell, cellWidth, cellHeight, p, criteria, boxes)
    {
      var cands := ObjectsOn(onCell, CellOf(p, cellWidth, cellHeight));
      found := false;
      var todo := cands;
      while todo != {} && !found
        invariant todo <= cands
        invariant found <==> exists o :: o in cands - todo && criteria(o) && o in boxes && A.Contains(boxes[o], p)
        decreases |todo|
      {
        var o := Pick(todo);
        todo := todo - {o};
        found := criteria(o) && o in boxes && A.Contains(boxes[o], p);
      }
    }

    /**
     * `nextObject(between:and:matchCriteria:)` with the per-cell ranking
     * given: walk the cells from the start cell towards the end cell and
     * return the kept candidate of the first cell that has one.
     */
    method Cast(from: Position, to: Position, criteria: Obj -> bool, boxes: Boxes, ranking: Ranking)
      returns (r: Option<(Obj, Vector)>)
      requires Valid()
      ensures FirstHit(r, onCell, Walk(from, to, cellWidth, cellHeight), criteria, boxes, SegmentRay(from, to), ranking)
    {
      r := CastOver(onCell, cellWidth, cellHeight, from, to, criteria, boxes, ranking);
    }

    /** `nextObject(between:and:matchCriteria:)`, ranking a cell's candidates by how far along the segment they are hit. */
    method NextObject(from: Position, to: Position, criteria: Obj -> bool, boxes: Boxes) returns (r: Option<(Obj, Vector)>)
      requires Valid()
      ensures FirstHit(r, onCell, Walk(from, to, cellWidth, cellHeight), criteria, boxes, SegmentRay(from, to), ByParameter)
    {
      r := Cast(from, to, criteria, boxes, ByParameter);
    }

    /** `nextObject(between:and:matchCriteria:)` as written: a cell's candidates ranked by the magnitude of the hit point. */
    method NextObjectAsWritten(from: Position, to: Position, criteria: Obj -> bool, boxes: Boxes) returns (r: Option<(Obj, Vector)>)
      requires Valid()
      ensures FirstHit(r, onCell, Walk(from, to, cellWidth, cellHeight), criteria, boxes, SegmentRay(from, to), ByOrigin)
    {
      r := Cast(from, to, criteria, boxes, ByOrigin);
    }

    /** `hasObject(between:and:matchCriteria:)`: some cell of the walk holds a candidate. */
    method HasObjectBetween(from: Position, to: Position, criteria: Obj -> bool, boxes: Boxes) returns (found: bool)
      requires Valid()
      ensures var cells := Walk(from, to, cellWidth, cellHeight);
        found <==> exists i :: 0 <= i < |cells| && CellHasHit(ObjectsOn(onCell, cells[i]), criteria, boxes, SegmentRay(from, to))
    {
      var r := NextObject(from, to, criteria, boxes);
      found := r.Some?;
    }

    /**
     * `resolve(for:)`. `positionDidUpdate` and `forCollision` are the
     * object's flag and its `updateFrame.forCollision`; the new value of the
     * latter is returned. The delegate may move objects, so the contact boxes
     * are threaded through and returned; `events` logs, in order, the
     * re-indexing, the cells read, the pair tests and the handler calls.
     */
    method Resolve(g: Obj, positionDidUpdate: bool, forCollision: int, boxes: Boxes)
      returns (newForCollision: int, newBoxes: Boxes, events: seq<Event>, ghost actions: seq<Action>)
      requires Valid() && WellFormed(boxes)
      modifies this
      ensures Valid() && WellFormed(newBoxes) && updateFrame == old(updateFrame)
      ensures newForCollision == updateFrame
      ensures !(positionDidUpdate && forCollision < updateFrame) ==>
        onCell == old(onCell) && below == old(below) && checks == old(checks) && newBoxes == boxes && events == []
      ensures positionDidUpdate && forCollision < updateFrame ==>
        var start := old(below);
        // the checks table
        && checks == old(checks)[g := {g} + TestedSet(events)]
        && g !in Tests(events)
        && NoRepeats(Tests(events))
        // the tables follow the re-indexing events, and every cell was read as it then stood
        && below == Replay(start, events)
        && ScansFaithful(start, events)
        // first `g` itself is re-indexed on the cells under its box
        && (g in boxes ==> events != [] && events[0] == Moved(g, CellsUnder(boxes[g], cellWidth, cellHeight)))
        // then each of those cells is read once
        && ScanCells(events) == (if g in boxes then CellsUnder(boxes[g], cellWidth, cellHeight) else CellsBelow(old(below), g))
        && ScansDistinct(events)
        // and every object found there is tested, unless it is `g` or its own resolve already checked `g`
        && TestedSet(events) == ScannedObjects(events) - {g} - CheckedBy(old(checks), g)
        // the reads and pair tests have the shape of the nested `forEach`: each object is tested after
        // the read of its cell and before the next read, and every cell read is done before the next
        && Nested(g, CheckedBy(old(checks), g), actions) && Closed(g, CheckedBy(old(checks), g), actions)
        // and the events and boxes are exactly those of the reads and pair tests, run in order
        && var run := RunActions(g, actions, boxes);
           && newBoxes == run.0
           && events == (if g in boxes then [Moved(g, CellsUnder(boxes[g], cellWidth, cellHeight))] else []) + run.1
    {
      newForCollision := updateFrame;
      newBoxes, events, actions := boxes, [], [];
      if !(positionDidUpdate && forCollision < updateFrame) {
        return;
      }
      ghost var start := below;
      ghost var before := checks;
      if g in newBoxes {
        FlatRangesOk(newBoxes[g], cellWidth, cellHeight);
        events := [Moved(g, CellsUnder(newBoxes[g], cellWidth, cellHeight))];
      }
      UpdateCellPositions(g, BoxOf(newBoxes, g));
      ghost var head := events;
      ReplayQuiet(start, events);
      Untested(events);
      checks := checks[g := {g}];
      TestedSetAppend([], []);
      var cells := CellsBelow(below, g);
      ProgressStarts(g, before, head, cells);
      ScansAppend(start, [], head);
      assert [] + head == head && TestedSet(head) == {} && {g} + TestedSet(head) == {g};
      newBoxes, events, actions := ScanAll(g, cells, newBoxes, before, start, events);
      ProgressEnds(g, before, head, events, cells);
      if g in boxes {
        assert events[0] == events[..|head|][0];
      }
    }

    /** The outer loop of `resolve(for: g)`: read each cell of `all` once and check its objects. */
    method ScanAll(g: Obj, all: set<Cell>, boxes: Boxes, ghost before: map<Obj, set<Obj>>, ghost start: ObjectIndex, head: seq<Event>)
      returns (newBoxes: Boxes, events: seq<Event>, ghost actions: seq<Action>)
      requires Valid() && WellFormed(boxes)
      requires Running(checks, below, g, before, start, head) && Progress(g, before, head, head, all, all)
      requires TestedSet(head) == {}
      modifies this
      ensures Valid() && WellFormed(newBoxes) && updateFrame == old(updateFrame)
      ensures Running(checks, below, g, before, start, events) && Progress(g, before, head, events, {}, all)
      ensures Ran(g, actions, boxes, head, newBoxes, events) && Shaped(g, CheckedBy(before, g), actions, events)
    {
      newBoxes, events, actions := boxes, head, [];
      assert head + [] == head;
      var cells := all;
      while cells != {}
        invariant Valid() && WellFormed(newBoxes) && updateFrame == old(updateFrame)
        invariant Running(checks, below, g, before, start, events)
        invariant Progress(g, before, head, events, cells, all)
        invariant Ran(g, actions, boxes, head, newBoxes, events) && Shaped(g, CheckedBy(before, g), actions, events)
        decreases |cells|
      {
        var c := Pick(cells);
        ProgressReady(g, before, head, events, cells, all, c);
        ghost var done := events;
        newBoxes, events, actions := ScanCell(g, c, newBoxes, before, start, events, boxes, head, actions);
        ProgressStep(g, before, head, done, events, cells, all, c);
        cells := cells - {c};
      }
    }

    /**
     * The body of the outer loop for one cell `c`: read the objects on `c`
     * once, then check `g` against each of them.
     */
    method ScanCell(g: Obj, c: Cell, boxes: Boxes, ghost before: map<Obj, set<Obj>>, ghost start: ObjectIndex, done: seq<Event>,
                    ghost first: Boxes, ghost head: seq<Event>, ghost prior: seq<Action>)
      returns (newBoxes: Boxes, trace: seq<Event>, ghost actions: seq<Action>)
      requires Valid() && WellFormed(boxes)
      requires Running(checks, below, g, before, start, done) && Ready(g, before, done, c)
      requires Ran(g, prior, first, head, boxes, done) && Shaped(g, CheckedBy(before, g), prior, done)
      modifies this
      ensures Valid() && WellFormed(newBoxes) && updateFrame == old(updateFrame)
      ensures Running(checks, below, g, before, start, trace) && CellDone(g, before, done, c, trace)
      ensures Ran(g, actions, first, head, newBoxes, trace) && Shaped(g, CheckedBy(before, g), actions, trace)
      ensures Block(prior, c, ObjectsOn(old(onCell), c), actions)
    {
      newBoxes := boxes;
      var neighbors := ObjectsOn(onCell, c);
      ghost var seen := ScannedObjects(done);
      OccupantsMirror(onCell, below, c);
      ReadKeepsState(checks, g, before, start, done, c, below);
      trace := done + [Scanned(c, neighbors)];
      RanRead(g, prior, c, neighbors, first, head, boxes, done);
      InCellStarts(g, CheckedBy(before, g), prior, done, c, neighbors);
      actions := prior + [Read(c, neighbors)];
      ghost var objects := neighbors;
      assert actions[..|prior| + 1] == actions;
      while neighbors != {}
        invariant CellLoop(g, before, start, done, c, trace, seen, objects, neighbors, first, head, prior, actions, newBoxes)
        invariant updateFrame == old(updateFrame)
        decreases |neighbors|
      {
        trace, newBoxes, actions, seen, neighbors :=
          CheckNext(g, before, start, done, c, trace, seen, objects, neighbors, first, head, prior, actions, newBoxes);
      }
      CellEnds(g, before, done, c, trace, seen);
      InCellEnds(g, CheckedBy(before, g), actions, objects);
    }

    /** The state of the inner loop of `resolve(for: g)` on cell `c`, with `left` still to check. */
    ghost predicate CellLoop(g: Obj, before: map<Obj, set<Obj>>, start: ObjectIndex, done: seq<Event>, c: Cell,
                             trace: seq<Event>, seen: set<Obj>, objects: set<Obj>, left: set<Obj>, first: Boxes,
                             head: seq<Event>, prior: seq<Action>, actions: seq<Action>, newBoxes: Boxes)
      reads this
    {
      && Valid() && WellFormed(newBoxes)
      && Running(checks, below, g, before, start, trace)
      && CellProgress(g, before, done, c, trace, seen, left)
      && Ran(g, actions, first, head, newBoxes, trace)
      && InCell(g, CheckedBy(before, g), actions, objects, left) && TestedSet(trace) == Paired(actions)
      && Block(prior, c, objects, actions)
    }

    /** One turn of the inner loop: pick an object left on the cell and check `g` against it. */
    method CheckNext(g: Obj, ghost before: map<Obj, set<Obj>>, ghost start: ObjectIndex, ghost done: seq<Event>, ghost c: Cell,
                     trace: seq<Event>, ghost seen: set<Obj>, ghost objects: set<Obj>, left: set<Obj>, ghost first: Boxes,
                     ghost head: seq<Event>, ghost prior: seq<Action>, ghost actions: seq<Action>, boxes: Boxes)
      returns (trace': seq<Event>, newBoxes: Boxes, ghost actions': seq<Action>, ghost seen': set<Obj>, left': set<Obj>)
      requires left != {} && CellLoop(g, before, start, done, c, trace, seen, objects, left, first, head, prior, actions, boxes)
      modifies this
      ensures CellLoop(g, before, start, done, c, trace', seen', objects, left', first, head, prior, actions', newBoxes)
      ensures updateFrame == old(updateFrame) && |left'| < |left|
    {
      var n := Pick(left);
      var more;
      newBoxes, more, actions' := CheckPair(g, n, boxes, before, start, trace, first, head, actions);
      CellStep(g, n, before, done, c, trace, more, seen, left);
      InCellStep(g, CheckedBy(before, g), actions, objects, left, n, trace, more, actions');
      if actions' != actions {
        BlockGrows(prior, c, objects, actions, n);
      }
      left' := left - {n};
      trace' := trace + more;
      seen' := seen + {n};
    }

    /**
     * The body of the inner loop for one neighbour `n`: skip a pair already
     * checked in either direction; otherwise test it, call the handlers, let
     * the delegate correct a collision, re-index each side whose correction
     * is non-zero, and record the check.
     */
    method CheckPair(g: Obj, n: Obj, boxes: Boxes, ghost before: map<Obj, set<Obj>>, ghost start: ObjectIndex, ghost done: seq<Event>,
                     ghost first: Boxes, ghost head: seq<Event>, ghost prior: seq<Action>)
      returns (newBoxes: Boxes, events: seq<Event>, ghost actions: seq<Action>)
      requires Valid() && WellFormed(boxes) && Running(checks, below, g, before, start, done)
      requires Ran(g, prior, first, head, boxes, done)
      modifies this
      ensures Valid() && WellFormed(newBoxes) && updateFrame == old(updateFrame)
      ensures Running(checks, below, g, before, start, done + events) && NoScans(events)
      ensures Ran(g, actions, first, head, newBoxes, done + events)
      ensures n == g || n in TestedSet(done) || n in CheckedBy(before, g) ==>
        newBoxes == boxes && events == [] && onCell == old(onCell) && below == old(below) && actions == prior
      ensures !(n == g || n in TestedSet(done) || n in CheckedBy(before, g)) ==>
        && Tests(events) == [n] && events[0] == Tested(n)
        && (newBoxes, events) == PairRun(g, n, boxes)
        && actions == prior + [Pair(n)]
    {
      newBoxes, events, actions := boxes, [], prior;
      SkipWhenChecked(checks, g, n, before, done);
      if n in checks[g] || (n in checks && g in checks[n]) {
        assert done + events == done;
        return;
      }
      ghost var mid := below;
      var hit := delegate.intersect(newBoxes, g, n);
      events := [Tested(n)];
      if hit.Some? {
        var calls;
        newBoxes, calls := HandleHit(g, n, hit.value, newBoxes);
        TestsAppend(events, calls);
        ReplayAppend(mid, events, calls);
        events := events + calls;
      }
      ReplayQuiet(mid, [Tested(n)]);
      PairKeepsState(checks, g, n, before, start, done, events, below);
      checks := checks[g := checks[g] + {n}];
      RanPair(g, prior, n, first, head, boxes, done, newBoxes, events);
      actions := prior + [Pair(n)];
    }

    /** The re-indexing of `o` that follows a non-zero correction, when `o` has a box. */
    function MovedIf(correction: Vector, o: Obj, boxes: Boxes): seq<Event>
      requires cellWidth > 0.0 && cellHeight > 0.0
    {
      if correction != Zero && o in boxes then [Moved(o, CellsUnder(boxes[o], cellWidth, cellHeight))] else []
    }

    /**
     * The handler calls and re-indexing that follow a hit: both contact
     * handlers when the pair is contactable; when it is collidable, both
     * collision handlers with the delegate's corrections, then the
     * re-indexing of `g` and of `n` for each non-zero correction.
     */
    function HitEvents(g: Obj, n: Obj, hit: A.Hit, boxes: Boxes): seq<Event>
      requires cellWidth > 0.0 && cellHeight > 0.0
    {
      var contacts := if delegate.contactable(g, n) then [Contact(g, n), Contact(n, g)] else [];
      if !delegate.collidable(g, n) then contacts
      else
        var res := delegate.resolveCollision(boxes, g, n, hit);
        contacts + [Collision(g, n, res.thisCorrection), Collision(n, g, res.otherCorrection)]
        + MovedIf(res.thisCorrection, g, res.boxes) + MovedIf(res.otherCorrection, n, res.boxes)
    }

    /** The contact boxes after a hit: the delegate's corrected boxes when the pair is collidable. */
    function HitBoxes(g: Obj, n: Obj, hit: A.Hit, boxes: Boxes): Boxes {
      if delegate.collidable(g, n) then delegate.resolveCollision(boxes, g, n, hit).boxes else boxes
    }

    /** A tested pair: the test, then on a hit the hit's events and boxes. */
    function PairRun(g: Obj, n: Obj, boxes: Boxes): (Boxes, seq<Event>)
      requires cellWidth > 0.0 && cellHeight > 0.0
    {
      match delegate.intersect(boxes, g, n)
      case None => (boxes, [Tested(n)])
      case Some(hit) => (HitBoxes(g, n, hit, boxes), [Tested(n)] + HitEvents(g, n, hit, boxes))
    }

    /** One step: a read logs the cell and its objects; a pair runs as `PairRun`. */
    function ActionRun(g: Obj, a: Action, boxes: Boxes): (Boxes, seq<Event>)
      requires cellWidth > 0.0 && cellHeight > 0.0
    {
      match a
      case Read(c, objects) => (boxes, [Scanned(c, objects)])
      case Pair(n) => PairRun(g, n, boxes)
    }

    /** The boxes and the log that a run of steps produces from `boxes`, step after step. */
    function RunActions(g: Obj, actions: seq<Action>, boxes: Boxes): (Boxes, seq<Event>)
      requires cellWidth > 0.0 && cellHeight > 0.0
      decreases |actions|
    {
      if actions == [] then (boxes, [])
      else
        var r := RunActions(g, actions[..|actions| - 1], boxes);
        var last := ActionRun(g, actions[|actions| - 1], r.0);
        (last.0, r.1 + last.1)
    }

    /** One more step runs from where the others left the boxes, and its events follow theirs. */
    lemma RunActionsSnoc(g: Obj, actions: seq<Action>, a: Action, boxes: Boxes)
      requires cellWidth > 0.0 && cellHeight > 0.0
      ensures var r := RunActions(g, actions, boxes);
        var last := ActionRun(g, a, r.0);
        RunActions(g, actions + [a], boxes) == (last.0, r.1 + last.1)
    {
      assert (actions + [a])[..|actions|] == actions;
    }

    /** Running `actions` from `boxes` leaves `newBoxes` and appends its events to `prefix`, giving `trace`. */
    ghost predicate Ran(g: Obj, actions: seq<Action>, boxes: Boxes, prefix: seq<Event>, newBoxes: Boxes, trace: seq<Event>)
      requires cellWidth > 0.0 && cellHeight > 0.0
    {
      var r := RunActions(g, actions, boxes);
      newBoxes == r.0 && trace == prefix + r.1
    }

    /** Reading a cell extends a run by one step that changes no box. */
    lemma RanRead(g: Obj, actions: seq<Action>, c: Cell, objects: set<Obj>, boxes: Boxes, prefix: seq<Event>, mid: Boxes,
                  trace: seq<Event>)
      requires cellWidth > 0.0 && cellHeight > 0.0
      requires Ran(g, actions, boxes, prefix, mid, trace)
      ensures Ran(g, actions + [Read(c, objects)], boxes, prefix, mid, trace + [Scanned(c, objects)])
    {
      RunActionsSnoc(g, actions, Read(c, objects), boxes);
      assert prefix + RunActions(g, actions, boxes).1 + [Scanned(c, objects)]
        == prefix + (RunActions(g, actions, boxes).1 + [Scanned(c, objects)]);
    }

    /** A tested pair extends a run by one step. */
    lemma RanPair(g: Obj, actions: seq<Action>, n: Obj, boxes: Boxes, prefix: seq<Event>, mid: Boxes, trace: seq<Event>,
                  after: Boxes, more: seq<Event>)
      requires cellWidth > 0.0 && cellHeight > 0.0
      requires Ran(g, actions, boxes, prefix, mid, trace) && (after, more) == PairRun(g, n, mid)
      ensures Ran(g, actions + [Pair(n)], boxes, prefix, after, trace + more)
    {
      RunActionsSnoc(g, actions, Pair(n), boxes);
      assert prefix + RunActions(g, actions, boxes).1 + more == prefix + (RunActions(g, actions, boxes).1 + more);
    }

    /**
     * A hit between `g` and `n`: the contact handlers when the pair is
     * contactable; when it is collidable, the delegate's correction, the
     * collision handlers, and re-indexing of each side whose correction is
     * non-zero.
     */
    method HandleHit(g: Obj, n: Obj, hit: A.Hit, boxes: Boxes) returns (newBoxes: Boxes, events: seq<Event>)
      requires Valid() && WellFormed(boxes)
      modifies this
      ensures Valid() && WellFormed(newBoxes) && Tests(events) == [] && NoScans(events)
      ensures checks == old(checks) && updateFrame == old(updateFrame)
      ensures below == Replay(old(below), events)
      ensures !delegate.collidable(g, n) ==> newBoxes == boxes
      ensures delegate.collidable(g, n) ==> newBoxes == delegate.resolveCollision(boxes, g, n, hit).boxes
      ensures events == HitEvents(g, n, hit, boxes)
    {
      ghost var start := below;
      newBoxes := boxes;
      var contacts := if delegate.contactable(g, n) then [Contact(g, n), Contact(n, g)] else [];
      if !delegate.collidable(g, n) {
        events := contacts;
        ReplayQuiet(start, events);
        Untested(events);
        return;
      }
      var res := delegate.resolveCollision(newBoxes, g, n, hit);
      var quiet := contacts + [Collision(g, n, res.thisCorrection), Collision(n, g, res.otherCorrection)];
      newBoxes := res.boxes;
      ReplayQuiet(start, quiet);
      var m1 := MovedIf(res.thisCorrection, g, newBoxes);
      Reindex(g, res.thisCorrection, newBoxes);
      ReplayAppend(start, quiet, m1);
      var m2 := MovedIf(res.otherCorrection, n, newBoxes);
      Reindex(n, res.otherCorrection, newBoxes);
      ReplayAppend(start, quiet + m1, m2);
      events := quiet + m1 + m2;
      HitsAreQuiet(g, n, hit, boxes);
    }

    /** A hit neither tests nor scans: its events are handler calls and moves. */
    lemma HitsAreQuiet(g: Obj, n: Obj, hit: A.Hit, boxes: Boxes)
      requires cellWidth > 0.0 && cellHeight > 0.0
      ensures Tests(HitEvents(g, n, hit, boxes)) == [] && NoScans(HitEvents(g, n, hit, boxes))
    {
      Untested(HitEvents(g, n, hit, boxes));
    }

    /** Re-index `o` on the cells under its box when its correction is non-zero. */
    method Reindex(o: Obj, correction: Vector, boxes: Boxes)
      requires Valid() && WellFormed(boxes)
      modifies this
      ensures Valid() && checks == old(checks) && updateFrame == old(updateFrame)
      ensures below == Replay(old(below), MovedIf(correction, o, boxes))
    {
      ghost var start := below;
      if correction != Zero {
        if o in boxes { FlatRangesOk(boxes[o], cellWidth, cellHeight); }
        UpdateCellPositions(o, BoxOf(boxes, o));
      }
      ReplayQuiet(start, MovedIf(correction, o, boxes));
    }
  }
}
