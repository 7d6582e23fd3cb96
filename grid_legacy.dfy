/**
 * The collision grid of UselessEngine/GameWorldCollisionGrid.swift.
 *
 * Each object's id maps to the list of cells last computed under its contact
 * box, and each cell maps to an array of objects. Arrays keep their order and
 * are changed by `removeAll(where:)` and `append`.
 */
module LegacyCollisionGrid {
  import opened Wrappers
  import opened Numeric
  import opened LegacyGeometry
  import A = PackageAabb
  import opened GridCells

  /** `gameObjectsByCellPosition`. */
  type CellLists = map<Cell, seq<Obj>>

  /** `collisionCellPositionsByGameObjectId`, keyed by the object's handle. */
  type PositionLists = map<Obj, seq<Cell>>

  /** The contact box of each object whose physics has a collision delegate. */
  type Boxes = map<Obj, A.Aabb>

  /** The array on a cell; a missing entry reads as empty. */
  function ObjectsAt(onCell: CellLists, c: Cell): seq<Obj> {
    if c in onCell then onCell[c] else []
  }

  /** The cells recorded for an object; a missing entry reads as empty (`?? []`). */
  function RecordedCells(positions: PositionLists, o: Obj): seq<Cell> {
    if o in positions then positions[o] else []
  }

  predicate Distinct(s: seq<Cell>) {
    forall i, j :: 0 <= i < j < |s| ==> s[i] != s[j]
  }

  /**
   * An object occurs in a cell's array exactly once when the cell is in its
   * recorded list, and not at all otherwise; recorded lists have no repeats.
   */
  ghost predicate Indexed(onCell: CellLists, positions: PositionLists) {
    && (forall o :: o in positions ==> Distinct(positions[o]))
    && forall c: Cell, o: Obj :: multiset(ObjectsAt(onCell, c))[o] == (if c in RecordedCells(positions, o) then 1 else 0)
  }

  // ----- gridPositions(below:) -----

  /** Strictly before in row-major order: a lower row, or the same row and further left. */
  predicate Before(a: Cell, b: Cell) {
    a.1 < b.1 || (a.1 == b.1 && a.0 < b.0)
  }

  predicate RowMajor(s: seq<Cell>) {
    forall i, j :: 0 <= i < j < |s| ==> Before(s[i], s[j])
  }

  /** The cells `(x0, y)` up to `(x - 1, y)`, left to right. */
  function RowOf(y: int, x0: int, x: int): seq<Cell>
    decreases x - x0
  {
    if x <= x0 then [] else RowOf(y, x0, x - 1) + [(x - 1, y)]
  }

  /** The rows `lo.1` up to `y - 1` of the rectangle, bottom to top. */
  function RowsOf(lo: Cell, hi: Cell, y: int): seq<Cell>
    decreases y - lo.1
  {
    if y <= lo.1 then [] else RowsOf(lo, hi, y - 1) + RowOf(y - 1, lo.0, hi.0 + 1)
  }

  /** The list `gridPositions(below:)` builds for the rectangle from `lo` to `hi`. */
  function GridPositions(lo: Cell, hi: Cell): seq<Cell> {
    RowsOf(lo, hi, hi.1 + 1)
  }

  /** Two row-major lists, the first entirely before the second, concatenate to a row-major list. */
  lemma RowMajorConcat(a: seq<Cell>, b: seq<Cell>)
    requires RowMajor(a) && RowMajor(b)
    requires forall p, q :: p in a && q in b ==> Before(p, q)
    ensures RowMajor(a + b)
  {
    var t := a + b;
    forall i, j | 0 <= i < j < |t|
      ensures Before(t[i], t[j])
    {
      if i < |a| && j >= |a| {
        assert t[i] == a[i] && a[i] in a;
        assert t[j] == b[j - |a|] && b[j - |a|] in b;
      }
    }
  }

  lemma {:induction false} RowOfShape(y: int, x0: int, x: int)
    ensures |RowOf(y, x0, x)| == if x <= x0 then 0 else x - x0
    ensures forall c :: c in RowOf(y, x0, x) <==> c.1 == y && x0 <= c.0 < x
    ensures RowMajor(RowOf(y, x0, x))
    decreases x - x0
  {
    if x > x0 {
      RowOfShape(y, x0, x - 1);
      RowMajorConcat(RowOf(y, x0, x - 1), [(x - 1, y)]);
    }
  }

  lemma {:induction false} RowsOfLength(lo: Cell, hi: Cell, y: int)
    requires lo.0 <= hi.0 + 1
    ensures |RowsOf(lo, hi, y)| == if y <= lo.1 then 0 else (y - lo.1) * (hi.0 + 1 - lo.0)
    decreases y - lo.1
  {
    if y > lo.1 {
      RowsOfLength(lo, hi, y - 1);
      RowOfShape(y - 1, lo.0, hi.0 + 1);
      assert (y - lo.1) * (hi.0 + 1 - lo.0) == (y - 1 - lo.1) * (hi.0 + 1 - lo.0) + (hi.0 + 1 - lo.0);
    }
  }

  lemma {:induction false} RowsOfShape(lo: Cell, hi: Cell, y: int)
    ensures forall c :: c in RowsOf(lo, hi, y) <==> lo.0 <= c.0 <= hi.0 && lo.1 <= c.1 < y
    ensures RowMajor(RowsOf(lo, hi, y))
    decreases y - lo.1
  {
    if y > lo.1 {
      RowsOfShape(lo, hi, y - 1);
      RowOfShape(y - 1, lo.0, hi.0 + 1);
      RowMajorConcat(RowsOf(lo, hi, y - 1), RowOf(y - 1, lo.0, hi.0 + 1));
    }
  }

  lemma RowMajorIsDistinct(s: seq<Cell>)
    requires RowMajor(s)
    ensures Distinct(s)
  {
  }

  /**
   * `gridPositions(below:)` lists the `(hi.0 - lo.0 + 1) * (hi.1 - lo.1 + 1)`
   * cells of the rectangle, each once, row by row from the bottom-left cell
   * to the top-right one.
   */
  lemma GridPositionsShape(lo: Cell, hi: Cell)
    requires lo.0 <= hi.0 && lo.1 <= hi.1
    ensures var s := GridPositions(lo, hi);
      && |s| == (hi.0 - lo.0 + 1) * (hi.1 - lo.1 + 1)
      && (forall c :: c in s <==> InRect(c, lo, hi))
      && RowMajor(s) && Distinct(s)
      && s[0] == lo && s[|s| - 1] == hi
  {
    var s := GridPositions(lo, hi);
    RowsOfLength(lo, hi, hi.1 + 1);
    RowsOfShape(lo, hi, hi.1 + 1);
    RowMajorIsDistinct(s);
    assert (hi.0 - lo.0 + 1) * (hi.1 - lo.1 + 1) >= 1;
    assert lo in s && hi in s;
    assert s[0] in s && s[|s| - 1] in s;
  }

  // ----- The cell arrays -----

  /** `removeAll(where: { $0 == g })`: the array without `g`, the others in order. */
  function Without(s: seq<Obj>, g: Obj): (r: seq<Obj>)
    ensures forall o :: multiset(r)[o] == if o == g then 0 else multiset(s)[o]
    ensures |r| <= |s|
  {
    if s == [] then []
    else
      assert s == [s[0]] + s[1..];
      (if s[0] == g then [] else [s[0]]) + Without(s[1..], g)
  }

  lemma {:induction false} WithoutAppend(a: seq<Obj>, b: seq<Obj>, g: Obj)
    ensures Without(a + b, g) == Without(a, g) + Without(b, g)
    decreases |a|
  {
    if a == [] {
      assert a + b == b;
    } else {
      assert (a + b)[0] == a[0] && (a + b)[1..] == a[1..] + b;
      WithoutAppend(a[1..], b, g);
    }
  }

  /** Removing `g` from an array that no longer holds it changes nothing. */
  lemma {:induction false} WithoutAbsent(s: seq<Obj>, g: Obj)
    requires multiset(s)[g] == 0
    ensures Without(s, g) == s
    decreases |s|
  {
    if s != [] {
      assert s == [s[0]] + s[1..];
      assert s[0] in multiset(s);
      WithoutAbsent(s[1..], g);
    }
  }

  /** `previousPositions.forEach { gameObjectsByCellPosition[$0]?.removeAll(where: { $0 == g }) }`. */
  function Cleared(onCell: CellLists, g: Obj, cells: seq<Cell>): CellLists {
    map c | c in onCell :: if c in cells then Without(onCell[c], g) else onCell[c]
  }

  /** `currentPositions.forEach`: append `g` to each cell's array, creating it where missing. */
  function Appended(onCell: CellLists, g: Obj, cells: seq<Cell>): CellLists {
    map c | c in onCell.Keys + (set c | c in cells) :: if c in cells then ObjectsAt(onCell, c) + [g] else onCell[c]
  }

  /** One more cell cleared; a cell met twice is cleared twice, which changes nothing more. */
  lemma ClearedStep(onCell: CellLists, g: Obj, cells: seq<Cell>, i: int)
    requires 0 <= i < |cells|
    ensures var r := Cleared(onCell, g, cells[..i]);
      Cleared(onCell, g, cells[..i + 1]) == if cells[i] in r then r[cells[i] := Without(r[cells[i]], g)] else r
  {
    var r := Cleared(onCell, g, cells[..i]);
    var c := cells[i];
    assert cells[..i + 1] == cells[..i] + [c];
    var lhs := Cleared(onCell, g, cells[..i + 1]);
    var rhs := if c in r then r[c := Without(r[c], g)] else r;
    assert lhs.Keys == rhs.Keys;
    forall k | k in lhs
      ensures lhs[k] == rhs[k]
    {
      if k == c && c in cells[..i] {
        WithoutAbsent(r[c], g);
      }
    }
  }

  /** One more cell appended to, when the list has no repeats. */
  lemma AppendedStep(onCell: CellLists, g: Obj, cells: seq<Cell>, i: int)
    requires 0 <= i < |cells| && Distinct(cells)
    ensures var r := Appended(onCell, g, cells[..i]);
      Appended(onCell, g, cells[..i + 1]) == r[cells[i] := ObjectsAt(r, cells[i]) + [g]]
  {
    var c := cells[i];
    assert cells[..i + 1] == cells[..i] + [c];
    assert c !in cells[..i];
  }

  lemma AppendedNothing(onCell: CellLists, g: Obj)
    ensures Appended(onCell, g, []) == onCell
  {
  }

  /** What a cell's array becomes under `Cleared`. */
  lemma ClearedAt(onCell: CellLists, g: Obj, cells: seq<Cell>, c: Cell)
    ensures ObjectsAt(Cleared(onCell, g, cells), c) == if c in cells then Without(ObjectsAt(onCell, c), g) else ObjectsAt(onCell, c)
  {
  }

  /** Moving `g` from its recorded cells to the distinct cells `current` keeps the arrays and lists in step. */
  lemma MoveKeepsIndexed(onCell: CellLists, positions: PositionLists, g: Obj, current: seq<Cell>)
    requires Indexed(onCell, positions) && Distinct(current)
    ensures Indexed(Appended(Cleared(onCell, g, RecordedCells(positions, g)), g, current), positions[g := current])
  {
    var cleared := Cleared(onCell, g, RecordedCells(positions, g));
    var r := Appended(cleared, g, current);
    var p := positions[g := current];
    forall c: Cell, o: Obj
      ensures multiset(ObjectsAt(r, c))[o] == (if c in RecordedCells(p, o) then 1 else 0)
    {
      ClearedAt(onCell, g, RecordedCells(positions, g), c);
      assert multiset(ObjectsAt(onCell, c))[o] == (if c in RecordedCells(positions, o) then 1 else 0);
      assert multiset(ObjectsAt(cleared, c))[g] == 0;
    }
  }

  /** Forgetting `g`'s list after clearing its cells keeps the arrays and lists in step. */
  lemma ForgetKeepsIndexed(onCell: CellLists, positions: PositionLists, g: Obj)
    requires Indexed(onCell, positions)
    ensures Indexed(Cleared(onCell, g, RecordedCells(positions, g)), positions - {g})
    ensures RecordedCells(positions, g) == [] ==> Indexed(Cleared(onCell, g, RecordedCells(positions, g)), positions)
  {
    var cleared := Cleared(onCell, g, RecordedCells(positions, g));
    forall c: Cell, o: Obj
      ensures multiset(ObjectsAt(cleared, c))[o] == (if c in RecordedCells(positions - {g}, o) then 1 else 0)
      ensures multiset(ObjectsAt(cleared, c))[o] == (if o == g then 0 else if c in RecordedCells(positions, o) then 1 else 0)
    {
      ClearedAt(onCell, g, RecordedCells(positions, g), c);
      assert multiset(ObjectsAt(onCell, c))[o] == (if c in RecordedCells(positions, o) then 1 else 0);
    }
  }

  /** The loop over `previousPositions`. */
  method ClearAll(onCell: CellLists, g: Obj, cells: seq<Cell>) returns (r: CellLists)
    ensures r == Cleared(onCell, g, cells)
  {
    r := onCell;
    var i := 0;
    assert cells[..0] == [];
    while i < |cells|
      invariant 0 <= i <= |cells|
      invariant r == Cleared(onCell, g, cells[..i])
    {
      ClearedStep(onCell, g, cells, i);
      var c := cells[i];
      if c in r {
        r := r[c := Without(r[c], g)];
      }
      i := i + 1;
    }
    assert cells[..i] == cells;
  }

  /** The loop over `currentPositions`. */
  method AppendAll(onCell: CellLists, g: Obj, cells: seq<Cell>) returns (r: CellLists)
    requires Distinct(cells)
    ensures r == Appended(onCell, g, cells)
  {
    r := onCell;
    var i := 0;
    assert cells[..0] == [];
    AppendedNothing(onCell, g);
    while i < |cells|
      invariant 0 <= i <= |cells|
      invariant r == Appended(onCell, g, cells[..i])
    {
      AppendedStep(onCell, g, cells, i);
      var c := cells[i];
      var objects := ObjectsAt(r, c);
      objects := objects + [g];
      r := r[c := objects];
      i := i + 1;
    }
    assert cells[..i] == cells;
  }

  // ----- onNeighbors(of:doAction:) -----

  /** The objects `onNeighbors` hands to the action, in order: each recorded cell's array without `g`. */
  function NeighborCalls(onCell: CellLists, cells: seq<Cell>, g: Obj): seq<Obj> {
    if cells == [] then []
    else NeighborCalls(onCell, cells[..|cells| - 1], g) + Without(ObjectsAt(onCell, cells[|cells| - 1]), g)
  }

  /** How many of `cells` are in `o`'s recorded list. */
  function SharedCount(cells: seq<Cell>, positions: PositionLists, o: Obj): nat {
    if cells == [] then 0
    else SharedCount(cells[..|cells| - 1], positions, o) + (if cells[|cells| - 1] in RecordedCells(positions, o) then 1 else 0)
  }

  /**
   * The action never gets `g` itself, and gets each other object once per
   * cell the two share: a neighbour sharing several cells is handed over
   * several times.
   */
  lemma {:induction false} NeighborCallsCount(onCell: CellLists, positions: PositionLists, cells: seq<Cell>, g: Obj, o: Obj)
    requires Indexed(onCell, positions)
    ensures multiset(NeighborCalls(onCell, cells, g))[o] == if o == g then 0 else SharedCount(cells, positions, o)
    decreases |cells|
  {
    if cells != [] {
      NeighborCallsCount(onCell, positions, cells[..|cells| - 1], g, o);
      var c := cells[|cells| - 1];
      assert multiset(ObjectsAt(onCell, c))[o] == (if c in RecordedCells(positions, o) then 1 else 0);
    }
  }

  /** So an object other than `g` is handed over exactly when it shares one of `cells` with `g`. */
  lemma NeighborCallsMembers(onCell: CellLists, positions: PositionLists, cells: seq<Cell>, g: Obj, o: Obj)
    requires Indexed(onCell, positions)
    ensures o in NeighborCalls(onCell, cells, g) <==> o != g && exists c :: c in cells && c in RecordedCells(positions, o)
  {
    NeighborCallsCount(onCell, positions, cells, g, o);
    SharedCountPositive(cells, positions, o);
  }

  lemma {:induction false} SharedCountPositive(cells: seq<Cell>, positions: PositionLists, o: Obj)
    ensures SharedCount(cells, positions, o) > 0 <==> exists c :: c in cells && c in RecordedCells(positions, o)
    decreases |cells|
  {
    if cells != [] {
      var init := cells[..|cells| - 1];
      SharedCountPositive(init, positions, o);
      assert cells == init + [cells[|cells| - 1]];
    }
  }

  lemma NeighborCallsStep(onCell: CellLists, cells: seq<Cell>, g: Obj, i: int)
    requires 0 <= i < |cells|
    ensures NeighborCalls(onCell, cells[..i + 1], g) == NeighborCalls(onCell, cells[..i], g) + Without(ObjectsAt(onCell, cells[i]), g)
  {
    assert cells[..i + 1][..i] == cells[..i];
  }

  /** The inner `forEach` of `onNeighbors`: every object of the array other than `g`, appended in order. */
  method CallOthers(calls: seq<Obj>, objects: seq<Obj>, g: Obj) returns (r: seq<Obj>)
    ensures r == calls + Without(objects, g)
  {
    r := calls;
    var j := 0;
    while j < |objects|
      invariant 0 <= j <= |objects|
      invariant r == calls + Without(objects[..j], g)
    {
      assert objects[..j + 1] == objects[..j] + [objects[j]];
      WithoutAppend(objects[..j], [objects[j]], g);
      if objects[j] != g {
        r := r + [objects[j]];
      }
      j := j + 1;
    }
    assert objects[..j] == objects;
  }

  /** Recording the list an object already has changes nothing. */
  lemma SameListKeepsIndexed(onCell: CellLists, positions: PositionLists, g: Obj, current: seq<Cell>)
    requires Indexed(onCell, positions) && Distinct(current) && current == RecordedCells(positions, g)
    ensures Indexed(onCell, positions[g := current])
  {
    var p := positions[g := current];
    forall o | o in p
      ensures Distinct(p[o])
    {
      if o != g {
        assert p[o] == positions[o];
      }
    }
    forall c: Cell, o: Obj
      ensures multiset(ObjectsAt(onCell, c))[o] == (if c in RecordedCells(p, o) then 1 else 0)
    {
      assert RecordedCells(p, o) == RecordedCells(positions, o);
    }
  }

  // ----- nextObject(between:and:) -----

  /**
   * `k` is the entry the per-cell `forEach` keeps: a candidate that no other
   * candidate outranks and that every earlier candidate ranks strictly
   * above, because only a strictly lower rank replaces the kept one.
   */
  predicate KeptAt(ranking: Ranking, k: int, cands: seq<Obj>, criteria: Obj -> bool, boxes: Boxes, ray: A.Ray) {
    && 0 <= k < |cands| && Candidate(cands[k], criteria, boxes, ray)
    && (forall j :: 0 <= j < |cands| && Candidate(cands[j], criteria, boxes, ray) ==>
          Rank(ranking, cands[k], boxes, ray) <= Rank(ranking, cands[j], boxes, ray))
    && (forall j :: 0 <= j < k && Candidate(cands[j], criteria, boxes, ray) ==>
          Rank(ranking, cands[k], boxes, ray) < Rank(ranking, cands[j], boxes, ray))
  }

  /** Some entry of the array is a candidate. */
  predicate ListHasHit(cands: seq<Obj>, criteria: Obj -> bool, boxes: Boxes, ray: A.Ray) {
    exists j :: 0 <= j < |cands| && Candidate(cands[j], criteria, boxes, ray)
  }

  /** `r` is what the per-cell search yields for the array `cands`. */
  ghost predicate KeptIn(r: Option<(Obj, Vector)>, cands: seq<Obj>, criteria: Obj -> bool, boxes: Boxes, ray: A.Ray, ranking: Ranking) {
    && (r.None? <==> !ListHasHit(cands, criteria, boxes, ray))
    && (r.Some? ==> exists k :: KeptAt(ranking, k, cands, criteria, boxes, ray) && cands[k] == r.value.0
                                && r.value.1 == HitOf(cands[k], boxes, ray))
  }

  /** The kept entry of an array is a nearest candidate of its objects. */
  lemma KeptIsNearest(r: Option<(Obj, Vector)>, cands: seq<Obj>, criteria: Obj -> bool, boxes: Boxes, ray: A.Ray, ranking: Ranking)
    requires KeptIn(r, cands, criteria, boxes, ray, ranking) && r.Some?
    ensures IsNearest(ranking, r.value.0, (set o | o in cands), criteria, boxes, ray)
  {
    var k :| KeptAt(ranking, k, cands, criteria, boxes, ray) && cands[k] == r.value.0 && r.value.1 == HitOf(cands[k], boxes, ray);
    forall other | other in (set o | o in cands) && Candidate(other, criteria, boxes, ray)
      ensures Rank(ranking, r.value.0, boxes, ray) <= Rank(ranking, other, boxes, ray)
    {
      var j :| 0 <= j < |cands| && cands[j] == other;
    }
  }

  /** The `forEach` over a cell's array, in order. */
  method NearestInList(cands: seq<Obj>, criteria: Obj -> bool, boxes: Boxes, ray: A.Ray, ranking: Ranking)
    returns (r: Option<(Obj, Vector)>)
    ensures KeptIn(r, cands, criteria, boxes, ray, ranking)
  {
    r := None;
    ghost var k := 0;
    var i := 0;
    while i < |cands|
      invariant 0 <= i <= |cands|
      invariant r.None? <==> !ListHasHit(cands[..i], criteria, boxes, ray)
      invariant r.Some? ==> KeptAt(ranking, k, cands[..i], criteria, boxes, ray) && cands[k] == r.value.0
                            && r.value.1 == HitOf(cands[k], boxes, ray)
    {
      var o := cands[i];
      assert cands[..i + 1] == cands[..i] + [o];
      if criteria(o) && o in boxes {
        var hit := A.RayCast(boxes[o], ray, true);
        if hit.HitPoint? && (r.None? || Rank(ranking, o, boxes, ray) < Rank(ranking, r.value.0, boxes, ray)) {
          r, k := Some((o, hit.point)), i;
        }
      }
      i := i + 1;
    }
    assert cands[..i] == cands;
  }

  /** What `nextObject` returns for the walk `cells`, as in the package grid but over arrays. */
  ghost predicate FirstKept(r: Option<(Obj, Vector)>, onCell: CellLists, cells: seq<Cell>, criteria: Obj -> bool,
                      boxes: Boxes, ray: A.Ray, ranking: Ranking)
  {
    && (r.None? <==> forall i :: 0 <= i < |cells| ==> !ListHasHit(ObjectsAt(onCell, cells[i]), criteria, boxes, ray))
    && (r.Some? ==>
          exists k :: 0 <= k < |cells| && (forall i :: 0 <= i < k ==> !ListHasHit(ObjectsAt(onCell, cells[i]), criteria, boxes, ray))
                      && KeptIn(r, ObjectsAt(onCell, cells[k]), criteria, boxes, ray, ranking))
  }

  /** `hasObject(at:matchCriteria:)`: some matching object in the point's cell array has a contact box containing the point. */
  predicate PointHit(onCell: CellLists, width: real, height: real, p: Position, criteria: Obj -> bool, boxes: Boxes)
    requires width > 0.0 && height > 0.0
  {
    var cands := ObjectsAt(onCell, CellOf(p, width, height));
    exists i :: 0 <= i < |cands| && criteria(cands[i]) && cands[i] in boxes && A.Contains(boxes[cands[i]], p)
  }

  /** The list `gridPositions(below:)` holds, each once, the cells the package grid computes as a set. */
  lemma GridPositionsAreCellsUnder(b: A.Aabb, width: real, height: real)
    requires width > 0.0 && height > 0.0 && RangesOk(b, width, height)
    ensures var s := GridPositions(Low(b, width, height), High(b, width, height));
      (set c | c in s) == CellsUnder(b, width, height) && Distinct(s)
  {
    var lo, hi := Low(b, width, height), High(b, width, height);
    GridPositionsShape(lo, hi);
    var s := GridPositions(lo, hi);
    forall c | c in CellsUnder(b, width, height)
      ensures c in s
    {
      assert InRect(c, lo, hi);
    }
  }

  /**
   * The point query misses nothing: a matching object whose recorded list is
   * the one computed for its current box is found at every point of that box.
   */
  lemma PointHitFindsIndexedBox(onCell: CellLists, positions: PositionLists, width: real, height: real,
                                p: Position, criteria: Obj -> bool, boxes: Boxes, g: Obj)
    requires width > 0.0 && height > 0.0 && Indexed(onCell, positions)
    requires g in boxes && A.Consistent(boxes[g]) && criteria(g) && A.Contains(boxes[g], p)
    requires RangesOk(boxes[g], width, height)
    requires RecordedCells(positions, g) == GridPositions(Low(boxes[g], width, height), High(boxes[g], width, height))
    ensures PointHit(onCell, width, height, p, criteria, boxes)
  {
    var b := boxes[g];
    A.ContainsIsWithinHalfwidths(b, p);
    BoxPointIsCovered(b, width, height, p);
    GridPositionsAreCellsUnder(b, width, height);
    var c := CellOf(p, width, height);
    assert c in RecordedCells(positions, g);
    var cands := ObjectsAt(onCell, c);
    assert multiset(cands)[g] == 1;
    var i :| 0 <= i < |cands| && cands[i] == g;
  }

  /** Two objects recorded on the same two cells: each is handed to the other's action twice. */
  lemma NeighborSharingTwoCellsIsCalledTwice()
    ensures var onCell := map[(0, 0) := [1, 2], (1, 0) := [1, 2]];
      NeighborCalls(onCell, [(0, 0), (1, 0)], 1) == [2, 2]
  {
    var onCell := map[(0, 0) := [1, 2], (1, 0) := [1, 2]];
    assert [(0, 0), (1, 0)][..1] == [(0, 0)];
    assert Without([1, 2], 1) == [2] by {
      assert [1, 2][1..] == [2];
      assert Without([2], 1) == [2] by { assert [2][1..] == []; }
    }
  }

  class CollisionGrid {
    /** `collisionCellSize.dx` and `.dy`. */
    const cellWidth: real
    const cellHeight: real
    var onCell: CellLists
    var positions: PositionLists

    ghost predicate Valid()
      reads this
    {
      cellWidth > 0.0 && cellHeight > 0.0 && Indexed(onCell, positions)
    }

    /** `init(cellSize:)`; a cell size that is not positive would make every cell computation trap. */
    constructor (width: real, height: real)
      requires width > 0.0 && height > 0.0
      ensures Valid() && cellWidth == width && cellHeight == height
      ensures onCell == map[] && positions == map[]
    {
      cellWidth, cellHeight := width, height;
      onCell, positions := map[], map[];
    }

    /** `gridPositions(below:)`: the cells from the bottom-left to the top-right cell under the box, row by row. */
    method GridPositionsBelow(box: A.Aabb) returns (cells: seq<Cell>)
      requires Valid() && RangesOk(box, cellWidth, cellHeight)
      ensures cells == GridPositions(Low(box, cellWidth, cellHeight), High(box, cellWidth, cellHeight))
    {
      var lo, hi := Low(box, cellWidth, cellHeight), High(box, cellWidth, cellHeight);
      cells := [];
      var y := lo.1;
      while y <= hi.1
        invariant lo.1 <= y <= hi.1 + 1
        invariant cells == RowsOf(lo, hi, y)
      {
        var x := lo.0;
        while x <= hi.0
          invariant lo.0 <= x <= hi.0 + 1
          invariant cells == RowsOf(lo, hi, y) + RowOf(y, lo.0, x)
        {
          cells := cells + [(x, y)];
          x := x + 1;
        }
        y := y + 1;
      }
    }

    /**
     * `update(for:)`: `box` is the object's contact box, `None` when it has
     * no physics collision delegate, in which case nothing changes. The cell
     * arrays are rewritten only when the list of cells differs from the
     * recorded one; the list is recorded either way.
     */
    method Update(g: Obj, box: Option<A.Aabb>)
      requires Valid() && (box.Some? ==> RangesOk(box.value, cellWidth, cellHeight))
      modifies this
      ensures Valid()
      ensures box.None? ==> onCell == old(onCell) && positions == old(positions)
      ensures box.Some? ==>
        var current := GridPositions(Low(box.value, cellWidth, cellHeight), High(box.value, cellWidth, cellHeight));
        && positions == old(positions)[g := current]
        && onCell == if current != RecordedCells(old(positions), g)
                     then Appended(Cleared(old(onCell), g, RecordedCells(old(positions), g)), g, current)
                     else old(onCell)
    {
      if box.None? {
        return;
      }
      var previous := RecordedCells(positions, g);
      var current := GridPositionsBelow(box.value);
      GridPositionsShape(Low(box.value, cellWidth, cellHeight), High(box.value, cellWidth, cellHeight));
      if current != previous {
        MoveKeepsIndexed(onCell, positions, g, current);
        var cleared := ClearAll(onCell, g, previous);
        onCell := AppendAll(cleared, g, current);
      } else {
        SameListKeepsIndexed(onCell, positions, g, current);
      }
      positions := positions[g := current];
    }

    /**
     * `remove(gameObject:)`: the entry is removed inside the loop over the
     * recorded cells, so an object whose recorded list is empty keeps it.
     */
    method Remove(g: Obj)
      requires Valid()
      modifies this
      ensures Valid()
      ensures onCell == Cleared(old(onCell), g, RecordedCells(old(positions), g))
      ensures positions == if RecordedCells(old(positions), g) == [] then old(positions) else old(positions) - {g}
    {
      var cells := RecordedCells(positions, g);
      ForgetKeepsIndexed(onCell, positions, g);
      ghost var before := onCell;
      var i := 0;
      assert cells[..0] == [];
      while i < |cells|
        invariant 0 <= i <= |cells|
        invariant onCell == Cleared(before, g, cells[..i])
        invariant positions == if i == 0 then old(positions) else old(positions) - {g}
      {
        ClearedStep(before, g, cells, i);
        var c := cells[i];
        if c in onCell {
          onCell := onCell[c := Without(onCell[c], g)];
        }
        positions := positions - {g};
        i := i + 1;
      }
      assert cells[..i] == cells;
    }

    /** `onNeighbors(of:doAction:)`: the objects handed to the action, in order. */
    method OnNeighbors(g: Obj) returns (calls: seq<Obj>)
      requires Valid()
      ensures calls == NeighborCalls(onCell, RecordedCells(positions, g), g)
    {
      var cells := RecordedCells(positions, g);
      calls := [];
      var i := 0;
      while i < |cells|
        invariant 0 <= i <= |cells|
        invariant calls == NeighborCalls(onCell, cells[..i], g)
      {
        NeighborCallsStep(onCell, cells, g, i);
        calls := CallOthers(calls, ObjectsAt(onCell, cells[i]), g);
        i := i + 1;
      }
      assert cells[..i] == cells;
    }

    /** `hasObject(at:matchCriteria:)`. */
    method HasObjectAt(p: Position, criteria: Obj -> bool, boxes: Boxes) returns (found: bool)
      requires Valid()
      ensures found == PointHit(onCell, cellWidth, cellHeight, p, criteria, boxes)
    {
      var cands := ObjectsAt(onCell, CellOf(p, cellWidth, cellHeight));
      if |cands| == 0 {
        return false;
      }
      var i := 0;
      while i < |cands|
        invariant 0 <= i <= |cands|
        invariant forall j :: 0 <= j < i ==> !(criteria(cands[j]) && cands[j] in boxes && A.Contains(boxes[cands[j]], p))
      {
        if criteria(cands[i]) {
          if cands[i] in boxes && A.Contains(boxes[cands[i]], p) {
            return true;
          }
        }
        i := i + 1;
      }
      return false;
    }

    /**
     * `nextObject(between:and:matchCriteria:)` with the per-cell ranking
     * given: walk the cells from the start cell towards the end cell and
     * return the kept entry of the first cell array that has a candidate.
     */
    method Cast(from: Position, to: Position, criteria: Obj -> bool, boxes: Boxes, ranking: Ranking)
      returns (r: Option<(Obj, Vector)>)
      requires Valid()
      ensures FirstKept(r, onCell, Walk(from, to, cellWidth, cellHeight), criteria, boxes, SegmentRay(from, to), ranking)
    {
      var w, n := StartCells(from, to, cellWidth, cellHeight);
      ghost var cells := Walk(from, to, cellWidth, cellHeight);
      var ray := SegmentRay(from, to);
      var i := n;
      while i > 0
        invariant 0 <= i <= n == |cells|
        invariant CellsFrom(w, i) == cells[n - i..]
        invariant forall j :: 0 <= j < n - i ==> !ListHasHit(ObjectsAt(onCell, cells[j]), criteria, boxes, ray)
        decreases i
      {
        assert cells[n - i] == (w.x, w.y);
        var best := NearestInList(ObjectsAt(onCell, (w.x, w.y)), criteria, boxes, ray, ranking);
        if best.Some? {
          return best;
        }
        assert cells[n - i + 1..] == CellsFrom(w, i)[1..];
        w := Step(w);
        i := i - 1;
      }
      r := None;
    }

    /** `nextObject(between:and:matchCriteria:)` as written: a cell's candidates ranked by the magnitude of the hit point. */
    method NextObjectAsWritten(from: Position, to: Position, criteria: Obj -> bool, boxes: Boxes) returns (r: Option<(Obj, Vector)>)
      requires Valid()
      ensures FirstKept(r, onCell, Walk(from, to, cellWidth, cellHeight), criteria, boxes, SegmentRay(from, to), ByOrigin)
    {
      r := Cast(from, to, criteria, boxes, ByOrigin);
    }

    /** `nextObject(between:and:matchCriteria:)`, ranking a cell's candidates by how far along the segment they are hit. */
    method NextObject(from: Position, to: Position, criteria: Obj -> bool, boxes: Boxes) returns (r: Option<(Obj, Vector)>)
      requires Valid()
      ensures FirstKept(r, onCell, Walk(from, to, cellWidth, cellHeight), criteria, boxes, SegmentRay(from, to), ByParameter)
    {
      r := Cast(from, to, criteria, boxes, ByParameter);
    }

    /** `hasObject(between:and:matchCriteria:)`: some cell array of the walk holds a candidate. */
    method HasObjectBetween(from: Position, to: Position, criteria: Obj -> bool, boxes: Boxes) returns (found: bool)
      requires Valid()
      ensures var cells := Walk(from, to, cellWidth, cellHeight);
        found <==> exists i :: 0 <= i < |cells| && ListHasHit(ObjectsAt(onCell, cells[i]), criteria, boxes, SegmentRay(from, to))
    {
      var r := NextObject(from, to, criteria, boxes);
      found := r.Some?;
    }
  }
}
