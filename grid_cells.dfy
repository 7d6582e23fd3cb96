/**
 * The integer cells both collision grids use: the cell of a point, the
 * rectangle of cells under a box (`currentCellPositions` and
 * `gridPositions(below:)`), and the cell walk of `nextObject(between:and:)`,
 * which is the same code in Sources/GameWorldCollisionGrid.swift and
 * UselessEngine/GameWorldCollisionGrid.swift.
 */
module GridCells {
  import opened Numeric
  import opened LegacyGeometry
  import A = PackageAabb
  import opened Wrappers

  /** `UnitPosition`: an integer cell key. */
  type Cell = (int, int)

  /** The cell holding a point: `floor(x / width)`, `floor(y / height)`. */
  function CellOf(p: Position, width: real, height: real): Cell
    requires width > 0.0 && height > 0.0
  {
    ((p.x / width).Floor, (p.y / height).Floor)
  }

  /** The bottom-left cell under a box. */
  function Low(b: A.Aabb, width: real, height: real): Cell
    requires width > 0.0 && height > 0.0
  {
    (((b.center.x - b.halfwidths.dx) / width).Floor, ((b.center.y - b.halfwidths.dy) / height).Floor)
  }

  /** The top-right cell under a box. */
  function High(b: A.Aabb, width: real, height: real): Cell
    requires width > 0.0 && height > 0.0
  {
    (((b.center.x + b.halfwidths.dx) / width).Floor, ((b.center.y + b.halfwidths.dy) / height).Floor)
  }

  /** The closed ranges `bottomLeft...topRight` trap unless each lower bound is at most its upper bound. */
  predicate RangesOk(b: A.Aabb, width: real, height: real)
    requires width > 0.0 && height > 0.0
  {
    Low(b, width, height).0 <= High(b, width, height).0 && Low(b, width, height).1 <= High(b, width, height).1
  }

  predicate InRect(c: Cell, lo: Cell, hi: Cell) {
    lo.0 <= c.0 <= hi.0 && lo.1 <= c.1 <= hi.1
  }

  /** The set of cells from `lo` to `hi` inclusive on both axes. */
  function Rect(lo: Cell, hi: Cell): set<Cell> {
    set x: int, y: int | lo.0 <= x <= hi.0 && lo.1 <= y <= hi.1 :: (x, y)
  }

  /** The cells under a box. */
  function CellsUnder(b: A.Aabb, width: real, height: real): set<Cell>
    requires width > 0.0 && height > 0.0
  {
    Rect(Low(b, width, height), High(b, width, height))
  }

  /** A box's point in the xy-plane lies in a cell under the box. */
  lemma BoxPointIsCovered(b: A.Aabb, width: real, height: real, p: Position)
    requires width > 0.0 && height > 0.0
    requires b.center.x - b.halfwidths.dx <= p.x <= b.center.x + b.halfwidths.dx
    requires b.center.y - b.halfwidths.dy <= p.y <= b.center.y + b.halfwidths.dy
    ensures CellOf(p, width, height) in CellsUnder(b, width, height)
  {
    DivideMonotone(b.center.x - b.halfwidths.dx, p.x, width);
    DivideMonotone(p.x, b.center.x + b.halfwidths.dx, width);
    DivideMonotone(b.center.y - b.halfwidths.dy, p.y, height);
    DivideMonotone(p.y, b.center.y + b.halfwidths.dy, height);
    FloorMonotone((b.center.x - b.halfwidths.dx) / width, p.x / width);
    FloorMonotone(p.x / width, (b.center.x + b.halfwidths.dx) / width);
    FloorMonotone((b.center.y - b.halfwidths.dy) / height, p.y / height);
    FloorMonotone(p.y / height, (b.center.y + b.halfwidths.dy) / height);
    var c := CellOf(p, width, height);
    assert c == (c.0, c.1);
  }

  /** On one axis: a cell index between the floors of `lo / w` and `hi / w` holds a point of `[lo, hi]`. */
  lemma CellMeetsInterval(lo: real, hi: real, w: real, k: int) returns (q: real)
    requires w > 0.0 && lo <= hi && (lo / w).Floor <= k <= (hi / w).Floor
    ensures lo <= q <= hi && (q / w).Floor == k
  {
    FloorBounds(lo / w);
    FloorBounds(hi / w);
    var next := k as real + 1.0;
    QuotientBound(hi, w, k as real);
    QuotientBound(lo, w, next);
    assert next * w == k as real * w + w;
    q := Max(k as real * w, lo);
    QuotientBound(q, w, k as real);
    QuotientBound(q, w, next);
    FloorUnique(q / w, k);
  }

  /** Every cell under a box holds some point of the box's xy-rectangle: the rectangle of cells is not too large. */
  lemma CoveredCellMeetsBox(b: A.Aabb, width: real, height: real, c: Cell) returns (p: Position)
    requires width > 0.0 && height > 0.0 && c in CellsUnder(b, width, height)
    requires b.halfwidths.dx >= 0.0 && b.halfwidths.dy >= 0.0
    ensures b.center.x - b.halfwidths.dx <= p.x <= b.center.x + b.halfwidths.dx
    ensures b.center.y - b.halfwidths.dy <= p.y <= b.center.y + b.halfwidths.dy
    ensures CellOf(p, width, height) == c
  {
    var qx := CellMeetsInterval(b.center.x - b.halfwidths.dx, b.center.x + b.halfwidths.dx, width, c.0);
    var qy := CellMeetsInterval(b.center.y - b.halfwidths.dy, b.center.y + b.halfwidths.dy, height, c.1);
    p := Position(qx, qy, 0.0);
  }

  // ----- The cell walk of nextObject(between:and:) -----

  /** A Swift `Float` as the walk's `error` uses it: finite, an infinity, or NaN. */
  datatype Float = Fin(v: real) | PosInf | NegInf | NaN

  /** `error - r` for a finite `r`. */
  function MinusReal(e: Float, r: real): Float {
    match e
    case Fin(v) => Fin(v - r)
    case _ => e
  }

  /** `error + r` for a finite `r`. */
  function PlusReal(e: Float, r: real): Float {
    match e
    case Fin(v) => Fin(v + r)
    case _ => e
  }

  /** `error -= .infinity`. */
  function MinusInfinity(e: Float): Float {
    match e
    case PosInf => NaN
    case NaN => NaN
    case _ => NegInf
  }

  /** `error > 0`; false for NaN. */
  predicate Positive(e: Float) { e.PosInf? || (e.Fin? && e.v > 0.0) }

  /** The walk's mutable state and its constants. */
  datatype Walker = Walker(x: int, y: int, xInc: int, yInc: int, error: Float, dx: real, dy: real)

  /** The set-up of lines 34-73: the start cell, increments, initial error and the cell count `n`. */
  function Start(x0: real, y0: real, x1: real, y1: real): (Walker, int) {
    var dx := Abs(x1 - x0);
    var dy := Abs(y1 - y0);
    var x := x0.Floor;
    var y := y0.Floor;
    var (xInc, nx, ex) :=
      if dx == 0.0 then (0, 0, PosInf)
      else if x1 > x0 then (1, x1.Floor - x, Fin((x0.Floor as real + 1.0 - x0) * dy))
      else (-1, x - x1.Floor, Fin((x0 - x0.Floor as real) * dy));
    var (yInc, ny, e) :=
      if dy == 0.0 then (0, 0, MinusInfinity(ex))
      else if y1 > y0 then (1, y1.Floor - y, MinusReal(ex, (y0.Floor as real + 1.0 - y0) * dx))
      else (-1, y - y1.Floor, MinusReal(ex, (y0 - y0.Floor as real) * dx));
    (Walker(x, y, xInc, yInc, e, dx, dy), 1 + nx + ny)
  }

  /** One step of the loop: along y when `error > 0`, otherwise along x. */
  function Step(w: Walker): Walker {
    if Positive(w.error) then w.(y := w.y + w.yInc, error := MinusReal(w.error, w.dx))
    else w.(x := w.x + w.xInc, error := PlusReal(w.error, w.dy))
  }

  /** The `k` cells the loop visits from state `w`. */
  function CellsFrom(w: Walker, k: nat): seq<Cell>
    decreases k
  {
    if k == 0 then [] else [(w.x, w.y)] + CellsFrom(Step(w), k - 1)
  }

  /** The cells `nextObject(between:and:)` examines, in order. */
  function Walk(from: Position, to: Position, width: real, height: real): seq<Cell>
    requires width > 0.0 && height > 0.0
  {
    var s := Start(from.x / width, from.y / height, to.x / width, to.y / height);
    if s.1 < 0 then [] else CellsFrom(s.0, s.1)
  }

  /**
   * The set-up of `nextObject(between:and:)` in grid coordinates, branch by
   * branch: the start cell, the increments, the error term and the count `n`.
   */
  method StartWalk(x0: real, y0: real, x1: real, y1: real) returns (w: Walker, n: int)
    ensures (w, n) == Start(x0, y0, x1, y1)
    ensures n >= 1 && Coherent(w, n)
  {
    var dx := Abs(x1 - x0);
    var dy := Abs(y1 - y0);
    var x := x0.Floor;
    var y := y0.Floor;
    n := 1;
    var xInc: int, yInc: int;
    var error: Float;
    if dx == 0.0 {
      xInc := 0;
      error := PosInf;
    } else if x1 > x0 {
      xInc := 1;
      n := n + x1.Floor - x;
      error := Fin((x0.Floor as real + 1.0 - x0) * dy);
    } else {
      xInc := -1;
      n := n + x - x1.Floor;
      error := Fin((x0 - x0.Floor as real) * dy);
    }
    if dy == 0.0 {
      yInc := 0;
      error := MinusInfinity(error);
    } else if y1 > y0 {
      yInc := 1;
      n := n + y1.Floor - y;
      error := MinusReal(error, (y0.Floor as real + 1.0 - y0) * dx);
    } else {
      yInc := -1;
      n := n + y - y1.Floor;
      error := MinusReal(error, (y0 - y0.Floor as real) * dx);
    }
    w := Walker(x, y, xInc, yInc, error, dx, dy);
    ghost var s := Start(x0, y0, x1, y1);
    assert s.1 == n && s.0.error == error;
    StartIsCoherent(x0, y0, x1, y1);
  }

  /** Two cells one apart along exactly one axis. */
  predicate Adjacent(a: Cell, b: Cell) {
    (a.0 == b.0 && AbsInt(a.1 - b.1) == 1) || (a.1 == b.1 && AbsInt(a.0 - b.0) == 1)
  }

  /** The loop's increments and error agree with the two deltas; with both deltas zero at most one cell remains. */
  predicate Coherent(w: Walker, k: nat) {
    && w.dx >= 0.0 && w.dy >= 0.0
    && (w.dx == 0.0 <==> w.xInc == 0) && (w.dy == 0.0 <==> w.yInc == 0)
    && -1 <= w.xInc <= 1 && -1 <= w.yInc <= 1
    && (w.dx == 0.0 && w.dy != 0.0 ==> w.error == PosInf)
    && (w.dx != 0.0 && w.dy == 0.0 ==> w.error == NegInf)
    && (w.dx != 0.0 && w.dy != 0.0 ==> w.error.Fin?)
    && (w.dx == 0.0 && w.dy == 0.0 ==> k <= 1)
  }

  lemma StartIsCoherent(x0: real, y0: real, x1: real, y1: real)
    ensures Start(x0, y0, x1, y1).1 >= 1
    ensures Coherent(Start(x0, y0, x1, y1).0, Start(x0, y0, x1, y1).1)
  {
    if x1 > x0 { FloorMonotone(x0, x1); }
    if x1 < x0 { FloorMonotone(x1, x0); }
    if y1 > y0 { FloorMonotone(y0, y1); }
    if y1 < y0 { FloorMonotone(y1, y0); }
  }

  /** The number of cells visited is one plus the floor distance travelled on each axis. */
  lemma StartCount(x0: real, y0: real, x1: real, y1: real)
    ensures Start(x0, y0, x1, y1).1 == 1 + AbsInt(x1.Floor - x0.Floor) + AbsInt(y1.Floor - y0.Floor)
    ensures Start(x0, y0, x1, y1).0.x == x0.Floor && Start(x0, y0, x1, y1).0.y == y0.Floor
  {
    if x1 > x0 { FloorMonotone(x0, x1); }
    if x1 < x0 { FloorMonotone(x1, x0); }
    if y1 > y0 { FloorMonotone(y0, y1); }
    if y1 < y0 { FloorMonotone(y1, y0); }
  }

  /** The set-up of `nextObject(between:and:)` from world positions: a walker whose first `n` cells are the walk. */
  method StartCells(from: Position, to: Position, width: real, height: real) returns (w: Walker, n: int)
    requires width > 0.0 && height > 0.0
    ensures n >= 1 && |Walk(from, to, width, height)| == n && CellsFrom(w, n) == Walk(from, to, width, height)
  {
    w, n := StartWalk(from.x / width, from.y / height, to.x / width, to.y / height);
    CellsFromLength(w, n);
  }

  lemma {:induction false} CellsFromLength(w: Walker, k: nat)
    ensures |CellsFrom(w, k)| == k
    ensures k > 0 ==> CellsFrom(w, k)[0] == (w.x, w.y)
    decreases k
  {
    if k > 0 { CellsFromLength(Step(w), k - 1); }
  }

  /** Each step of a coherent walk moves to an adjacent cell. */
  lemma {:induction false} CellsFromAdjacent(w: Walker, k: nat, i: nat)
    requires Coherent(w, k) && i + 1 < k
    ensures |CellsFrom(w, k)| == k && Adjacent(CellsFrom(w, k)[i], CellsFrom(w, k)[i + 1])
    decreases k
  {
    CellsFromLength(w, k);
    CellsFromLength(Step(w), k - 1);
    assert Coherent(Step(w), k - 1);
    if i > 0 {
      CellsFromAdjacent(Step(w), k - 1, i - 1);
    }
  }

  /** `nextObject` examines `1 + |Δ⌊x⌋| + |Δ⌊y⌋|` cells, starting in the start cell, each step moving one cell along one axis. */
  lemma WalkShape(from: Position, to: Position, width: real, height: real)
    requires width > 0.0 && height > 0.0
    ensures var x0, y0, x1, y1 := from.x / width, from.y / height, to.x / width, to.y / height;
      var cells := Walk(from, to, width, height);
      && |cells| == 1 + AbsInt(x1.Floor - x0.Floor) + AbsInt(y1.Floor - y0.Floor)
      && cells[0] == CellOf(from, width, height)
      && forall i :: 0 <= i < |cells| - 1 ==> Adjacent(cells[i], cells[i + 1])
  {
    var x0, y0, x1, y1 := from.x / width, from.y / height, to.x / width, to.y / height;
    var s := Start(x0, y0, x1, y1);
    StartIsCoherent(x0, y0, x1, y1);
    StartCount(x0, y0, x1, y1);
    CellsFromLength(s.0, s.1);
    forall i | 0 <= i < s.1 - 1
      ensures Adjacent(CellsFrom(s.0, s.1)[i], CellsFrom(s.0, s.1)[i + 1])
    {
      CellsFromAdjacent(s.0, s.1, i);
    }
  }

  /** A walk with no x movement keeps climbing (or descending) one column. */
  lemma {:induction false} ColumnCells(w: Walker, k: nat, i: nat)
    requires Coherent(w, k) && w.dx == 0.0 && w.dy != 0.0 && i < k
    ensures |CellsFrom(w, k)| == k && CellsFrom(w, k)[i] == (w.x, w.y + i * w.yInc)
    decreases k
  {
    CellsFromLength(w, k);
    if i > 0 {
      assert Coherent(Step(w), k - 1);
      ColumnCells(Step(w), k - 1, i - 1);
    }
  }

  /** A walk with no y movement runs along one row. */
  lemma {:induction false} RowCells(w: Walker, k: nat, i: nat)
    requires Coherent(w, k) && w.dy == 0.0 && w.dx != 0.0 && i < k
    ensures |CellsFrom(w, k)| == k && CellsFrom(w, k)[i] == (w.x + i * w.xInc, w.y)
    decreases k
  {
    CellsFromLength(w, k);
    if i > 0 {
      assert Coherent(Step(w), k - 1);
      RowCells(Step(w), k - 1, i - 1);
    }
  }

  /** A segment parallel to an axis is walked cell by cell from the start cell to the end cell. */
  lemma AxisAlignedWalkEndsAtTarget(from: Position, to: Position, width: real, height: real)
    requires width > 0.0 && height > 0.0
    requires from.x == to.x || from.y == to.y
    ensures var cells := Walk(from, to, width, height);
      |cells| > 0 && cells[0] == CellOf(from, width, height) && cells[|cells| - 1] == CellOf(to, width, height)
  {
    var x0, y0, x1, y1 := from.x / width, from.y / height, to.x / width, to.y / height;
    var s := Start(x0, y0, x1, y1);
    StartIsCoherent(x0, y0, x1, y1);
    StartCount(x0, y0, x1, y1);
    CellsFromLength(s.0, s.1);
    if x1 == x0 && y1 == y0 {
    } else if x1 == x0 {
      ColumnCells(s.0, s.1, s.1 - 1);
    } else {
      RowCells(s.0, s.1, s.1 - 1);
    }
  }

  // ----- Candidates along the walk -----

  /** A game object, by handle. */
  type Obj = int

  /** The ray `nextObject` casts: from the start position towards the end position. */
  function SegmentRay(from: Position, to: Position): A.Ray {
    A.Ray(from, PositionDifference(to, from))
  }

  /** The object has a contact box and the ray meets it at a finite point (z ignored). */
  predicate Hits(o: Obj, boxes: map<Obj, A.Aabb>, ray: A.Ray) {
    o in boxes && A.RayCast(boxes[o], ray, true).HitPoint?
  }

  /** The point where the ray meets the object's box. */
  function HitOf(o: Obj, boxes: map<Obj, A.Aabb>, ray: A.Ray): Vector
    requires Hits(o, boxes, ray)
  {
    A.RayCast(boxes[o], ray, true).point
  }

  /** The parameter `t` at which the ray meets the object's box. */
  function HitParameter(o: Obj, boxes: map<Obj, A.Aabb>, ray: A.Ray): real
    requires Hits(o, boxes, ray)
  {
    A.ChosenT(A.RayWindow(boxes[o], ray, true).value).v
  }

  /** The hit point lies `t` times the direction away from the ray's origin. */
  lemma HitDisplacement(o: Obj, boxes: map<Obj, A.Aabb>, ray: A.Ray)
    requires Hits(o, boxes, ray)
    ensures HitParameter(o, boxes, ray) >= 0.0
    ensures Minus(HitOf(o, boxes, ray), Vector(ray.position.x, ray.position.y, ray.position.z))
      == Scaled(ray.direction, HitParameter(o, boxes, ray))
  {
    var w := A.RayWindow(boxes[o], ray, true).value;
    A.SlabKeepsSaneWindow(boxes[o], ray, true);
    A.ChosenInWindow(w);
  }

  /**
   * How candidates of one cell are ranked: `ByOrigin` is the comparison as
   * written, the magnitude of the hit point, which is its distance from the
   * world origin (squared here, which keeps the order); `ByParameter` is the
   * one evidently intended, how far along the segment the hit lies.
   */
  datatype Ranking = ByOrigin | ByParameter

  function Rank(ranking: Ranking, o: Obj, boxes: map<Obj, A.Aabb>, ray: A.Ray): real
    requires Hits(o, boxes, ray)
  {
    match ranking
    case ByOrigin => SquaredMagnitude(HitOf(o, boxes, ray))
    case ByParameter => HitParameter(o, boxes, ray)
  }

  /** A candidate `nextObject` accepts: it matches and its box is hit. */
  predicate Candidate(o: Obj, criteria: Obj -> bool, boxes: map<Obj, A.Aabb>, ray: A.Ray) {
    criteria(o) && Hits(o, boxes, ray)
  }

  /** Some object of `cands` is a candidate. */
  predicate CellHasHit(cands: set<Obj>, criteria: Obj -> bool, boxes: map<Obj, A.Aabb>, ray: A.Ray) {
    exists o :: o in cands && Candidate(o, criteria, boxes, ray)
  }

  /** `o` is a candidate of `cands` that no other candidate outranks. */
  predicate IsNearest(ranking: Ranking, o: Obj, cands: set<Obj>, criteria: Obj -> bool, boxes: map<Obj, A.Aabb>, ray: A.Ray) {
    && o in cands && Candidate(o, criteria, boxes, ray)
    && forall other :: other in cands && Candidate(other, criteria, boxes, ray) ==>
         Rank(ranking, o, boxes, ray) <= Rank(ranking, other, boxes, ray)
  }

  /** The ray from (10, 0) towards the origin, along -x. */
  const LeftwardRay: A.Ray := A.Ray(Position(10.0, 0.0, 0.0), Vector(-10.0, 0.0, 0.0))

  /** A unit box on the x axis, centred at `x`, derived fields written out. */
  function UnitBoxAt(x: real): A.Aabb {
    A.Aabb(Position(x, 0.0, 0.0), Vector(0.5, 0.5, 0.5), A.DefaultAnchor, Position(x, 0.0, 0.0),
           Position(x - 0.5, -0.5, -0.5), Position(x + 0.5, 0.5, 0.5))
  }

  /** It is the box `AABB(position:halfwidths:)` builds there. */
  lemma UnitBoxIsMade(x: real)
    ensures A.Make(Position(x, 0.0, 0.0), Vector(0.5, 0.5, 0.5)) == UnitBoxAt(x)
  {
    A.DefaultAnchorCentersOnPosition(Position(x, 0.0, 0.0), Vector(0.5, 0.5, 0.5));
  }

  /** On the leftward ray, a unit box centred at `x` between 0.5 and 9.5 is entered at `t = (9.5 − x) / 10`. */
  lemma LeftwardWindow(x: real)
    requires 0.5 <= x <= 9.5
    ensures A.RayWindow(UnitBoxAt(x), LeftwardRay, true)
      == Some(A.Window(A.Fin((9.5 - x) / 10.0), A.Fin((10.5 - x) / 10.0)))
  {
    var b := UnitBoxAt(x);
    assert b.minimum == Position(x - 0.5, -0.5, -0.5) && b.maximum == Position(x + 0.5, 0.5, 0.5);
    assert A.Crossings(x - 0.5, x + 0.5, 10.0, -10.0) == ((9.5 - x) / 10.0, (10.5 - x) / 10.0);
  }

  /** So the leftward ray meets that box at `t = (9.5 − x) / 10`, on its face at `x + 0.5`. */
  lemma LeftwardHit(x: real)
    requires 0.5 <= x <= 9.5
    ensures A.RayCast(UnitBoxAt(x), LeftwardRay, true) == A.HitPoint(Vector(x + 0.5, 0.0, 0.0))
    ensures A.ChosenT(A.RayWindow(UnitBoxAt(x), LeftwardRay, true).value) == A.Fin((9.5 - x) / 10.0)
  {
    LeftwardWindow(x);
    var t := (9.5 - x) / 10.0;
    assert A.ChosenT(A.Window(A.Fin(t), A.Fin((10.5 - x) / 10.0))) == A.Fin(t);
    assert -10.0 * t + 10.0 == x + 0.5;
  }

  /** Two unit boxes on one cell: handle 1 centred at x = 8, handle 2 at x = 2. */
  const TwoBoxes: map<Obj, A.Aabb> := map[1 := UnitBoxAt(8.0), 2 := UnitBoxAt(2.0)]

  /**
   * Walking from (10, 0) towards the origin, the box at x = 8 is met first,
   * at (8.5, 0), and the box at x = 2 later, at (2.5, 0).
   */
  lemma TwoBoxesHits()
    ensures SegmentRay(Position(10.0, 0.0, 0.0), Origin) == LeftwardRay
    ensures Hits(1, TwoBoxes, LeftwardRay) && HitOf(1, TwoBoxes, LeftwardRay) == Vector(8.5, 0.0, 0.0)
    ensures Hits(2, TwoBoxes, LeftwardRay) && HitOf(2, TwoBoxes, LeftwardRay) == Vector(2.5, 0.0, 0.0)
    ensures HitParameter(1, TwoBoxes, LeftwardRay) == 0.15 && HitParameter(2, TwoBoxes, LeftwardRay) == 0.75
  {
    LeftwardHit(8.0);
    LeftwardHit(2.0);
  }

  /** The two rankings of those hits: squared distance from the origin, and parameter along the ray. */
  lemma TwoBoxesRanks()
    ensures Hits(1, TwoBoxes, LeftwardRay) && Hits(2, TwoBoxes, LeftwardRay)
    ensures Rank(ByOrigin, 1, TwoBoxes, LeftwardRay) == 72.25 && Rank(ByOrigin, 2, TwoBoxes, LeftwardRay) == 6.25
    ensures Rank(ByParameter, 1, TwoBoxes, LeftwardRay) == 0.15 && Rank(ByParameter, 2, TwoBoxes, LeftwardRay) == 0.75
  {
    TwoBoxesHits();
    var near, far := HitOf(1, TwoBoxes, LeftwardRay), HitOf(2, TwoBoxes, LeftwardRay);
    assert Rank(ByOrigin, 1, TwoBoxes, LeftwardRay) == SquaredMagnitude(near);
    assert Rank(ByOrigin, 2, TwoBoxes, LeftwardRay) == SquaredMagnitude(far);
  }

  /** As written, the later hit (2.5, 0) is preferred, because its point is nearer the world origin. */
  lemma OriginRankingPrefersLaterHit(o: Obj)
    requires IsNearest(ByOrigin, o, {1, 2}, _ => true, TwoBoxes, LeftwardRay)
    ensures o == 2
  {
    TwoBoxesRanks();
    assert Rank(ByOrigin, o, TwoBoxes, LeftwardRay) <= Rank(ByOrigin, 2, TwoBoxes, LeftwardRay);
  }

  /** Ranked by how far along the segment, the earlier hit (8.5, 0) is preferred. */
  lemma ParameterRankingPrefersEarlierHit(o: Obj)
    requires IsNearest(ByParameter, o, {1, 2}, _ => true, TwoBoxes, LeftwardRay)
    ensures o == 1
  {
    TwoBoxesRanks();
    assert Rank(ByParameter, o, TwoBoxes, LeftwardRay) <= Rank(ByParameter, 1, TwoBoxes, LeftwardRay);
  }
}
