/**
 * The game objects of Sources/GameObject.swift. The objects of a scene are
 * handles into one `GameObjects` arena that holds each stored property as
 * a map from handle to value. The property observers (`didSet`) become
 * methods that set a property and then run what the observer runs; the
 * cascades they start down the tree (the position observer, the family
 * traversal, the per-frame update) are methods over the arena's maps.
 */
module PackageObjectTree {
  import opened Wrappers
  import opened LegacyGeometry
  import opened Flags
  import opened Sets
  import opened Hierarchy

  /** `GameWorldMemberCustomAttributeKey`, an opaque key. */
  type AttributeKey = int
  /** A family's `UUID`. */
  type FamilyId = int

  /**
   * What the position observers read and write on one object: `position`,
   * `relativePositionValue`, the position of the physics component's
   * contact box when there is one, and `flags`.
   */
  datatype Pose = Pose(position: Position, relative: Position, contact: Option<Position>, flags: Flags)

  /** The objects whose `anchorToParent` is set. */
  function AnchoredOf(anchor: map<Id, bool>): set<Id> {
    set x | x in anchor && anchor[x]
  }

  /** The links form a forest over `ids`, and `children` mirrors `parent`. */
  ghost predicate Forest(parent: map<Id, Id>, children: map<Id, set<Id>>, rank: map<Id, nat>, ids: set<Id>) {
    && rank.Keys == ids && parent.Keys <= ids && children.Keys == ids
    && Ranked(parent, rank)
    && (forall p, c :: p in children && c in children[p] ==> c in parent && parent[c] == p)
    && (forall c :: c in parent ==> parent[c] in children && c in children[parent[c]])
  }

  /** The objects a move of `y` carries along: `y` and, link by anchored link, the objects below it. */
  ghost function Carried(parent: map<Id, Id>, anchor: map<Id, bool>, rank: map<Id, nat>, y: Id): set<Id>
    requires Ranked(parent, rank)
  {
    Subtree(parent, rank, AnchoredOf(anchor), y)
  }

  /** What `relativePositionValue` is for an object at `p`: `p` less an anchoring parent's position, else `p`. */
  function RelativeOf(parent: map<Id, Id>, anchor: map<Id, bool>, poses: map<Id, Pose>, x: Id, p: Position): Position
    requires x in anchor && (x in parent ==> parent[x] in poses)
  {
    if x in parent && anchor[x] then MinusPosition(p, poses[parent[x]].position) else p
  }

  /** `relativePositionValue` agrees with `position`. */
  ghost predicate Placed(parent: map<Id, Id>, anchor: map<Id, bool>, poses: map<Id, Pose>, x: Id) {
    && x in poses && x in anchor && (x in parent ==> parent[x] in poses)
    && poses[x].relative == RelativeOf(parent, anchor, poses, x, poses[x].position)
  }

  /**
   * An object moved by `delta`: its contact box moved with it and its
   * flags marked by `mark`, which sets `positionDidUpdate`.
   */
  function Shift(p: Pose, delta: Position, mark: Flags -> Flags): Pose {
    var q := PlusPosition(p.position, delta);
    p.(position := q, contact := if p.contact.Some? then Some(q) else None, flags := mark(p.flags))
  }

  /** `after` is `before` with the objects of `s` shifted by `delta` and nothing else changed. */
  ghost predicate ShiftedBy(before: map<Id, Pose>, after: map<Id, Pose>, s: set<Id>, delta: Position, mark: Flags -> Flags) {
    after.Keys == before.Keys && forall z :: z in before ==> after[z] == if z in s then Shift(before[z], delta, mark) else before[z]
  }

  /** Shifting two disjoint sets one after the other shifts their union. */
  lemma ShiftedTwice(a: map<Id, Pose>, b: map<Id, Pose>, c: map<Id, Pose>, s: set<Id>, t: set<Id>, delta: Position, mark: Flags -> Flags)
    requires ShiftedBy(a, b, s, delta, mark) && ShiftedBy(b, c, t, delta, mark) && s !! t
    ensures ShiftedBy(a, c, s + t, delta, mark)
  {
  }

  /**
   * A child at `c` with relative position `rel` to a parent at `from` is
   * set to `to + rel` when the parent moves to `to`: it moves exactly when
   * the parent did, by the same offset, and stays at `rel` from it.
   */
  lemma FollowParent(to: Position, from: Position, c: Position, rel: Position)
    requires rel == MinusPosition(c, from)
    ensures MinusPosition(PlusPosition(to, rel), c) == MinusPosition(to, from)
    ensures PlusPosition(to, rel) == c <==> to == from
    ensures MinusPosition(PlusPosition(to, rel), to) == rel
  {
  }

  /**
   * The `position` setter on `y`, with `mark` the `positionDidUpdate` flag:
   * re-assigning the same position changes nothing; a new one moves `y`
   * and everything it carries along by the same offset, flags each of
   * them and moves their contact boxes, and gives `y` the relative position
   * that goes with `q`. The objects carried along keep their relative
   * positions.
   */
  method AssignPosition(parent: map<Id, Id>, children: map<Id, set<Id>>, anchor: map<Id, bool>, ghost rank: map<Id, nat>,
                     mark: Flags -> Flags, poses: map<Id, Pose>, y: Id, q: Position) returns (after: map<Id, Pose>)
    requires Forest(parent, children, rank, poses.Keys) && anchor.Keys == poses.Keys && y in poses
    requires forall z :: z in Carried(parent, anchor, rank, y) && z != y ==> Placed(parent, anchor, poses, z)
    decreases rank[y], 3
    ensures q == poses[y].position ==> after == poses
    ensures q != poses[y].position ==>
      ShiftedBy(poses[y := poses[y].(relative := RelativeOf(parent, anchor, poses, y, q))], after,
                Carried(parent, anchor, rank, y), MinusPosition(q, poses[y].position), mark)
  {
    if q == poses[y].position {
      return poses;
    }
    PreparedAt(parent, children, anchor, rank, poses, poses, y, poses[y].(position := q));
    after := PositionDidChange(parent, children, anchor, rank, mark, poses, poses[y := poses[y].(position := q)], y);
  }

  /**
   * `positionDidChange(from:)`, run on `poses` where `y` has just left its
   * position in `before`: `y`'s relative position is made to agree, its
   * contact box follows, each anchored child is set to `y`'s position plus
   * the child's relative position, and `y` is flagged. When `y` did not
   * actually move, the children stay where they are.
   */
  method PositionDidChange(parent: map<Id, Id>, children: map<Id, set<Id>>, anchor: map<Id, bool>, ghost rank: map<Id, nat>,
                           mark: Flags -> Flags, ghost before: map<Id, Pose>, poses: map<Id, Pose>, y: Id) returns (after: map<Id, Pose>)
    requires Prepared(parent, children, anchor, rank, before, poses, y)
    requires poses[y] == before[y].(position := poses[y].position)
    decreases rank[y], 2
    ensures ShiftedBy(before[y := before[y].(relative := RelativeOf(parent, anchor, before, y, poses[y].position))], after,
                      if poses[y].position == before[y].position then {y} else Carried(parent, anchor, rank, y),
                      MinusPosition(poses[y].position, before[y].position), mark)
  {
    var p := poses[y].position;
    after := poses[y := poses[y].(relative := RelativeOf(parent, anchor, poses, y, p))];
    if after[y].contact.Some? {
      after := after[y := after[y].(contact := Some(p))];
    }
    ghost var base := after;
    PreparedAt(parent, children, anchor, rank, before, poses, y, after[y]);
    after := MoveChildren(parent, children, anchor, rank, mark, before, after, y);
    ghost var from := before[y].position;
    ghost var delta := MinusPosition(p, from);
    PlusMinus(p, from);
    ghost var start := before[y := before[y].(relative := RelativeOf(parent, anchor, before, y, p))];
    assert Shift(start[y], delta, mark) == after[y].(flags := mark(after[y].flags));
    ghost var moved := if p == from then {} else Carried(parent, anchor, rank, y) - {y};
    assert y in Carried(parent, anchor, rank, y);
    assert moved + {y} == if p == from then {y} else Carried(parent, anchor, rank, y);
    ShiftedWithRoot(base, after, start, y, moved, delta, mark);
    after := after[y := after[y].(flags := mark(after[y].flags))];
  }

  /** The anchored children of `y`, the ones `positionDidChange(from:)` moves. */
  function AnchoredChildren(children: map<Id, set<Id>>, anchor: map<Id, bool>, y: Id): set<Id> {
    if y in children then set c | c in children[y] && c in anchor && anchor[c] else {}
  }

  /**
   * `poses` is `before` except at `y`, and everything `y` carries below it
   * agreed in `before`: what the children's loop of `positionDidChange`
   * starts from.
   */
  ghost predicate Prepared(parent: map<Id, Id>, children: map<Id, set<Id>>, anchor: map<Id, bool>, rank: map<Id, nat>,
                           before: map<Id, Pose>, poses: map<Id, Pose>, y: Id)
  {
    && Forest(parent, children, rank, poses.Keys) && anchor.Keys == poses.Keys && y in poses
    && before.Keys == poses.Keys && (forall z :: z in poses && z != y ==> poses[z] == before[z])
    && (forall z :: z in Carried(parent, anchor, rank, y) && z != y ==> Placed(parent, anchor, before, z))
  }

  /** Changing `y` alone keeps what the children's loop starts from. */
  lemma PreparedAt(parent: map<Id, Id>, children: map<Id, set<Id>>, anchor: map<Id, bool>, rank: map<Id, nat>,
                   before: map<Id, Pose>, poses: map<Id, Pose>, y: Id, p: Pose)
    requires Forest(parent, children, rank, poses.Keys) && anchor.Keys == poses.Keys && y in poses
    requires before.Keys == poses.Keys && forall z :: z in poses && z != y ==> poses[z] == before[z]
    requires forall z :: z in Carried(parent, anchor, rank, y) && z != y ==> Placed(parent, anchor, before, z)
    ensures Prepared(parent, children, anchor, rank, before, poses[y := p], y)
  {
  }

  /**
   * The loop of `positionDidChange(from:)` over the anchored children of
   * `y`, which has moved from its position in `before`: each child is set
   * to `y`'s position plus its relative position, so that everything `y`
   * carries below it moves by `y`'s offset, or stays when `y` did not move.
   */
  method MoveChildren(parent: map<Id, Id>, children: map<Id, set<Id>>, anchor: map<Id, bool>, ghost rank: map<Id, nat>,
                      mark: Flags -> Flags, ghost before: map<Id, Pose>, poses: map<Id, Pose>, y: Id) returns (after: map<Id, Pose>)
    requires Prepared(parent, children, anchor, rank, before, poses, y)
    decreases rank[y], 1
    ensures ShiftedBy(poses, after, if poses[y].position == before[y].position then {} else Carried(parent, anchor, rank, y) - {y},
                      MinusPosition(poses[y].position, before[y].position), mark)
  {
    ghost var from := before[y].position;
    ghost var changed := poses[y].position != from;
    ghost var moved: set<Id> := {};
    after := poses;
    var pending := AnchoredChildren(children, anchor, y);
    while pending != {}
      invariant Progress(parent, children, anchor, rank, y, from, pending, poses, after, moved, mark)
      decreases |pending|
    {
      var c := Pick(pending);
      ChildReady(parent, children, anchor, rank, before, poses, after, y, pending, moved, mark, c);
      ghost var mid := after;
      after := MoveChild(parent, children, anchor, rank, mark, from, after, c);
      ChildDone(parent, children, anchor, rank, before, poses, mid, after, y, pending, moved, mark, c);
      if changed {
        moved := moved + Carried(parent, anchor, rank, c);
      }
      pending := pending - {c};
    }
    if changed {
      ChildrenCover(parent, children, anchor, rank, y, moved);
      assert moved == Carried(parent, anchor, rank, y) - {y};
    }
  }

  /**
   * Where the loop over `y`'s anchored children stands when `y` has moved
   * from `from`: the children no longer `pending` have each moved what they
   * carry (when `y` moved at all), and nothing a pending child carries has
   * moved.
   */
  ghost predicate Progress(parent: map<Id, Id>, children: map<Id, set<Id>>, anchor: map<Id, bool>, rank: map<Id, nat>,
                           y: Id, from: Position, pending: set<Id>, base: map<Id, Pose>, after: map<Id, Pose>,
                           moved: set<Id>, mark: Flags -> Flags)
  {
    && Ranked(parent, rank) && y in base
    && pending <= AnchoredChildren(children, anchor, y)
    && ShiftedBy(base, after, moved, MinusPosition(base[y].position, from), mark)
    && moved <= Carried(parent, anchor, rank, y) - {y}
    && (base[y].position == from ==> moved == {})
    && (base[y].position != from ==>
          forall c :: c in AnchoredChildren(children, anchor, y) && c !in pending ==> Carried(parent, anchor, rank, c) <= moved)
    && (forall c :: c in pending ==> Carried(parent, anchor, rank, c) !! moved)
  }

  /** Before the step for a pending child `c`, the child and what it carries are as they were, and `c` still agrees with `y`'s old position. */
  lemma ChildReady(parent: map<Id, Id>, children: map<Id, set<Id>>, anchor: map<Id, bool>, rank: map<Id, nat>,
                   before: map<Id, Pose>, base: map<Id, Pose>, after: map<Id, Pose>, y: Id, pending: set<Id>,
                   moved: set<Id>, mark: Flags -> Flags, c: Id)
    requires Prepared(parent, children, anchor, rank, before, base, y)
    requires Progress(parent, children, anchor, rank, y, before[y].position, pending, base, after, moved, mark) && c in pending
    ensures Forest(parent, children, rank, after.Keys) && anchor.Keys == after.Keys
    ensures c in parent && parent[c] == y && c in anchor && anchor[c] && after[y] == base[y]
    ensures after[c].relative == MinusPosition(after[c].position, before[y].position)
    ensures forall z :: z in Carried(parent, anchor, rank, c) && z != c ==> Placed(parent, anchor, after, z)
  {
    ChildSubtree(parent, rank, AnchoredOf(anchor), c);
    assert c in Carried(parent, anchor, rank, c);
    forall z | z in Carried(parent, anchor, rank, c)
      ensures after[z] == before[z] && Placed(parent, anchor, before, z)
    {
    }
    forall z | z in Carried(parent, anchor, rank, c) && z != c
      ensures Placed(parent, anchor, after, z)
    {
      assert Placed(parent, anchor, before, z);
    }
  }

  /** After the step for `c`, the loop's state holds again without `c`. */
  lemma ChildDone(parent: map<Id, Id>, children: map<Id, set<Id>>, anchor: map<Id, bool>, rank: map<Id, nat>,
                  before: map<Id, Pose>, base: map<Id, Pose>, mid: map<Id, Pose>, after: map<Id, Pose>, y: Id,
                  pending: set<Id>, moved: set<Id>, mark: Flags -> Flags, c: Id)
    requires Prepared(parent, children, anchor, rank, before, base, y)
    requires Progress(parent, children, anchor, rank, y, before[y].position, pending, base, mid, moved, mark) && c in pending
    requires mid[y] == base[y]
    requires ShiftedBy(mid, after, if base[y].position == before[y].position then {} else Carried(parent, anchor, rank, c),
                       MinusPosition(base[y].position, before[y].position), mark)
    ensures Progress(parent, children, anchor, rank, y, before[y].position, pending - {c}, base, after,
                     if base[y].position == before[y].position then moved else moved + Carried(parent, anchor, rank, c), mark)
  {
    ChildSubtree(parent, rank, AnchoredOf(anchor), c);
    forall d | d in pending - {c}
      ensures Carried(parent, anchor, rank, c) !! Carried(parent, anchor, rank, d)
    {
      SiblingsApart(parent, rank, AnchoredOf(anchor), c, d);
    }
    if base[y].position != before[y].position {
      ShiftedTwice(base, mid, after, moved, Carried(parent, anchor, rank, c), MinusPosition(base[y].position, before[y].position), mark);
    }
  }

  /**
   * One step of the loop over the anchored children: the child `c` of a
   * parent that has moved from `from` is set to the parent's position plus
   * its relative position, which moves it and what it carries by the
   * parent's offset, or leaves everything as it was when the parent stayed.
   */
  method MoveChild(parent: map<Id, Id>, children: map<Id, set<Id>>, anchor: map<Id, bool>, ghost rank: map<Id, nat>,
                   mark: Flags -> Flags, ghost from: Position, poses: map<Id, Pose>, c: Id) returns (after: map<Id, Pose>)
    requires Forest(parent, children, rank, poses.Keys) && anchor.Keys == poses.Keys
    requires c in parent && c in anchor && anchor[c]
    requires poses[c].relative == MinusPosition(poses[c].position, from)
    requires forall z :: z in Carried(parent, anchor, rank, c) && z != c ==> Placed(parent, anchor, poses, z)
    decreases rank[parent[c]], 0
    ensures var to := poses[parent[c]].position;
      ShiftedBy(poses, after, if to == from then {} else Carried(parent, anchor, rank, c), MinusPosition(to, from), mark)
  {
    var to := poses[parent[c]].position;
    var target := PlusPosition(to, poses[c].relative);
    FollowParent(to, from, poses[c].position, poses[c].relative);
    assert RelativeOf(parent, anchor, poses, c, target) == poses[c].relative;
    assert poses[c := poses[c].(relative := poses[c].relative)] == poses;
    after := AssignPosition(parent, children, anchor, rank, mark, poses, c, target);
  }

  /** Shifting the objects of `moved` and then flagging `y` shifts them and `y` from a start that differs only at `y`. */
  lemma ShiftedWithRoot(base: map<Id, Pose>, after: map<Id, Pose>, start: map<Id, Pose>, y: Id, moved: set<Id>,
                        delta: Position, mark: Flags -> Flags)
    requires ShiftedBy(base, after, moved, delta, mark) && y !in moved && y in base
    requires start.Keys == base.Keys && forall z :: z in start && z != y ==> start[z] == base[z]
    requires Shift(start[y], delta, mark) == after[y].(flags := mark(after[y].flags))
    ensures ShiftedBy(start, after[y := after[y].(flags := mark(after[y].flags))], moved + {y}, delta, mark)
  {
  }

  /** Everything `y` carries other than itself is carried by one of its anchored children. */
  lemma ChildrenCover(parent: map<Id, Id>, children: map<Id, set<Id>>, anchor: map<Id, bool>, rank: map<Id, nat>,
                      y: Id, moved: set<Id>)
    requires Forest(parent, children, rank, rank.Keys) && anchor.Keys == rank.Keys && y in children
    requires forall c :: c in AnchoredChildren(children, anchor, y) ==> Carried(parent, anchor, rank, c) <= moved
    ensures Carried(parent, anchor, rank, y) - {y} <= moved
  {
    forall z | z in Carried(parent, anchor, rank, y) && z != y
      ensures z in moved
    {
      var c := Toward(parent, rank, AnchoredOf(anchor), y, z);
      assert c in AnchoredChildren(children, anchor, y);
      assert z in Carried(parent, anchor, rank, c);
    }
  }

  /** The flag update of a move: `set(flags: positionDidUpdate)`. */
  function MarkMoved(positionDidUpdate: Flags): Flags -> Flags {
    f => SetFlags(f, positionDidUpdate)
  }

  /** Every object's relative position agrees with its position. */
  ghost predicate AllPlaced(parent: map<Id, Id>, anchor: map<Id, bool>, poses: map<Id, Pose>) {
    forall z :: z in poses ==> Placed(parent, anchor, poses, z)
  }

  /**
   * A move of `y` to `p` that shifts what `y` carries (or only `y`, when it
   * stays put) and gives `y` the relative position that goes with `p`
   * leaves every object agreeing, provided every object but `y` agreed.
   */
  lemma MoveKeepsPlaced(parent: map<Id, Id>, children: map<Id, set<Id>>, anchor: map<Id, bool>, rank: map<Id, nat>,
                        poses: map<Id, Pose>, after: map<Id, Pose>, y: Id, p: Position, s: set<Id>, mark: Flags -> Flags)
    requires Forest(parent, children, rank, poses.Keys) && anchor.Keys == poses.Keys && y in poses
    requires forall z :: z in poses && z != y ==> Placed(parent, anchor, poses, z)
    requires s == Carried(parent, anchor, rank, y) || (s == {y} && p == poses[y].position)
    requires ShiftedBy(poses[y := poses[y].(relative := RelativeOf(parent, anchor, poses, y, p))], after, s,
                       MinusPosition(p, poses[y].position), mark)
    ensures AllPlaced(parent, anchor, after)
  {
    var delta := MinusPosition(p, poses[y].position);
    PlusMinus(p, poses[y].position);
    assert y in s && after[y].position == p;
    forall z | z in after
      ensures Placed(parent, anchor, after, z)
    {
      if z == y {
        if y in parent {
          assert parent[y] !in s by {
            if parent[y] in s {
              UnderRank(parent, rank, AnchoredOf(anchor), y, parent[y]);
            }
          }
        }
      } else {
        assert Placed(parent, anchor, poses, z);
        if z in parent && anchor[z] && s != {y} {
          if parent[z] in s {
            UnderRank(parent, rank, AnchoredOf(anchor), y, parent[z]);
          }
          assert z in s <==> parent[z] in s;
        }
      }
    }
  }

  /** Changes that leave every position and relative position alone keep them agreeing. */
  lemma SamePlaces(parent: map<Id, Id>, anchor: map<Id, bool>, poses: map<Id, Pose>, after: map<Id, Pose>)
    requires AllPlaced(parent, anchor, poses) && after.Keys == poses.Keys
    requires forall z :: z in poses ==> after[z].position == poses[z].position && after[z].relative == poses[z].relative
    ensures AllPlaced(parent, anchor, after)
  {
    forall z | z in after
      ensures Placed(parent, anchor, after, z)
    {
      assert Placed(parent, anchor, poses, z);
      if z in parent {
        var q := parent[z];
        assert after[q].position == poses[q].position;
      }
    }
  }

  /** Nothing occurs twice. */
  predicate Distinct(s: seq<Id>) {
    forall i, j :: 0 <= i < j < |s| ==> s[i] != s[j]
  }

  /** The family of `x`, which `traverseFamily` visits: the whole tree of its root. */
  ghost function Family(parent: map<Id, Id>, rank: map<Id, nat>, x: Id): set<Id>
    requires Ranked(parent, rank) && x in rank
  {
    Subtree(parent, rank, parent.Keys, Root(parent, rank, x))
  }

  /** A child of a member of a tree is in the tree. */
  lemma ChildInTree(parent: map<Id, Id>, children: map<Id, set<Id>>, rank: map<Id, nat>, root: Id, v: Id, c: Id)
    requires Forest(parent, children, rank, rank.Keys) && v in Subtree(parent, rank, parent.Keys, root)
    requires v in children && c in children[v]
    ensures c in Subtree(parent, rank, parent.Keys, root)
  {
    ChildUnder(parent, rank, parent.Keys, c);
    UnderTransitive(parent, rank, parent.Keys, root, v, c);
  }

  /**
   * `traverseFamily(andDo:)` with the action `familyId = fam`: climb to the
   * root, then visit breadth first, skipping what was visited. Every member
   * of the family is visited exactly once, in `order`, and gets `fam`; no
   * other object changes.
   */
  method TraverseFamily(parent: map<Id, Id>, children: map<Id, set<Id>>, ghost rank: map<Id, nat>,
                        familyId: map<Id, FamilyId>, x: Id, fam: FamilyId) returns (ids: map<Id, FamilyId>, order: seq<Id>)
    requires Forest(parent, children, rank, familyId.Keys) && x in familyId
    ensures ids.Keys == familyId.Keys
    ensures forall z :: z in familyId ==> ids[z] == if z in Family(parent, rank, x) then fam else familyId[z]
    ensures Distinct(order) && forall z :: z in order <==> z in Family(parent, rank, x)
  {
    var root := x;
    while root in parent
      invariant root in rank && Root(parent, rank, root) == Root(parent, rank, x)
      decreases |Higher(rank, root)|
    {
      HigherShrinks(rank, root, parent[root]);
      root := parent[root];
    }
    ghost var family := Subtree(parent, rank, parent.Keys, root);
    assert root in family;
    var visited: set<Id> := {};
    var queue := [root];
    ids, order := familyId, [];
    while queue != []
      invariant Visiting(parent, children, rank, familyId, root, fam, visited, queue, ids, order)
      decreases |family - visited|, |queue|
    {
      var current := queue[0];
      if current in visited {
        SkipVisited(parent, children, rank, familyId, root, fam, visited, queue, ids, order);
        queue := queue[1..];
        continue;
      }
      var q := QueueChildren(parent, children, rank, family, root, visited, queue[1..], current);
      Visit(parent, children, rank, familyId, root, fam, visited, queue, ids, order, q);
      assert family - (visited + {current}) < family - visited;
      ids := ids[current := fam];
      visited := visited + {current};
      order := order + [current];
      queue := q;
    }
    forall z | z in family
      ensures z in visited
    {
      ClosedHoldsSubtree(parent, rank, visited, root, z);
    }
  }

  /** What holds at each turn of the breadth-first loop of `traverseFamily`. */
  ghost predicate Visiting(parent: map<Id, Id>, children: map<Id, set<Id>>, rank: map<Id, nat>, familyId: map<Id, FamilyId>,
                           root: Id, fam: FamilyId, visited: set<Id>, queue: seq<Id>, ids: map<Id, FamilyId>, order: seq<Id>)
  {
    && Forest(parent, children, rank, familyId.Keys)
    && var family := Subtree(parent, rank, parent.Keys, root);
    && visited <= family && (forall i :: 0 <= i < |queue| ==> queue[i] in family)
    && (root in visited || root in queue)
    && (forall c :: c in parent && parent[c] in visited ==> c in visited || c in queue)
    && Distinct(order) && (forall z :: z in order <==> z in visited)
    && ids.Keys == familyId.Keys
    && (forall z :: z in familyId ==> ids[z] == if z in visited then fam else familyId[z])
  }

  /** Dropping an object already visited from the front of the queue. */
  lemma SkipVisited(parent: map<Id, Id>, children: map<Id, set<Id>>, rank: map<Id, nat>, familyId: map<Id, FamilyId>,
                    root: Id, fam: FamilyId, visited: set<Id>, queue: seq<Id>, ids: map<Id, FamilyId>, order: seq<Id>)
    requires Visiting(parent, children, rank, familyId, root, fam, visited, queue, ids, order)
    requires queue != [] && queue[0] in visited
    ensures Visiting(parent, children, rank, familyId, root, fam, visited, queue[1..], ids, order)
  {
    forall c | c in parent && parent[c] in visited
      ensures c in visited || c in queue[1..]
    {
      if c !in visited {
        var i :| 0 <= i < |queue| && queue[i] == c;
        assert i > 0 && queue[1..][i - 1] == c;
      }
    }
  }

  /** Visiting the front of the queue, whose unvisited children `q` queues behind the rest. */
  lemma Visit(parent: map<Id, Id>, children: map<Id, set<Id>>, rank: map<Id, nat>, familyId: map<Id, FamilyId>,
              root: Id, fam: FamilyId, visited: set<Id>, queue: seq<Id>, ids: map<Id, FamilyId>, order: seq<Id>, q: seq<Id>)
    requires Visiting(parent, children, rank, familyId, root, fam, visited, queue, ids, order)
    requires queue != [] && queue[0] !in visited && queue[0] in children
    requires |q| >= |queue| - 1 && q[..|queue| - 1] == queue[1..]
    requires forall c :: c in children[queue[0]] && c !in visited ==> c in q
    requires forall i :: |queue| - 1 <= i < |q| ==> q[i] in Subtree(parent, rank, parent.Keys, root)
    ensures Visiting(parent, children, rank, familyId, root, fam, visited + {queue[0]}, q, ids[queue[0] := fam], order + [queue[0]])
  {
    var family := Subtree(parent, rank, parent.Keys, root);
    var current := queue[0];
    forall i | 0 <= i < |q|
      ensures q[i] in family
    {
      if i < |queue| - 1 {
        assert q[i] == queue[1..][i] == queue[i + 1];
      }
    }
    forall c | c in parent && parent[c] in visited + {current}
      ensures c in visited + {current} || c in q
    {
      if c !in visited && c != current {
        if parent[c] == current {
          assert c in children[current];
        } else {
          var i :| 0 <= i < |queue| && queue[i] == c;
          assert i > 0 && q[i - 1] == queue[1..][i - 1] == c;
        }
      }
    }
    var order' := order + [current];
    forall i, j | 0 <= i < j < |order'|
      ensures order'[i] != order'[j]
    {
      if j == |order| {
        assert order'[i] == order[i] && order[i] in visited;
      }
    }
  }

  /** The inner loop of `traverseFamily`: the children of `current` not yet visited join the back of the queue. */
  method QueueChildren(parent: map<Id, Id>, children: map<Id, set<Id>>, ghost rank: map<Id, nat>, ghost family: set<Id>,
                       ghost root: Id, visited: set<Id>, queue: seq<Id>, current: Id) returns (q: seq<Id>)
    requires Forest(parent, children, rank, rank.Keys) && current in children
    requires family == Subtree(parent, rank, parent.Keys, root) && current in family
    ensures |q| >= |queue| && q[..|queue|] == queue
    ensures forall c :: c in children[current] && c !in visited ==> c in q
    ensures forall i :: |queue| <= i < |q| ==> q[i] in family
  {
    var rest := children[current];
    q := queue;
    while rest != {}
      invariant rest <= children[current]
      invariant |q| >= |queue| && q[..|queue|] == queue
      invariant forall c :: c in children[current] && c !in rest && c !in visited ==> c in q
      invariant forall i :: |queue| <= i < |q| ==> q[i] in family
      decreases |rest|
    {
      var child := Pick(rest);
      rest := rest - {child};
      if child !in visited {
        ChildInTree(parent, children, rank, root, current, child);
        q := q + [child];
      }
    }
  }

  /** What `update` does to the flags: `flags.remove(positionDidUpdate)`. */
  function UnmarkMoved(positionDidUpdate: Flags): Flags -> Flags {
    f => ClearFlags(f, positionDidUpdate)
  }

  /** `after` and `frames'` are `poses` and `frames` with every object of `s` updated once: flags passed through `unmark`, frame counted. */
  ghost predicate Ticked(poses: map<Id, Pose>, frames: map<Id, int>, after: map<Id, Pose>, frames': map<Id, int>,
                         s: set<Id>, unmark: Flags -> Flags) {
    && after.Keys == poses.Keys && frames'.Keys == frames.Keys
    && (forall z :: z in poses ==> after[z] == if z in s then poses[z].(flags := unmark(poses[z].flags)) else poses[z])
    && (forall z :: z in frames ==> frames'[z] == if z in s then frames[z] + 1 else frames[z])
  }

  /**
   * `update(_:)` on `x`: clear `positionDidUpdate`, update every child, and
   * count the frame. Every object below `x` is updated exactly once and
   * nothing else changes.
   */
  method UpdateTree(parent: map<Id, Id>, children: map<Id, set<Id>>, ghost rank: map<Id, nat>, unmark: Flags -> Flags,
                    poses: map<Id, Pose>, frames: map<Id, int>, x: Id) returns (after: map<Id, Pose>, frames': map<Id, int>)
    requires Forest(parent, children, rank, poses.Keys) && frames.Keys == poses.Keys && x in poses
    ensures Ticked(poses, frames, after, frames', Subtree(parent, rank, parent.Keys, x), unmark)
    decreases rank[x]
  {
    after := poses[x := poses[x].(flags := unmark(poses[x].flags))];
    frames' := frames;
    ghost var base := after;
    ghost var done: set<Id> := {};
    var pending := children[x];
    while pending != {}
      invariant after.Keys == poses.Keys && frames'.Keys == poses.Keys
      invariant Ticking(parent, children, rank, x, pending, base, frames, after, frames', done, unmark)
      decreases |pending|
    {
      var c := Pick(pending);
      assert parent[c] == x;
      ghost var mid, midFrames := after, frames';
      after, frames' := UpdateTree(parent, children, rank, unmark, after, frames', c);
      TickDone(parent, children, rank, x, pending, base, frames, mid, midFrames, after, frames', done, unmark, c);
      pending := pending - {c};
      done := done + Subtree(parent, rank, parent.Keys, c);
    }
    TicksCover(parent, children, rank, x, done);
    frames' := frames'[x := frames'[x] + 1];
    TickedWithRoot(parent, rank, poses, frames, base, after, frames', x, done, unmark);
  }

  /** What holds at each turn of `update`'s loop over the children of `x`: the children no longer pending are done with all below them. */
  ghost predicate Ticking(parent: map<Id, Id>, children: map<Id, set<Id>>, rank: map<Id, nat>, x: Id, pending: set<Id>,
                          base: map<Id, Pose>, frames: map<Id, int>, after: map<Id, Pose>, frames': map<Id, int>,
                          done: set<Id>, unmark: Flags -> Flags) {
    && Ranked(parent, rank) && x in children && pending <= children[x]
    && Ticked(base, frames, after, frames', done, unmark)
    && done <= Subtree(parent, rank, parent.Keys, x) - {x}
    && (forall c :: c in children[x] && c !in pending ==> Subtree(parent, rank, parent.Keys, c) <= done)
    && (forall c :: c in pending ==> Subtree(parent, rank, parent.Keys, c) !! done)
  }

  /** One child of `x` updated, with all below it. */
  lemma TickDone(parent: map<Id, Id>, children: map<Id, set<Id>>, rank: map<Id, nat>, x: Id, pending: set<Id>,
                 base: map<Id, Pose>, frames: map<Id, int>, mid: map<Id, Pose>, midFrames: map<Id, int>,
                 after: map<Id, Pose>, frames': map<Id, int>, done: set<Id>, unmark: Flags -> Flags, c: Id)
    requires Forest(parent, children, rank, base.Keys)
    requires Ticking(parent, children, rank, x, pending, base, frames, mid, midFrames, done, unmark)
    requires c in pending && Ticked(mid, midFrames, after, frames', Subtree(parent, rank, parent.Keys, c), unmark)
    ensures Ticking(parent, children, rank, x, pending - {c}, base, frames, after, frames',
                    done + Subtree(parent, rank, parent.Keys, c), unmark)
  {
    var sub := Subtree(parent, rank, parent.Keys, c);
    ChildSubtree(parent, rank, parent.Keys, c);
    forall d | d in pending - {c}
      ensures Subtree(parent, rank, parent.Keys, d) !! done + sub
    {
      SiblingsApart(parent, rank, parent.Keys, c, d);
    }
  }

  /** Once every child of `x` is done, everything strictly below `x` is. */
  lemma TicksCover(parent: map<Id, Id>, children: map<Id, set<Id>>, rank: map<Id, nat>, x: Id, done: set<Id>)
    requires Forest(parent, children, rank, rank.Keys) && x in children
    requires forall c :: c in children[x] ==> Subtree(parent, rank, parent.Keys, c) <= done
    ensures Subtree(parent, rank, parent.Keys, x) - {x} <= done
  {
    forall z | z in Subtree(parent, rank, parent.Keys, x) - {x}
      ensures z in done
    {
      var c := Toward(parent, rank, parent.Keys, x, z);
      assert c in children[x];
    }
  }

  /** `x` itself, updated before its children and counted after them, completes the update of its subtree. */
  lemma TickedWithRoot(parent: map<Id, Id>, rank: map<Id, nat>, poses: map<Id, Pose>, frames: map<Id, int>,
                       base: map<Id, Pose>, after: map<Id, Pose>, frames': map<Id, int>, x: Id, done: set<Id>, unmark: Flags -> Flags)
    requires Ranked(parent, rank) && x in rank && x in poses && x in frames
    requires base == poses[x := poses[x].(flags := unmark(poses[x].flags))]
    requires done == Subtree(parent, rank, parent.Keys, x) - {x}
    requires x in frames' && Ticked(base, frames, after, frames'[x := frames[x]], done, unmark)
    requires frames'[x] == frames[x] + 1
    ensures Ticked(poses, frames, after, frames', Subtree(parent, rank, parent.Keys, x), unmark)
  {
    assert x in Subtree(parent, rank, parent.Keys, x);
  }

  /**
   * The guard of `add(child:)` as written: only that the child is in no
   * world and has no parent. It lets an object adopt itself (or an
   * ancestor), and nothing stops the parent walk of `traverseFamily` then.
   */
  predicate AcceptsChildAsWritten(inWorld: set<Id>, parent: map<Id, Id>, child: Id) {
    child !in inWorld && child !in parent
  }

  /** `n` steps of the parent walk of `traverseFamily` from `x`: `None` once it reaches a root. */
  function Climb(parent: map<Id, Id>, x: Id, n: nat): Option<Id>
    decreases n
  {
    if n == 0 then Some(x)
    else if x in parent then Climb(parent, parent[x], n - 1)
    else None
  }

  /** A self-adoption the guard as written lets through leaves a parent walk that never reaches a root. */
  lemma SelfAdoptionNeverReachesRoot(inWorld: set<Id>, parent: map<Id, Id>, x: Id, n: nat)
    requires x !in parent && x !in inWorld
    ensures AcceptsChildAsWritten(inWorld, parent, x) && Climb(parent[x := x], x, n) == Some(x)
  {
    SelfLoopClimbs(parent[x := x], x, n);
  }

  /** An object that is its own parent climbs to itself forever. */
  lemma {:induction false} SelfLoopClimbs(parent: map<Id, Id>, x: Id, n: nat)
    requires x in parent && parent[x] == x
    ensures Climb(parent, x, n) == Some(x)
  {
    if n > 0 {
      SelfLoopClimbs(parent, x, n - 1);
    }
  }

  /**
   * The check the corrected `add(child:)` adds: whether `a` is `z` or one
   * of its ancestors, found by walking up from `z`.
   */
  function AncestorOrSelf(parent: map<Id, Id>, ghost rank: map<Id, nat>, a: Id, z: Id): (b: bool)
    requires Ranked(parent, rank) && z in rank
    ensures b <==> Under(parent, rank, parent.Keys, a, z)
    decreases |Higher(rank, z)|
  {
    if z == a then true
    else if z in parent then
      HigherShrinks(rank, z, parent[z]);
      var b := AncestorOrSelf(parent, rank, a, parent[z]);
      assert b ==> a in rank && rank[z] < rank[a] by {
        if b {
          UnderRank(parent, rank, parent.Keys, a, parent[z]);
        }
      }
      b
    else false
  }

  /** Linked objects share their `familyId`. */
  ghost predicate FamiliesAgree(parent: map<Id, Id>, familyId: map<Id, FamilyId>) {
    forall c :: c in parent ==> c in familyId && parent[c] in familyId && familyId[c] == familyId[parent[c]]
  }

  /** A link has both ends in a family or neither. */
  lemma LinkInFamily(parent: map<Id, Id>, rank: map<Id, nat>, x: Id, c: Id)
    requires Ranked(parent, rank) && x in rank && c in parent
    ensures c in Family(parent, rank, x) <==> parent[c] in Family(parent, rank, x)
  {
    var root := Root(parent, rank, x);
    if parent[c] in Family(parent, rank, x) {
      ChildUnder(parent, rank, parent.Keys, c);
      UnderTransitive(parent, rank, parent.Keys, root, parent[c], c);
    }
  }

  /**
   * Giving one family a new id keeps linked objects agreeing, provided the
   * links outside the family agreed before.
   */
  lemma RefamilyAgrees(parent: map<Id, Id>, rank: map<Id, nat>, familyId: map<Id, FamilyId>, ids: map<Id, FamilyId>,
                       x: Id, fam: FamilyId)
    requires Ranked(parent, rank) && x in rank && parent.Keys <= familyId.Keys && ids.Keys == familyId.Keys
    requires forall c :: c in parent ==> parent[c] in familyId
    requires forall z :: z in familyId ==> ids[z] == if z in Family(parent, rank, x) then fam else familyId[z]
    requires forall c :: c in parent && c !in Family(parent, rank, x) ==> familyId[c] == familyId[parent[c]]
    ensures FamiliesAgree(parent, ids)
  {
    forall c | c in parent
      ensures ids[c] == ids[parent[c]]
    {
      LinkInFamily(parent, rank, x, c);
    }
  }

  /** Placing an object at `a + r` gives it the offset `r` from `a`, and the other way round. */
  lemma OffsetFrom(a: Position, r: Position, p: Position)
    ensures PlusPosition(a, r) == p <==> r == MinusPosition(p, a)
  {
  }

  /** Where `relativePositionDidChange(from:)` anchors `x`: an anchoring parent's position, else the origin. */
  function AnchorPosition(parent: map<Id, Id>, anchor: map<Id, bool>, poses: map<Id, Pose>, x: Id): Position
    requires x in anchor && (x in parent ==> parent[x] in poses)
  {
    if x in parent && anchor[x] then poses[parent[x]].position else Origin
  }

  /** The relative position that goes with a position is its offset from the anchor position. */
  lemma RelativeFromAnchor(parent: map<Id, Id>, anchor: map<Id, bool>, poses: map<Id, Pose>, x: Id, r: Position)
    requires x in anchor && (x in parent ==> parent[x] in poses)
    ensures RelativeOf(parent, anchor, poses, x, PlusPosition(AnchorPosition(parent, anchor, poses, x), r)) == r
  {
    PlusMinus(r, AnchorPosition(parent, anchor, poses, x));
  }

  /**
   * `parentDidChange(from:)`, run once the links are those of `parent`:
   * the whole family of `x` gets the new id `fam`; an anchored `x` with a
   * parent is set to the parent's position plus its relative position,
   * carrying along what is anchored below it; otherwise `x` keeps its
   * position and takes it as its relative position. Afterwards every
   * relative position agrees and linked objects share a family again.
   */
  method ParentDidChange(parent: map<Id, Id>, children: map<Id, set<Id>>, anchor: map<Id, bool>, ghost rank: map<Id, nat>,
                         mark: Flags -> Flags, poses: map<Id, Pose>, familyId: map<Id, FamilyId>, x: Id, fam: FamilyId)
    returns (after: map<Id, Pose>, ids: map<Id, FamilyId>)
    requires Forest(parent, children, rank, poses.Keys) && anchor.Keys == poses.Keys && familyId.Keys == poses.Keys && x in poses
    requires forall z :: z in poses && z != x ==> Placed(parent, anchor, poses, z)
    requires forall c :: c in parent && c !in Family(parent, rank, x) ==> familyId[c] == familyId[parent[c]]
    ensures AllPlaced(parent, anchor, after) && FamiliesAgree(parent, ids)
    ensures after.Keys == poses.Keys && ids.Keys == familyId.Keys
    ensures forall z :: z in familyId ==> ids[z] == if z in Family(parent, rank, x) then fam else familyId[z]
    ensures x in parent && anchor[x] ==>
      var target := PlusPosition(poses[parent[x]].position, poses[x].relative);
      && (target == poses[x].position ==> after == poses)
      && (target != poses[x].position ==>
            ShiftedBy(poses, after, Carried(parent, anchor, rank, x), MinusPosition(target, poses[x].position), mark))
    ensures !(x in parent && anchor[x]) ==> after == poses[x := poses[x].(relative := poses[x].position)]
  {
    var order;
    ids, order := TraverseFamily(parent, children, rank, familyId, x, fam);
    RefamilyAgrees(parent, rank, familyId, ids, x, fam);
    if x in parent && anchor[x] {
      var target := PlusPosition(poses[parent[x]].position, poses[x].relative);
      after := AssignPosition(parent, children, anchor, rank, mark, poses, x, target);
      AnchoredPlaced(parent, children, anchor, rank, mark, poses, after, x);
    } else {
      after := poses[x := poses[x].(relative := poses[x].position)];
      FreePlaced(parent, anchor, poses, x);
    }
  }

  /**
   * Placing an anchored `x` at its parent's position plus its relative
   * position leaves every object agreeing, and the move shifts what `x`
   * carries with its relative position kept.
   */
  lemma AnchoredPlaced(parent: map<Id, Id>, children: map<Id, set<Id>>, anchor: map<Id, bool>, rank: map<Id, nat>,
                       mark: Flags -> Flags, poses: map<Id, Pose>, after: map<Id, Pose>, x: Id)
    requires Forest(parent, children, rank, poses.Keys) && anchor.Keys == poses.Keys && x in poses && x in parent && anchor[x]
    requires forall z :: z in poses && z != x ==> Placed(parent, anchor, poses, z)
    requires var target := PlusPosition(poses[parent[x]].position, poses[x].relative);
      && (target == poses[x].position ==> after == poses)
      && (target != poses[x].position ==>
            ShiftedBy(poses[x := poses[x].(relative := RelativeOf(parent, anchor, poses, x, target))], after,
                      Carried(parent, anchor, rank, x), MinusPosition(target, poses[x].position), mark))
    ensures AllPlaced(parent, anchor, after)
    ensures var target := PlusPosition(poses[parent[x]].position, poses[x].relative);
      target != poses[x].position ==>
        ShiftedBy(poses, after, Carried(parent, anchor, rank, x), MinusPosition(target, poses[x].position), mark)
  {
    var target := PlusPosition(poses[parent[x]].position, poses[x].relative);
    OffsetFrom(poses[parent[x]].position, poses[x].relative, poses[x].position);
    if target != poses[x].position {
      RelativeFromAnchor(parent, anchor, poses, x, poses[x].relative);
      assert poses[x := poses[x].(relative := RelativeOf(parent, anchor, poses, x, target))] == poses;
      MoveKeepsPlaced(parent, children, anchor, rank, poses, after, x, target, Carried(parent, anchor, rank, x), mark);
    } else {
      assert Placed(parent, anchor, poses, x);
    }
  }

  /** An object that does not follow a parent, taking its position as its relative position, agrees. */
  lemma FreePlaced(parent: map<Id, Id>, anchor: map<Id, bool>, poses: map<Id, Pose>, x: Id)
    requires x in poses && x in anchor && !(x in parent && anchor[x]) && (x in parent ==> parent[x] in poses)
    requires forall z :: z in poses && z != x ==> Placed(parent, anchor, poses, z)
    ensures AllPlaced(parent, anchor, poses[x := poses[x].(relative := poses[x].position)])
  {
    var after := poses[x := poses[x].(relative := poses[x].position)];
    forall z | z in after
      ensures Placed(parent, anchor, after, z)
    {
      if z != x {
        assert Placed(parent, anchor, poses, z);
      }
    }
  }

  /** A new object without links keeps the links a forest. */
  lemma CreateForest(parent: map<Id, Id>, children: map<Id, set<Id>>, rank: map<Id, nat>, ids: set<Id>, x: Id)
    requires Forest(parent, children, rank, ids) && x !in ids
    ensures Forest(parent, children[x := {}], rank[x := 0], ids + {x})
  {
  }

  /**
   * The ghost ranks after `c` is linked below `p`: `p` and its ancestors
   * are raised above `c`.
   */
  ghost function Raised(parent: map<Id, Id>, rank: map<Id, nat>, p: Id, c: Id): map<Id, nat>
    requires Ranked(parent, rank) && c in rank
  {
    map z | z in rank :: if Under(parent, rank, parent.Keys, z, p) then rank[z] + rank[c] + 1 else rank[z]
  }

  /** Linking a root `c` below `p`, where `c` is neither `p` nor an ancestor of `p`, keeps the links a forest. */
  lemma AdoptForest(parent: map<Id, Id>, children: map<Id, set<Id>>, rank: map<Id, nat>, ids: set<Id>, p: Id, c: Id)
    requires Forest(parent, children, rank, ids) && p in ids && c in ids && c !in parent
    requires !Under(parent, rank, parent.Keys, c, p)
    ensures Forest(parent[c := p], children[p := children[p] + {c}], Raised(parent, rank, p, c), ids)
  {
    var rank' := Raised(parent, rank, p, c);
    var parent' := parent[c := p];
    assert Under(parent, rank, parent.Keys, p, p);
    forall d | d in parent'
      ensures rank'[d] < rank'[parent'[d]]
    {
      if d != c && Under(parent, rank, parent.Keys, d, p) {
        ChildUnder(parent, rank, parent.Keys, d);
        UnderTransitive(parent, rank, parent.Keys, parent[d], d, p);
      }
    }
    var children' := children[p := children[p] + {c}];
    forall q, d | q in children' && d in children'[q]
      ensures d in parent' && parent'[d] == q
    {
      if q != p {
        assert d in children[q];
      } else if d != c {
        assert d in children[p];
      }
    }
  }

  /** Unlinking `x` from its parent keeps the links a forest. */
  lemma DetachForest(parent: map<Id, Id>, children: map<Id, set<Id>>, rank: map<Id, nat>, ids: set<Id>, x: Id)
    requires Forest(parent, children, rank, ids) && x in parent
    ensures Forest(parent - {x}, children[parent[x] := children[parent[x]] - {x}], rank, ids)
  {
  }

  /** Placement of the objects other than `x` does not depend on `x`'s link, its anchor or its own pose. */
  lemma PlacedElsewhere(parent: map<Id, Id>, anchor: map<Id, bool>, poses: map<Id, Pose>,
                        parent': map<Id, Id>, anchor': map<Id, bool>, poses': map<Id, Pose>, x: Id)
    requires AllPlaced(parent, anchor, poses) && anchor'.Keys == anchor.Keys && poses'.Keys == poses.Keys
    requires forall z :: z in poses && z != x ==> poses'[z] == poses[z] && anchor'[z] == anchor[z]
    requires forall z :: z in poses ==> poses'[z].position == poses[z].position
    requires forall z :: z != x ==> (z in parent' <==> z in parent) && (z in parent ==> parent'[z] == parent[z])
    ensures forall z :: z in poses' && z != x ==> Placed(parent', anchor', poses', z)
  {
    forall z | z in poses' && z != x
      ensures Placed(parent', anchor', poses', z)
    {
      assert Placed(parent, anchor, poses, z);
    }
  }
}
