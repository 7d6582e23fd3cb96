/**
 * The `GameObject` class of Sources/GameObject.swift, over the tree
 * operations of `PackageObjectTree`.
 */
module PackageGameObject {
  import opened Wrappers
  import opened LegacyGeometry
  import opened Flags
  import opened Hierarchy
  import opened PackageObjectTree

  /**
   * The stored properties of every object of a scene, each a map from
   * object to value; `world` is reduced to whether the object is in one,
   * and `updateFrame.forWorld` is `worldFrame`.
   */
  datatype Scene = Scene(parent: map<Id, Id>, children: map<Id, set<Id>>, anchorToParent: map<Id, bool>,
                         poses: map<Id, Pose>, attributes: map<Id, map<AttributeKey, real>>,
                         familyId: map<Id, FamilyId>, worldFrame: map<Id, int>, inWorld: set<Id>)

  /**
   * Every property is stored for every object, the links form a forest
   * (as `rank` witnesses), every relative position agrees with its
   * position, and linked objects share a family.
   */
  ghost predicate Arena(s: Scene, rank: map<Id, nat>) {
    && Forest(s.parent, s.children, rank, s.poses.Keys)
    && Keyed(s)
    && AllPlaced(s.parent, s.anchorToParent, s.poses) && FamiliesAgree(s.parent, s.familyId)
  }

  /** Every property is stored for exactly the objects, and the staged objects are objects. */
  ghost predicate Keyed(s: Scene) {
    && s.anchorToParent.Keys == s.poses.Keys && s.attributes.Keys == s.poses.Keys
    && s.familyId.Keys == s.poses.Keys && s.worldFrame.Keys == s.poses.Keys && s.inWorld <= s.poses.Keys
  }

  /** Changing an object's flags keeps the arena valid. */
  lemma ReflagArena(s: Scene, rank: map<Id, nat>, x: Id, g: Flags)
    requires Arena(s, rank) && x in s.poses
    ensures Arena(s.(poses := s.poses[x := s.poses[x].(flags := g)]), rank)
  {
    SamePlaces(s.parent, s.anchorToParent, s.poses, s.poses[x := s.poses[x].(flags := g)]);
  }

  /** A new object, at the origin with no parent and no children, keeps the arena valid. */
  lemma CreateArena(s: Scene, rank: map<Id, nat>, x: Id, fam: FamilyId, box: Option<Position>)
    requires Arena(s, rank) && x !in s.poses
    ensures Arena(Created(s, x, fam, box), rank[x := 0])
  {
    CreateForest(s.parent, s.children, rank, s.poses.Keys, x);
    CreateKeyed(s, x, fam, box);
    CreatePlaced(s.parent, s.anchorToParent, s.poses, x, box);
  }

  /**
   * `s` with the new object `x` of `init(_:)`: at the origin with the
   * contact box `box`, anchored, with no parent, no children and no
   * attributes, in the family `fam`, no frame counted.
   */
  function Created(s: Scene, x: Id, fam: FamilyId, box: Option<Position>): Scene {
    s.(poses := s.poses[x := Pose(Origin, Origin, box, NoFlags)], children := s.children[x := {}],
       anchorToParent := s.anchorToParent[x := true], attributes := s.attributes[x := map[]],
       familyId := s.familyId[x := fam], worldFrame := s.worldFrame[x := 0])
  }

  /** A new object is given every property. */
  lemma CreateKeyed(s: Scene, x: Id, fam: FamilyId, box: Option<Position>)
    requires Keyed(s)
    ensures Keyed(Created(s, x, fam, box))
  {
  }

  /** A new root at the origin keeps every object placed. */
  lemma CreatePlaced(parent: map<Id, Id>, anchor: map<Id, bool>, poses: map<Id, Pose>, x: Id, box: Option<Position>)
    requires AllPlaced(parent, anchor, poses) && x !in poses && x !in parent
    ensures AllPlaced(parent, anchor[x := true], poses[x := Pose(Origin, Origin, box, NoFlags)])
  {
    var poses' := poses[x := Pose(Origin, Origin, box, NoFlags)];
    forall z | z in poses'
      ensures Placed(parent, anchor[x := true], poses', z)
    {
      if z != x {
        assert Placed(parent, anchor, poses, z);
      }
    }
  }

  /**
   * `s'` is `s` after `update(_:)` on `x`: `x` and every object below it
   * updated once, each with `positionDidUpdate` cleared and its frame
   * counted, nothing else changed, and `x` without `positionDidUpdate`.
   */
  ghost predicate Updated(s: Scene, s': Scene, rank: map<Id, nat>, positionDidUpdate: Flags, x: Id)
    requires Ranked(s.parent, rank) && x in rank && x in s.poses
  {
    && s' == s.(poses := s'.poses, worldFrame := s'.worldFrame)
    && Ticked(s.poses, s.worldFrame, s'.poses, s'.worldFrame, Subtree(s.parent, rank, s.parent.Keys, x), UnmarkMoved(positionDidUpdate))
    && x in s'.poses && s'.poses[x].flags & positionDidUpdate == NoFlags
  }

  /** What `update(_:)` leaves of `positionDidUpdate`: nothing. */
  lemma UnmarkLacks(positionDidUpdate: Flags, f: Flags)
    ensures UnmarkMoved(positionDidUpdate)(f) & positionDidUpdate == NoFlags
  {
    ClearThenLacks(f, positionDidUpdate);
  }

  /** `update(_:)` on `x` over a scene. */
  method UpdateScene(s: Scene, ghost rank: map<Id, nat>, positionDidUpdate: Flags, x: Id) returns (s': Scene)
    requires Arena(s, rank) && x in s.poses
    ensures Arena(s', rank) && Updated(s, s', rank, positionDidUpdate, x)
  {
    var after, frames := UpdateTree(s.parent, s.children, rank, UnmarkMoved(positionDidUpdate), s.poses, s.worldFrame, x);
    s' := s.(poses := after, worldFrame := frames);
    TickedArena(s, s', rank, positionDidUpdate, x);
  }

  /** An update that only clears flags and counts frames keeps the scene valid. */
  lemma TickedArena(s: Scene, s': Scene, rank: map<Id, nat>, positionDidUpdate: Flags, x: Id)
    requires Arena(s, rank) && x in s.poses && s' == s.(poses := s'.poses, worldFrame := s'.worldFrame)
    requires Ticked(s.poses, s.worldFrame, s'.poses, s'.worldFrame, Subtree(s.parent, rank, s.parent.Keys, x), UnmarkMoved(positionDidUpdate))
    ensures Arena(s', rank) && Updated(s, s', rank, positionDidUpdate, x)
  {
    SamePlaces(s.parent, s.anchorToParent, s.poses, s'.poses);
    assert x in Subtree(s.parent, rank, s.parent.Keys, x);
    UnmarkLacks(positionDidUpdate, s.poses[x].flags);
  }

  /**
   * `s'` is `s` after `p` adopted the root `c`: `c` joins `p`'s children
   * with `p` as its parent, and the parent observer has run: the new
   * family (under the links of `s'`, ranked by `rank`) shares the id
   * `fam`, and an anchored `c` is placed at `p`'s position plus the
   * relative position it had as a root (its position), carrying along what
   * is anchored below it; a free `c` stays where it was.
   */
  ghost predicate Adopted(s: Scene, s': Scene, rank: map<Id, nat>, positionDidUpdate: Flags, p: Id, c: Id, fam: FamilyId) {
    && p in s.poses && c in s.poses && p in s.children && c in s'.anchorToParent && Ranked(s'.parent, rank) && c in rank
    && s' == s.(parent := s.parent[c := p], children := s.children[p := s.children[p] + {c}],
                poses := s'.poses, familyId := s'.familyId)
    && s'.familyId.Keys == s.familyId.Keys
    && (forall z :: z in s.familyId ==> s'.familyId[z] == if z in Family(s'.parent, rank, c) then fam else s.familyId[z])
    && (s'.anchorToParent[c] ==>
          var target := PlusPosition(s.poses[p].position, s.poses[c].position);
          && (target == s.poses[c].position ==> s'.poses == s.poses)
          && (target != s.poses[c].position ==>
                ShiftedBy(s.poses, s'.poses, Carried(s'.parent, s'.anchorToParent, rank, c),
                          MinusPosition(target, s.poses[c].position), MarkMoved(positionDidUpdate))))
    && (!s'.anchorToParent[c] ==> s'.poses == s.poses)
  }

  /** `p` adopts the root `c`, which is neither `p` nor one of its ancestors. */
  method AdoptScene(s: Scene, ghost rank: map<Id, nat>, positionDidUpdate: Flags, p: Id, c: Id, fam: FamilyId)
    returns (s': Scene, ghost rank': map<Id, nat>)
    requires Arena(s, rank) && p in s.poses && c in s.poses && c !in s.parent
    requires !Under(s.parent, rank, s.parent.Keys, c, p)
    ensures Arena(s', rank') && Adopted(s, s', rank', positionDidUpdate, p, c, fam)
  {
    var parent', children' := s.parent[c := p], s.children[p := s.children[p] + {c}];
    rank' := Raised(s.parent, rank, p, c);
    AdoptReady(s, rank, p, c);
    var after, ids := ParentDidChange(parent', children', s.anchorToParent, rank', MarkMoved(positionDidUpdate), s.poses, s.familyId, c, fam);
    s' := s.(parent := parent', children := children', poses := after, familyId := ids);
    assert Placed(s.parent, s.anchorToParent, s.poses, c);
    AdoptMeets(s, rank', positionDidUpdate, p, c, fam, after, ids);
  }

  /** Once `c` is linked below `p`, the links are a forest, every object but `c` is placed and only `c`'s family may disagree. */
  lemma AdoptReady(s: Scene, rank: map<Id, nat>, p: Id, c: Id)
    requires Forest(s.parent, s.children, rank, s.poses.Keys) && s.familyId.Keys == s.poses.Keys
    requires AllPlaced(s.parent, s.anchorToParent, s.poses) && FamiliesAgree(s.parent, s.familyId)
    requires p in s.poses && c in s.poses && c !in s.parent
    requires !Under(s.parent, rank, s.parent.Keys, c, p)
    ensures var parent', rank' := s.parent[c := p], Raised(s.parent, rank, p, c);
      && Forest(parent', s.children[p := s.children[p] + {c}], rank', s.poses.Keys)
      && (forall z :: z in s.poses && z != c ==> Placed(parent', s.anchorToParent, s.poses, z))
      && (forall d :: d in parent' && d !in Family(parent', rank', c) ==> s.familyId[d] == s.familyId[parent'[d]])
  {
    var parent', rank' := s.parent[c := p], Raised(s.parent, rank, p, c);
    AdoptForest(s.parent, s.children, rank, s.poses.Keys, p, c);
    PlacedElsewhere(s.parent, s.anchorToParent, s.poses, parent', s.anchorToParent, s.poses, c);
    UnderRoot(parent', rank', c);
    forall d | d in parent' && d !in Family(parent', rank', c)
      ensures s.familyId[d] == s.familyId[parent'[d]]
    {
    }
  }

  /** What the parent observer leaves for the root `c`, linked below `p`, adopts `c` as `Adopted` says. */
  lemma AdoptMeets(s: Scene, rank': map<Id, nat>, positionDidUpdate: Flags, p: Id, c: Id, fam: FamilyId,
                   after: map<Id, Pose>, ids: map<Id, FamilyId>)
    requires p in s.poses && c in s.poses && p in s.children && c in s.anchorToParent
    requires Ranked(s.parent[c := p], rank') && c in rank' && s.poses[c].relative == s.poses[c].position
    requires ids.Keys == s.familyId.Keys
    requires forall z :: z in s.familyId ==> ids[z] == if z in Family(s.parent[c := p], rank', c) then fam else s.familyId[z]
    requires s.anchorToParent[c] ==>
      var target := PlusPosition(s.poses[p].position, s.poses[c].relative);
      && (target == s.poses[c].position ==> after == s.poses)
      && (target != s.poses[c].position ==>
            ShiftedBy(s.poses, after, Carried(s.parent[c := p], s.anchorToParent, rank', c),
                      MinusPosition(target, s.poses[c].position), MarkMoved(positionDidUpdate)))
    requires !s.anchorToParent[c] ==> after == s.poses[c := s.poses[c].(relative := s.poses[c].position)]
    ensures Adopted(s, s.(parent := s.parent[c := p], children := s.children[p := s.children[p] + {c}], poses := after, familyId := ids),
                    rank', positionDidUpdate, p, c, fam)
  {
    assert s.poses[c := s.poses[c].(relative := s.poses[c].position)] == s.poses;
  }
  /**
   * `s'` is `s` after `anchorToParent` of `x` was set to `b`: the position
   * observer has run with `x` where it is, so that `x`'s relative position
   * is recomputed for the new anchoring, its contact box is put at its
   * position and it is flagged `positionDidUpdate`; nothing moves.
   */
  ghost predicate Reanchored(s: Scene, s': Scene, positionDidUpdate: Flags, x: Id, b: bool) {
    && x in s.poses && x in s.anchorToParent && (x in s.parent ==> s.parent[x] in s.poses)
    && s' == s.(anchorToParent := s.anchorToParent[x := b], poses := s'.poses)
    && var p := s.poses[x].position;
       ShiftedBy(s.poses[x := s.poses[x].(relative := RelativeOf(s'.parent, s'.anchorToParent, s.poses, x, p))],
                 s'.poses, {x}, MinusPosition(p, p), MarkMoved(positionDidUpdate))
  }

  /** The `anchorToParent` setter over a scene. */
  method ReanchorScene(s: Scene, ghost rank: map<Id, nat>, positionDidUpdate: Flags, x: Id, b: bool) returns (s': Scene)
    requires Arena(s, rank) && x in s.poses
    ensures Arena(s', rank) && Reanchored(s, s', positionDidUpdate, x, b)
  {
    var anchor' := s.anchorToParent[x := b];
    PlacedElsewhere(s.parent, s.anchorToParent, s.poses, s.parent, anchor', s.poses, x);
    PreparedAt(s.parent, s.children, anchor', rank, s.poses, s.poses, x, s.poses[x]);
    assert s.poses[x := s.poses[x]] == s.poses;
    var after := PositionDidChange(s.parent, s.children, anchor', rank, MarkMoved(positionDidUpdate), s.poses, s.poses, x);
    MoveKeepsPlaced(s.parent, s.children, anchor', rank, s.poses, after, x, s.poses[x].position, {x}, MarkMoved(positionDidUpdate));
    s' := s.(anchorToParent := anchor', poses := after);
  }

  /** A position re-assigned to itself changes nothing: an object stays put when shifted by nothing. */
  lemma ShiftByNothing(p: Pose, mark: Flags -> Flags)
    ensures Shift(p, MinusPosition(p.position, p.position), mark).position == p.position
  {
    PlusMinus(p.position, p.position);
  }

  /**
   * `s'` is `s` after `relativePosition` of `x` was set to `r`: an equal
   * value changes nothing; otherwise `x` is set to its anchor position
   * plus `r` (which is not where it was), carrying along what is anchored
   * below it. Either way `x` ends at relative position `r`, at its anchor
   * position plus `r`.
   */
  ghost predicate Offset(s: Scene, s': Scene, rank: map<Id, nat>, positionDidUpdate: Flags, x: Id, r: Position) {
    && x in s.poses && x in s'.poses && x in s.anchorToParent && (x in s.parent ==> s.parent[x] in s.poses)
    && Ranked(s.parent, rank)
    && s' == s.(poses := s'.poses)
    && var target := PlusPosition(AnchorPosition(s.parent, s.anchorToParent, s.poses, x), r);
       && s'.poses[x].relative == r && s'.poses[x].position == target
       && (r == s.poses[x].relative ==> s' == s)
       && (r != s.poses[x].relative ==>
             && target != s.poses[x].position
             && ShiftedBy(s.poses[x := s.poses[x].(relative := r)], s'.poses, Carried(s.parent, s.anchorToParent, rank, x),
                          MinusPosition(target, s.poses[x].position), MarkMoved(positionDidUpdate)))
  }

  /** The `relativePosition` setter over a scene. */
  method OffsetScene(s: Scene, ghost rank: map<Id, nat>, positionDidUpdate: Flags, x: Id, r: Position) returns (s': Scene)
    requires Arena(s, rank) && x in s.poses
    ensures Arena(s', rank) && Offset(s, s', rank, positionDidUpdate, x, r)
  {
    var anchorPosition := AnchorPosition(s.parent, s.anchorToParent, s.poses, x);
    assert Placed(s.parent, s.anchorToParent, s.poses, x);
    RelativeFromAnchor(s.parent, s.anchorToParent, s.poses, x, s.poses[x].relative);
    if r == s.poses[x].relative {
      if x in s.parent && s.anchorToParent[x] {
        PlusMinus(s.poses[x].position, anchorPosition);
      }
      return s;
    }
    var target := PlusPosition(anchorPosition, r);
    var before := s.poses[x := s.poses[x].(relative := r)];
    PlacedElsewhere(s.parent, s.anchorToParent, s.poses, s.parent, s.anchorToParent, before, x);
    RelativeFromAnchor(s.parent, s.anchorToParent, before, x, r);
    assert target != s.poses[x].position;
    var after := AssignPosition(s.parent, s.children, s.anchorToParent, rank, MarkMoved(positionDidUpdate), before, x, target);
    assert before[x := before[x].(relative := RelativeOf(s.parent, s.anchorToParent, before, x, target))] == before;
    MoveKeepsPlaced(s.parent, s.children, s.anchorToParent, rank, before, after, x, target, Carried(s.parent, s.anchorToParent, rank, x),
                    MarkMoved(positionDidUpdate));
    PlusMinus(target, s.poses[x].position);
    assert x in Carried(s.parent, s.anchorToParent, rank, x);
    s' := s.(poses := after);
  }

  /**
   * `s'` is `s` after `x` was detached from its parent: `x` leaves the
   * parent's children and loses its parent, and the parent observer has
   * run: `x` keeps its position and takes it as its relative position,
   * and what is now `x`'s tree gets the new family id `fam`.
   */
  ghost predicate Detached(s: Scene, s': Scene, rank: map<Id, nat>, x: Id, fam: FamilyId) {
    && x in s.parent && s.parent[x] in s.children && x in s.poses
    && Ranked(s'.parent, rank) && x in rank
    && s' == s.(parent := s.parent - {x}, children := s.children[s.parent[x] := s.children[s.parent[x]] - {x}],
                poses := s.poses[x := s.poses[x].(relative := s.poses[x].position)], familyId := s'.familyId)
    && s'.familyId.Keys == s.familyId.Keys
    && forall z :: z in s.familyId ==>
         s'.familyId[z] == if z in Subtree(s'.parent, rank, s'.parent.Keys, x) then fam else s.familyId[z]
  }

  /** `removeFromParent()` over a scene, for an object with a parent. */
  method DetachScene(s: Scene, ghost rank: map<Id, nat>, positionDidUpdate: Flags, x: Id, fam: FamilyId) returns (s': Scene)
    requires Arena(s, rank) && x in s.parent
    ensures Arena(s', rank) && Detached(s, s', rank, x, fam)
  {
    var parent', children' := s.parent - {x}, s.children[s.parent[x] := s.children[s.parent[x]] - {x}];
    DetachForest(s.parent, s.children, rank, s.poses.Keys, x);
    PlacedElsewhere(s.parent, s.anchorToParent, s.poses, parent', s.anchorToParent, s.poses, x);
    var after, ids := ParentDidChange(parent', children', s.anchorToParent, rank, MarkMoved(positionDidUpdate), s.poses, s.familyId, x, fam);
    assert Root(parent', rank, x) == x;
    s' := s.(parent := parent', children := children', poses := after, familyId := ids);
  }

  /** The objects of one scene, `GameObject` by `GameObject`. */
  class GameObjects {
    /** The `positionDidUpdate` flag. */
    const positionDidUpdate: Flags
    var scene: Scene
    ghost var rank: map<Id, nat>

    ghost predicate Valid()
      reads this
    {
      Arena(scene, rank)
    }

    /** An empty scene. */
    constructor (positionDidUpdate: Flags)
      ensures Valid() && this.positionDidUpdate == positionDidUpdate
      ensures scene == Scene(map[], map[], map[], map[], map[], map[], map[], {})
    {
      this.positionDidUpdate := positionDidUpdate;
      scene := Scene(map[], map[], map[], map[], map[], map[], map[], {});
      rank := map[];
    }

    /**
     * `init`: a new object at the origin, anchored to a parent it does not
     * have yet, with no flags, no attributes and a family of its own; its
     * physics component's contact box, if any, is where `box` says.
     */
    method Create(x: Id, fam: FamilyId, box: Option<Position>)
      requires Valid() && x !in scene.poses
      modifies this
      ensures Valid()
      ensures scene == Created(old(scene), x, fam, box)
    {
      CreateArena(scene, rank, x, fam, box);
      scene := Created(scene, x, fam, box);
      rank := rank[x := 0];
    }

    /** `set(world:)`: whether `x` is in a world. */
    method SetWorld(x: Id, present: bool)
      requires Valid() && x in scene.poses
      modifies this`scene
      ensures Valid()
      ensures scene == old(scene).(inWorld := if present then old(scene.inWorld) + {x} else old(scene.inWorld) - {x})
    {
      if present {
        scene := scene.(inWorld := scene.inWorld + {x});
      } else {
        scene := scene.(inWorld := scene.inWorld - {x});
      }
    }

    /** `contains(flags:)`. */
    predicate ContainsObjectFlags(x: Id, f: Flags)
      requires x in scene.poses
      reads this
    {
      ContainsFlags(scene.poses[x].flags, f)
    }

    /** `set(flags:)`: union; afterwards `x` contains `f`. */
    method SetObjectFlags(x: Id, f: Flags)
      requires Valid() && x in scene.poses
      modifies this`scene
      ensures Valid()
      ensures scene == old(scene).(poses := old(scene.poses)[x := old(scene.poses)[x].(flags := SetFlags(old(scene.poses)[x].flags, f))])
      ensures ContainsObjectFlags(x, f)
    {
      var g := SetFlags(scene.poses[x].flags, f);
      SetThenContains(scene.poses[x].flags, f, f);
      ReflagArena(scene, rank, x, g);
      scene := scene.(poses := scene.poses[x := scene.poses[x].(flags := g)]);
    }

    /** `clear(flags:)`: difference; afterwards `x` holds no bit of `f`. */
    method ClearObjectFlags(x: Id, f: Flags)
      requires Valid() && x in scene.poses
      modifies this`scene
      ensures Valid()
      ensures scene == old(scene).(poses := old(scene.poses)[x := old(scene.poses)[x].(flags := ClearFlags(old(scene.poses)[x].flags, f))])
      ensures scene.poses[x].flags & f == NoFlags
    {
      var g := ClearFlags(scene.poses[x].flags, f);
      ClearThenLacks(scene.poses[x].flags, f);
      ReflagArena(scene, rank, x, g);
      scene := scene.(poses := scene.poses[x := scene.poses[x].(flags := g)]);
    }

    /** `value(for:)`: the value last set for `key`, or 0. */
    function Value(x: Id, key: AttributeKey): real
      requires x in scene.attributes
      reads this
    {
      if key in scene.attributes[x] then scene.attributes[x][key] else 0.0
    }

    /** `set(_:for:)`: `value(for: key)` is then `v`, and every other key keeps its value. */
    method SetValue(x: Id, v: real, key: AttributeKey)
      requires Valid() && x in scene.poses
      modifies this`scene
      ensures Valid()
      ensures scene == old(scene).(attributes := old(scene.attributes)[x := old(scene.attributes)[x][key := v]])
      ensures Value(x, key) == v
      ensures forall k :: k != key ==> Value(x, k) == old(Value(x, k))
    {
      scene := scene.(attributes := scene.attributes[x := scene.attributes[x][key := v]]);
    }

    /**
     * The `position` setter: re-assigning the same position changes
     * nothing; a new position moves `x` and everything anchored below it by
     * the same offset, flags each of them `positionDidUpdate` and moves
     * their contact boxes, and gives `x` the relative position that goes
     * with `q`.
     */
    method SetPosition(x: Id, q: Position)
      requires Valid() && x in scene.poses
      modifies this`scene
      ensures Valid() && scene.poses[x].position == q
      ensures q == old(scene.poses)[x].position ==> scene == old(scene)
      ensures q != old(scene.poses)[x].position ==> scene == old(scene).(poses := scene.poses)
      ensures q != old(scene.poses)[x].position ==>
        ShiftedBy(old(scene.poses)[x := old(scene.poses)[x].(relative := RelativeOf(scene.parent, scene.anchorToParent, old(scene.poses), x, q))],
                  scene.poses, Carried(scene.parent, scene.anchorToParent, rank, x), MinusPosition(q, old(scene.poses)[x].position),
                  MarkMoved(positionDidUpdate))
    {
      var s := scene;
      var after := AssignPosition(s.parent, s.children, s.anchorToParent, rank, MarkMoved(positionDidUpdate), s.poses, x, q);
      if q != s.poses[x].position {
        MoveKeepsPlaced(s.parent, s.children, s.anchorToParent, rank, s.poses, after, x, q, Carried(s.parent, s.anchorToParent, rank, x),
                        MarkMoved(positionDidUpdate));
        PlusMinus(q, s.poses[x].position);
        assert x in Carried(s.parent, s.anchorToParent, rank, x);
      }
      scene := s.(poses := after);
    }

    /**
     * The `anchorToParent` setter: the position observer runs with `x`
     * where it is, whatever the new value.
     */
    method SetAnchorToParent(x: Id, b: bool)
      requires Valid() && x in scene.poses
      modifies this`scene
      ensures Valid() && Reanchored(old(scene), scene, positionDidUpdate, x, b)
    {
      scene := ReanchorScene(scene, rank, positionDidUpdate, x, b);
    }

    /**
     * The `relativePosition` setter: an equal value changes nothing;
     * otherwise `x` is set to its anchor position plus `r`.
     */
    method SetRelativePosition(x: Id, r: Position)
      requires Valid() && x in scene.poses
      modifies this`scene
      ensures Valid() && Offset(old(scene), scene, rank, positionDidUpdate, x, r)
    {
      scene := OffsetScene(scene, rank, positionDidUpdate, x, r);
    }

    /**
     * `add(child:)` with the guard corrected: refused, with nothing
     * changed, when `c` is in a world, has a parent, or is `p` or one of
     * its ancestors; otherwise `c` is adopted by `p`.
     */
    method AddChild(p: Id, c: Id, fam: FamilyId) returns (added: bool)
      requires Valid() && p in scene.poses && c in scene.poses
      modifies this
      ensures Valid()
      ensures added <==> AcceptsChildAsWritten(old(scene.inWorld), old(scene.parent), c) && !old(Under(scene.parent, rank, scene.parent.Keys, c, p))
      ensures !added ==> scene == old(scene)
      ensures added ==> Adopted(old(scene), scene, rank, positionDidUpdate, p, c, fam)
    {
      if c in scene.inWorld || c in scene.parent || AncestorOrSelf(scene.parent, rank, c, p) {
        return false;
      }
      scene, rank := AdoptScene(scene, rank, positionDidUpdate, p, c, fam);
      return true;
    }

    /**
     * `removeFromParent()`: nothing happens to an object without a parent;
     * otherwise `x` is detached from it.
     */
    method RemoveFromParent(x: Id, fam: FamilyId)
      requires Valid() && x in scene.poses
      modifies this`scene
      ensures Valid()
      ensures x !in old(scene.parent) ==> scene == old(scene)
      ensures x in old(scene.parent) ==> Detached(old(scene), scene, rank, x, fam)
    {
      if x !in scene.parent {
        return;
      }
      scene := DetachScene(scene, rank, positionDidUpdate, x, fam);
    }

    /**
     * `update(_:)` on `x`, the components, collision resolution and the
     * broadcast left out: `x` and every object below it are updated once,
     * each with `positionDidUpdate` cleared and its frame counted, and
     * nothing else changes; `x` no longer carries `positionDidUpdate`.
     */
    method Update(x: Id)
      requires Valid() && x in scene.poses
      modifies this`scene
      ensures Valid()
      ensures Updated(old(scene), scene, rank, positionDidUpdate, x)
    {
      scene := UpdateScene(scene, rank, positionDidUpdate, x);
    }
  }
}
