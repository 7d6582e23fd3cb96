/**
 * The `GameWorldMember` class of UselessEngine/GameWorldMember.swift and
 * its `GameObject` subclass of UselessEngine/GameObject.swift. As for the
 * package variant, the objects of a scene are handles into one arena that
 * holds each stored property as a map; observers become methods that set
 * a property and then run what the observer runs. Here the position
 * observer records `.position` in `_changes` (a pose's `flags`), and a
 * relative position is only kept for an object with a parent.
 */
module LegacyGameObject {
  import opened Wrappers
  import opened LegacyGeometry
  import opened Flags
  import opened Sets
  import opened Hierarchy
  import opened PackageObjectTree

  // ----- GameWorldMemberChanges -----

  /** `GameWorldMemberChanges.state`, `1 << 0`. */
  const StateChange: Flags := 1
  /** `GameWorldMemberChanges.position`, `1 << 1`. */
  const PositionChange: Flags := 2
  /** `GameWorldMemberChanges.velocity`, `1 << 2`. */
  const VelocityChange: Flags := 4

  /** `_changes.insert(.position)`, the mark a move leaves. */
  function RecordPosition(): Flags -> Flags {
    MarkMoved(PositionChange)
  }

  // ----- GameWorldMemberFlags -----

  /** `GameWorldMemberFlags`, an option set over an `Int8`. */
  type MemberFlags = bv8

  /** `set(flags:)`: union. */
  function SetMemberFlags(flags: MemberFlags, f: MemberFlags): MemberFlags {
    flags | f
  }

  /** `contains(flags:)`: every bit of `f` is present. */
  predicate ContainsMemberFlags(flags: MemberFlags, f: MemberFlags) {
    flags & f == f
  }

  /** `clear(flags:)`: difference. */
  function ClearMemberFlags(flags: MemberFlags, f: MemberFlags): MemberFlags {
    flags & !f
  }

  /**
   * `set` adds `f` and keeps what was there; `clear` removes every bit of
   * `f` and keeps the bits outside it.
   */
  lemma MemberFlagsLaws(flags: MemberFlags, f: MemberFlags, g: MemberFlags)
    ensures ContainsMemberFlags(SetMemberFlags(flags, f), f)
    ensures ContainsMemberFlags(flags, g) ==> ContainsMemberFlags(SetMemberFlags(flags, f), g)
    ensures ClearMemberFlags(flags, f) & f == 0
    ensures g & f == 0 ==> ClearMemberFlags(flags, f) & g == flags & g
  {
  }

  /** A `GameObjectState` instance. */
  type StateId = int

  /**
   * The stored properties of every object of a scene, each a map from
   * object to value. Every object is a `GameObject`; `lockToParent` is
   * fixed when an object is made, `world` is reduced to whether the
   * object is in one, `fallback` holds each state's `fallbackState`, and
   * `active` the objects whose `isActive` is set.
   */
  datatype Scene = Scene(parent: map<Id, Id>, children: map<Id, set<Id>>, lockToParent: map<Id, bool>,
                         poses: map<Id, Pose>, velocity: map<Id, Vector>, state: map<Id, Option<StateId>>,
                         fallback: map<StateId, Option<StateId>>, flags: map<Id, MemberFlags>,
                         attributes: map<Id, map<AttributeKey, real>>, active: set<Id>, inWorld: set<Id>)

  /**
   * `x`'s relative position agrees with its position where the source
   * keeps them agreeing: for an object locked to its parent, it is its
   * offset from the parent.
   */
  ghost predicate Follows(parent: map<Id, Id>, lock: map<Id, bool>, poses: map<Id, Pose>, x: Id) {
    && x in poses && x in lock && (x in parent ==> parent[x] in poses)
    && (x in parent && lock[x] ==> poses[x].relative == MinusPosition(poses[x].position, poses[parent[x]].position))
  }

  /** Every object follows. */
  ghost predicate AllFollow(parent: map<Id, Id>, lock: map<Id, bool>, poses: map<Id, Pose>) {
    forall z :: z in poses ==> Follows(parent, lock, poses, z)
  }

  /** No pose has a contact box: the legacy physics component follows the position through its own observer. */
  ghost predicate NoContacts(poses: map<Id, Pose>) {
    forall z :: z in poses ==> poses[z].contact.None?
  }

  /** Every current state and every fallback state is a known state. */
  ghost predicate StatesKnown(state: map<Id, Option<StateId>>, fallback: map<StateId, Option<StateId>>) {
    && (forall z :: z in state && state[z].Some? ==> state[z].value in fallback)
    && (forall t :: t in fallback && fallback[t].Some? ==> fallback[t].value in fallback)
  }

  /**
   * Every property is stored for every object, the links form a forest
   * (as `rank` witnesses), every locked object sits at its parent's
   * position plus its relative position, and states are known.
   */
  ghost predicate Arena(s: Scene, rank: map<Id, nat>) {
    Framed(s, rank) && AllFollow(s.parent, s.lockToParent, s.poses) && NoContacts(s.poses)
  }

  /** The part of `Arena` that does not look at positions. */
  ghost predicate Framed(s: Scene, rank: map<Id, nat>) {
    && Forest(s.parent, s.children, rank, s.poses.Keys)
    && Keyed(s)
    && StatesKnown(s.state, s.fallback)
  }

  /** Every property is stored for exactly the objects, and the active and staged objects are objects. */
  ghost predicate Keyed(s: Scene) {
    && s.lockToParent.Keys == s.poses.Keys && s.velocity.Keys == s.poses.Keys && s.state.Keys == s.poses.Keys
    && s.flags.Keys == s.poses.Keys && s.attributes.Keys == s.poses.Keys
    && s.active <= s.poses.Keys && s.inWorld <= s.poses.Keys
  }

  // ----- The position observer -----

  /** What `_relativePosition` becomes when `x` moves to `p`: `p` less the parent's position, or unchanged without a parent. */
  function RelativeAt(parent: map<Id, Id>, poses: map<Id, Pose>, x: Id, p: Position): Position
    requires x in poses && (x in parent ==> parent[x] in poses)
  {
    if x in parent then MinusPosition(p, poses[parent[x]].position) else poses[x].relative
  }

  /** Below `y`, every object it carries is locked to its parent, where following and the package placement agree. */
  lemma CarriedPlaced(parent: map<Id, Id>, children: map<Id, set<Id>>, lock: map<Id, bool>, rank: map<Id, nat>,
                      poses: map<Id, Pose>, y: Id)
    requires Forest(parent, children, rank, poses.Keys) && lock.Keys == poses.Keys
    requires forall z :: z in poses && z != y ==> Follows(parent, lock, poses, z)
    ensures forall z :: z in Carried(parent, lock, rank, y) && z != y ==> Placed(parent, lock, poses, z)
  {
    forall z | z in Carried(parent, lock, rank, y) && z != y
      ensures Placed(parent, lock, poses, z)
    {
      assert z in parent && lock[z];
      assert Follows(parent, lock, poses, z);
    }
  }

  /**
   * The `position` setter on `y` and `positionDidChange(from:)`:
   * re-assigning the same position changes nothing; a new one gives `y`
   * its offset from its parent as relative position (when it has a
   * parent), records `.position`, and sets each locked child to `y`'s
   * position plus the child's relative position, so that `y` and
   * everything locked below it move by the same offset, each recording
   * `.position`.
   */
  method MoveObject(parent: map<Id, Id>, children: map<Id, set<Id>>, lock: map<Id, bool>, ghost rank: map<Id, nat>,
                    poses: map<Id, Pose>, y: Id, q: Position) returns (after: map<Id, Pose>)
    requires Forest(parent, children, rank, poses.Keys) && lock.Keys == poses.Keys && y in poses
    requires forall z :: z in poses && z != y ==> Follows(parent, lock, poses, z)
    requires poses[y].contact.None?
    ensures q == poses[y].position ==> after == poses
    ensures q != poses[y].position ==>
      ShiftedBy(poses[y := poses[y].(relative := RelativeAt(parent, poses, y, q))], after,
                Carried(parent, lock, rank, y), MinusPosition(q, poses[y].position), RecordPosition())
  {
    if q == poses[y].position {
      return poses;
    }
    var moved := poses[y := poses[y].(position := q, relative := RelativeAt(parent, poses, y, q))];
    CarriedPlaced(parent, children, lock, rank, poses, y);
    PreparedAt(parent, children, lock, rank, poses, poses, y, moved[y]);
    after := MoveChildren(parent, children, lock, rank, RecordPosition(), poses, moved, y);
    ghost var delta := MinusPosition(q, poses[y].position);
    ghost var start := poses[y := poses[y].(relative := RelativeAt(parent, poses, y, q))];
    PlusMinus(q, poses[y].position);
    assert Shift(start[y], delta, RecordPosition()) == after[y].(flags := RecordPosition()(after[y].flags));
    assert y in Carried(parent, lock, rank, y);
    assert Carried(parent, lock, rank, y) - {y} + {y} == Carried(parent, lock, rank, y);
    ShiftedWithRoot(moved, after, start, y, Carried(parent, lock, rank, y) - {y}, delta, RecordPosition());
    after := after[y := after[y].(flags := RecordPosition()(after[y].flags))];
  }

  /**
   * A move of `y` that shifts what `y` carries and gives `y` the relative
   * position that goes with `q` leaves every object following, provided
   * every object but `y` followed.
   */
  lemma MoveKeepsFollowing(parent: map<Id, Id>, children: map<Id, set<Id>>, lock: map<Id, bool>, rank: map<Id, nat>,
                           poses: map<Id, Pose>, after: map<Id, Pose>, y: Id, q: Position)
    requires Forest(parent, children, rank, poses.Keys) && lock.Keys == poses.Keys && y in poses
    requires forall z :: z in poses && z != y ==> Follows(parent, lock, poses, z)
    requires ShiftedBy(poses[y := poses[y].(relative := RelativeAt(parent, poses, y, q))], after,
                       Carried(parent, lock, rank, y), MinusPosition(q, poses[y].position), RecordPosition())
    ensures AllFollow(parent, lock, after)
  {
    var s := Carried(parent, lock, rank, y);
    PlusMinus(q, poses[y].position);
    assert y in s && after[y].position == q;
    forall z | z in after
      ensures Follows(parent, lock, after, z)
    {
      if z == y {
        if y in parent {
          assert parent[y] !in s by {
            if parent[y] in s {
              UnderRank(parent, rank, AnchoredOf(lock), y, parent[y]);
            }
          }
        }
      } else {
        assert Follows(parent, lock, poses, z);
        if z in parent && lock[z] {
          if parent[z] in s {
            UnderRank(parent, rank, AnchoredOf(lock), y, parent[z]);
          }
          assert z in s <==> parent[z] in s;
        }
      }
    }
  }

  /** Shifting keeps poses without contact boxes. */
  lemma ShiftKeepsNoContacts(before: map<Id, Pose>, after: map<Id, Pose>, s: set<Id>, delta: Position)
    requires NoContacts(before) && ShiftedBy(before, after, s, delta, RecordPosition())
    ensures NoContacts(after)
  {
    forall z | z in after
      ensures after[z].contact.None?
    {
      assert before[z].contact.None?;
    }
  }

  /** Following of the objects other than `x` does not depend on `x`'s link or on `x`'s relative position. */
  lemma FollowsElsewhere(parent: map<Id, Id>, lock: map<Id, bool>, poses: map<Id, Pose>,
                         parent': map<Id, Id>, poses': map<Id, Pose>, x: Id)
    requires AllFollow(parent, lock, poses) && poses'.Keys == poses.Keys
    requires forall z :: z in poses ==> poses'[z].position == poses[z].position
    requires forall z :: z in poses && z != x ==> poses'[z] == poses[z]
    requires forall z :: z != x ==> (z in parent' <==> z in parent) && (z in parent ==> parent'[z] == parent[z])
    requires x in parent' ==> parent'[x] in poses
    ensures forall z :: z in poses' && z != x ==> Follows(parent', lock, poses', z)
  {
    forall z | z in poses' && z != x
      ensures Follows(parent', lock, poses', z)
    {
      assert Follows(parent, lock, poses, z);
    }
  }

  /**
   * Moving `x` in a scene where every other object follows, by the
   * `position` setter, leaves a valid scene, provided `x` followed already
   * when it stays put.
   */
  lemma Resettled(s: Scene, rank: map<Id, nat>, after: map<Id, Pose>, x: Id, q: Position)
    requires Framed(s, rank) && NoContacts(s.poses) && x in s.poses
    requires forall z :: z in s.poses && z != x ==> Follows(s.parent, s.lockToParent, s.poses, z)
    requires q == s.poses[x].position ==> after == s.poses && Follows(s.parent, s.lockToParent, s.poses, x)
    requires q != s.poses[x].position ==>
      ShiftedBy(s.poses[x := s.poses[x].(relative := RelativeAt(s.parent, s.poses, x, q))], after,
                Carried(s.parent, s.lockToParent, rank, x), MinusPosition(q, s.poses[x].position), RecordPosition())
    ensures Arena(s.(poses := after), rank)
  {
    if q != s.poses[x].position {
      MoveKeepsFollowing(s.parent, s.children, s.lockToParent, rank, s.poses, after, x, q);
      ShiftKeepsNoContacts(s.poses[x := s.poses[x].(relative := RelativeAt(s.parent, s.poses, x, q))], after,
                           Carried(s.parent, s.lockToParent, rank, x), MinusPosition(q, s.poses[x].position));
    }
  }

  /**
   * `s'` is `s` after the `position` setter on `x` with `q`: the same
   * position changes nothing; a new one moves `x` and what is locked below
   * it by the same offset, each recording `.position`, and `x` takes its
   * offset from its parent as relative position when it has a parent.
   */
  ghost predicate Moved(s: Scene, s': Scene, rank: map<Id, nat>, x: Id, q: Position) {
    && x in s.poses && (x in s.parent ==> s.parent[x] in s.poses) && Ranked(s.parent, rank)
    && (q == s.poses[x].position ==> s' == s)
    && (q != s.poses[x].position ==>
          && s' == s.(poses := s'.poses)
          && ShiftedBy(s.poses[x := s.poses[x].(relative := RelativeAt(s.parent, s.poses, x, q))], s'.poses,
                       Carried(s.parent, s.lockToParent, rank, x), MinusPosition(q, s.poses[x].position), RecordPosition()))
  }

  /** The `position` setter over a scene. */
  method MoveScene(s: Scene, ghost rank: map<Id, nat>, x: Id, q: Position) returns (s': Scene)
    requires Arena(s, rank) && x in s.poses
    ensures Arena(s', rank) && Moved(s, s', rank, x, q)
  {
    var after := MoveObject(s.parent, s.children, s.lockToParent, rank, s.poses, x, q);
    Resettled(s, rank, after, x, q);
    s' := s.(poses := after);
  }

  /**
   * A move records `.position` on every object it moves, lands `x` at `q`
   * and keeps the offset from `x` of everything locked below it.
   */
  lemma MoveRecorded(s: Scene, s': Scene, rank: map<Id, nat>, x: Id, q: Position, z: Id)
    requires Moved(s, s', rank, x, q) && q != s.poses[x].position
    requires z in Carried(s.parent, s.lockToParent, rank, x) && z in s.poses
    ensures ContainsFlags(s'.poses[z].flags, PositionChange)
    ensures s'.poses[x].position == q
    ensures MinusPosition(s'.poses[z].position, s'.poses[x].position) == MinusPosition(s.poses[z].position, s.poses[x].position)
  {
    assert x in Carried(s.parent, s.lockToParent, rank, x);
    SetThenContains(s.poses[z].flags, PositionChange, PositionChange);
    PlusMinus(q, s.poses[x].position);
  }

  /**
   * `s'` is `s` after the `relativePosition` setter on `x` with `r`: an
   * equal value changes nothing; otherwise `x` is set to its parent's
   * position (the origin without a parent) plus `r`, moving what is locked
   * below it along when that is a new position. Either way `x` ends at
   * relative position `r`, and a new value puts it at its parent's
   * position plus `r`.
   */
  ghost predicate Offset(s: Scene, s': Scene, rank: map<Id, nat>, x: Id, r: Position) {
    && x in s.poses && x in s'.poses && (x in s.parent ==> s.parent[x] in s.poses) && Ranked(s.parent, rank)
    && s' == s.(poses := s'.poses)
    && var target := PlusPosition(if x in s.parent then s.poses[s.parent[x]].position else Origin, r);
       && s'.poses[x].relative == r
       && (r == s.poses[x].relative ==> s' == s)
       && (r != s.poses[x].relative ==> s'.poses[x].position == target)
       && (r != s.poses[x].relative && target == s.poses[x].position ==> s'.poses == s.poses[x := s.poses[x].(relative := r)])
       && (r != s.poses[x].relative && target != s.poses[x].position ==>
             ShiftedBy(s.poses[x := s.poses[x].(relative := r)], s'.poses, Carried(s.parent, s.lockToParent, rank, x),
                       MinusPosition(target, s.poses[x].position), RecordPosition()))
  }

  /** The `relativePosition` setter and `relativePositionDidChange(from:)` over a scene. */
  method OffsetScene(s: Scene, ghost rank: map<Id, nat>, x: Id, r: Position) returns (s': Scene)
    requires Arena(s, rank) && x in s.poses
    ensures Arena(s', rank) && Offset(s, s', rank, x, r)
  {
    if r == s.poses[x].relative {
      return s;
    }
    var target := PlusPosition(if x in s.parent then s.poses[s.parent[x]].position else Origin, r);
    var before := s.poses[x := s.poses[x].(relative := r)];
    OffsetReady(s, rank, x, r);
    var after := MoveObject(s.parent, s.children, s.lockToParent, rank, before, x, target);
    OffsetArena(s, rank, x, r, after);
    OffsetMeets(s, rank, x, r, after);
    s' := s.(poses := after);
  }

  /** With `x`'s relative position set to `r`, every object but `x` still follows. */
  lemma OffsetReady(s: Scene, rank: map<Id, nat>, x: Id, r: Position)
    requires Arena(s, rank) && x in s.poses
    ensures forall z :: z in s.poses && z != x ==> Follows(s.parent, s.lockToParent, s.poses[x := s.poses[x].(relative := r)], z)
  {
    FollowsElsewhere(s.parent, s.lockToParent, s.poses, s.parent, s.poses[x := s.poses[x].(relative := r)], x);
  }

  /** The move to the parent's position plus `r` keeps the scene valid. */
  lemma OffsetArena(s: Scene, rank: map<Id, nat>, x: Id, r: Position, after: map<Id, Pose>)
    requires Framed(s, rank) && NoContacts(s.poses) && x in s.poses
    requires forall z :: z in s.poses && z != x ==> Follows(s.parent, s.lockToParent, s.poses[x := s.poses[x].(relative := r)], z)
    requires var target := PlusPosition(if x in s.parent then s.poses[s.parent[x]].position else Origin, r);
      var before := s.poses[x := s.poses[x].(relative := r)];
      && (target == before[x].position ==> after == before)
      && (target != before[x].position ==>
            ShiftedBy(before[x := before[x].(relative := RelativeAt(s.parent, before, x, target))], after,
                      Carried(s.parent, s.lockToParent, rank, x), MinusPosition(target, before[x].position), RecordPosition()))
    ensures Arena(s.(poses := after), rank)
  {
    var anchor := if x in s.parent then s.poses[s.parent[x]].position else Origin;
    var target := PlusPosition(anchor, r);
    var before := s.poses[x := s.poses[x].(relative := r)];
    assert Keyed(s.(poses := before));
    PlusMinus(r, anchor);
    Resettled(s.(poses := before), rank, after, x, target);
    assert s.(poses := before).(poses := after) == s.(poses := after);
  }

  /** The move to the parent's position plus `r` sets `x` as `Offset` says. */
  lemma OffsetMeets(s: Scene, rank: map<Id, nat>, x: Id, r: Position, after: map<Id, Pose>)
    requires x in s.poses && (x in s.parent ==> s.parent[x] in s.poses) && Ranked(s.parent, rank) && x in rank
    requires r != s.poses[x].relative
    requires var target := PlusPosition(if x in s.parent then s.poses[s.parent[x]].position else Origin, r);
      var before := s.poses[x := s.poses[x].(relative := r)];
      && (target == before[x].position ==> after == before)
      && (target != before[x].position ==>
            ShiftedBy(before[x := before[x].(relative := RelativeAt(s.parent, before, x, target))], after,
                      Carried(s.parent, s.lockToParent, rank, x), MinusPosition(target, before[x].position), RecordPosition()))
    ensures Offset(s, s.(poses := after), rank, x, r)
  {
    var anchor := if x in s.parent then s.poses[s.parent[x]].position else Origin;
    var target := PlusPosition(anchor, r);
    var before := s.poses[x := s.poses[x].(relative := r)];
    PlusMinus(r, anchor);
    assert before[x := before[x].(relative := RelativeAt(s.parent, before, x, target))] == before;
    if target != s.poses[x].position {
      PlusMinus(target, s.poses[x].position);
      assert x in Carried(s.parent, s.lockToParent, rank, x);
    }
  }

  // ----- The parent link -----

  /**
   * `s'` is `s` after `p` adopted the root `c`: `c` joins `p`'s children
   * with `p` as its parent, and the parent observer has set `c` to `p`'s
   * position plus its relative position, moving what is locked below it
   * along when that is a new position.
   */
  ghost predicate Adopted(s: Scene, s': Scene, rank: map<Id, nat>, p: Id, c: Id) {
    && p in s.poses && c in s.poses && p in s.children && Ranked(s'.parent, rank)
    && s' == s.(parent := s.parent[c := p], children := s.children[p := s.children[p] + {c}], poses := s'.poses)
    && var target := PlusPosition(s.poses[p].position, s.poses[c].relative);
       && (target == s.poses[c].position ==> s'.poses == s.poses)
       && (target != s.poses[c].position ==>
             ShiftedBy(s.poses, s'.poses, Carried(s'.parent, s'.lockToParent, rank, c),
                       MinusPosition(target, s.poses[c].position), RecordPosition()))
  }

  /** `p` adopts the root `c`, which is neither `p` nor one of its ancestors. */
  method AdoptScene(s: Scene, ghost rank: map<Id, nat>, p: Id, c: Id) returns (s': Scene, ghost rank': map<Id, nat>)
    requires Arena(s, rank) && p in s.poses && c in s.poses && c !in s.parent
    requires !Under(s.parent, rank, s.parent.Keys, c, p)
    ensures Arena(s', rank') && Adopted(s, s', rank', p, c)
  {
    var linked := s.(parent := s.parent[c := p], children := s.children[p := s.children[p] + {c}]);
    rank' := Raised(s.parent, rank, p, c);
    AdoptReady(s, rank, p, c);
    var target := PlusPosition(s.poses[p].position, s.poses[c].relative);
    var after := MoveObject(linked.parent, linked.children, s.lockToParent, rank', s.poses, c, target);
    AdoptArena(s, rank', p, c, after);
    AdoptMeets(s, rank', p, c, after);
    s' := linked.(poses := after);
  }

  /** Once `c` is linked below `p`, the links are a forest and every object but `c` follows. */
  lemma AdoptReady(s: Scene, rank: map<Id, nat>, p: Id, c: Id)
    requires Forest(s.parent, s.children, rank, s.poses.Keys) && AllFollow(s.parent, s.lockToParent, s.poses)
    requires p in s.poses && c in s.poses && c !in s.parent
    requires !Under(s.parent, rank, s.parent.Keys, c, p)
    ensures Forest(s.parent[c := p], s.children[p := s.children[p] + {c}], Raised(s.parent, rank, p, c), s.poses.Keys)
    ensures forall z :: z in s.poses && z != c ==> Follows(s.parent[c := p], s.lockToParent, s.poses, z)
  {
    AdoptForest(s.parent, s.children, rank, s.poses.Keys, p, c);
    FollowsElsewhere(s.parent, s.lockToParent, s.poses, s.parent[c := p], s.poses, c);
  }

  /** The move to `p`'s position plus `c`'s relative position keeps the scene valid. */
  lemma AdoptArena(s: Scene, rank': map<Id, nat>, p: Id, c: Id, after: map<Id, Pose>)
    requires Keyed(s) && StatesKnown(s.state, s.fallback) && NoContacts(s.poses) && p in s.poses && c in s.poses && p in s.children
    requires Forest(s.parent[c := p], s.children[p := s.children[p] + {c}], rank', s.poses.Keys)
    requires forall z :: z in s.poses && z != c ==> Follows(s.parent[c := p], s.lockToParent, s.poses, z)
    requires var parent' := s.parent[c := p];
      var target := PlusPosition(s.poses[p].position, s.poses[c].relative);
      && (target == s.poses[c].position ==> after == s.poses)
      && (target != s.poses[c].position ==>
            ShiftedBy(s.poses[c := s.poses[c].(relative := RelativeAt(parent', s.poses, c, target))], after,
                      Carried(parent', s.lockToParent, rank', c), MinusPosition(target, s.poses[c].position), RecordPosition()))
    ensures Arena(s.(parent := s.parent[c := p], children := s.children[p := s.children[p] + {c}]).(poses := after), rank')
  {
    var linked := s.(parent := s.parent[c := p], children := s.children[p := s.children[p] + {c}]);
    assert Keyed(linked);
    var target := PlusPosition(s.poses[p].position, s.poses[c].relative);
    if target == s.poses[c].position {
      PlusMinus(s.poses[c].position, s.poses[p].position);
    }
    Resettled(linked, rank', after, c, target);
  }

  /** The move to `p`'s position plus `c`'s relative position adopts `c` as `Adopted` says. */
  lemma AdoptMeets(s: Scene, rank': map<Id, nat>, p: Id, c: Id, after: map<Id, Pose>)
    requires p in s.poses && c in s.poses && p in s.children && Ranked(s.parent[c := p], rank')
    requires var parent' := s.parent[c := p];
      var target := PlusPosition(s.poses[p].position, s.poses[c].relative);
      && (target == s.poses[c].position ==> after == s.poses)
      && (target != s.poses[c].position ==>
            ShiftedBy(s.poses[c := s.poses[c].(relative := RelativeAt(parent', s.poses, c, target))], after,
                      Carried(parent', s.lockToParent, rank', c), MinusPosition(target, s.poses[c].position), RecordPosition()))
    ensures Adopted(s, s.(parent := s.parent[c := p], children := s.children[p := s.children[p] + {c}]).(poses := after), rank', p, c)
  {
    var target := PlusPosition(s.poses[p].position, s.poses[c].relative);
    PlusMinus(s.poses[c].relative, s.poses[p].position);
    assert s.poses[c := s.poses[c].(relative := RelativeAt(s.parent[c := p], s.poses, c, target))] == s.poses;
  }

  /**
   * `s'` is `s` after `removeFromParent()` on an `x` with a parent: `x`
   * leaves the parent's children and loses its parent, and the parent
   * observer zeroes its relative position without moving it.
   */
  ghost predicate Detached(s: Scene, s': Scene, x: Id) {
    && x in s.parent && s.parent[x] in s.children && x in s.poses
    && s' == s.(parent := s.parent - {x}, children := s.children[s.parent[x] := s.children[s.parent[x]] - {x}],
                poses := s.poses[x := s.poses[x].(relative := Origin)])
  }

  /** `removeFromParent()` over a scene, for an object with a parent. */
  method DetachScene(s: Scene, ghost rank: map<Id, nat>, x: Id) returns (s': Scene)
    requires Arena(s, rank) && x in s.parent
    ensures Arena(s', rank) && Detached(s, s', x)
  {
    DetachArena(s, rank, x);
    s' := s.(parent := s.parent - {x}, children := s.children[s.parent[x] := s.children[s.parent[x]] - {x}],
             poses := s.poses[x := s.poses[x].(relative := Origin)]);
  }

  /** Unlinking `x` and zeroing its relative position keeps the scene valid. */
  lemma DetachArena(s: Scene, rank: map<Id, nat>, x: Id)
    requires Arena(s, rank) && x in s.parent
    ensures Arena(s.(parent := s.parent - {x}, children := s.children[s.parent[x] := s.children[s.parent[x]] - {x}],
                     poses := s.poses[x := s.poses[x].(relative := Origin)]), rank)
  {
    var parent', poses' := s.parent - {x}, s.poses[x := s.poses[x].(relative := Origin)];
    DetachForest(s.parent, s.children, rank, s.poses.Keys, x);
    FollowsElsewhere(s.parent, s.lockToParent, s.poses, parent', poses', x);
    assert Keyed(s.(poses := poses'));
  }

  // ----- update(_:) of a member -----

  /**
   * `update(_:)` of the member `x`: `isActive` is set, then every child is
   * updated. Afterwards exactly `x` and the objects below it have been
   * activated, in addition to what was active.
   */
  method Activate(parent: map<Id, Id>, children: map<Id, set<Id>>, ghost rank: map<Id, nat>, active: set<Id>, x: Id)
    returns (active': set<Id>)
    requires Forest(parent, children, rank, rank.Keys) && x in rank
    ensures active' == active + Subtree(parent, rank, parent.Keys, x)
    decreases rank[x]
  {
    active' := active + {x};
    ghost var done: set<Id> := {};
    var pending := children[x];
    while pending != {}
      invariant Activating(parent, children, rank, x, pending, active, active', done)
      decreases |pending|
    {
      var c := Pick(pending);
      assert c in children[x] && parent[c] == x;
      ghost var mid := active';
      active' := Activate(parent, children, rank, active', c);
      ActivatedChild(parent, children, rank, x, pending, active, mid, active', done, c);
      pending := pending - {c};
      done := done + Subtree(parent, rank, parent.Keys, c);
    }
    TicksCover(parent, children, rank, x, done);
    assert x in Subtree(parent, rank, parent.Keys, x);
  }

  /** What holds at each turn of `update`'s loop over the children of `x`. */
  ghost predicate Activating(parent: map<Id, Id>, children: map<Id, set<Id>>, rank: map<Id, nat>, x: Id, pending: set<Id>,
                             active: set<Id>, active': set<Id>, done: set<Id>) {
    && Ranked(parent, rank) && x in children && pending <= children[x]
    && active' == active + {x} + done
    && done <= Subtree(parent, rank, parent.Keys, x) - {x}
    && (forall c :: c in children[x] && c !in pending ==> Subtree(parent, rank, parent.Keys, c) <= done)
  }

  /** One child of `x` activated, with all below it. */
  lemma ActivatedChild(parent: map<Id, Id>, children: map<Id, set<Id>>, rank: map<Id, nat>, x: Id, pending: set<Id>,
                       active: set<Id>, mid: set<Id>, active': set<Id>, done: set<Id>, c: Id)
    requires Forest(parent, children, rank, rank.Keys) && c in pending
    requires Activating(parent, children, rank, x, pending, active, mid, done)
    requires active' == mid + Subtree(parent, rank, parent.Keys, c)
    ensures Activating(parent, children, rank, x, pending - {c}, active, active', done + Subtree(parent, rank, parent.Keys, c))
  {
    ChildSubtree(parent, rank, parent.Keys, c);
  }

  // ----- Changes, velocity and state -----

  /** Changes that keep every position, relative position and contact box keep the scene's placement. */
  lemma SameFollowing(s: Scene, rank: map<Id, nat>, poses: map<Id, Pose>)
    requires Arena(s, rank) && poses.Keys == s.poses.Keys
    requires forall z :: z in poses ==> poses[z] == s.poses[z].(flags := poses[z].flags)
    ensures AllFollow(s.parent, s.lockToParent, poses) && NoContacts(poses)
  {
    forall z | z in poses
      ensures Follows(s.parent, s.lockToParent, poses, z) && poses[z].contact.None?
    {
      assert Follows(s.parent, s.lockToParent, s.poses, z);
      if z in s.parent {
        var q := s.parent[z];
        assert q in poses && poses[q] == s.poses[q].(flags := poses[q].flags);
      }
    }
  }

  /** `_changes.insert(c)` on `x`: `x` then holds `c`, and nothing else changes. */
  function Record(poses: map<Id, Pose>, x: Id, c: Flags): (r: map<Id, Pose>)
    requires x in poses
    ensures r.Keys == poses.Keys && ContainsFlags(r[x].flags, c)
    ensures forall z :: z in poses ==> r[z] == poses[z].(flags := r[z].flags)
    ensures forall z :: z in poses && z != x ==> r[z] == poses[z]
  {
    SetThenContains(poses[x].flags, c, c);
    poses[x := poses[x].(flags := SetFlags(poses[x].flags, c))]
  }

  /**
   * The `velocity` setter: the value is stored, and `.velocity` is
   * recorded when it differs from the old one, and only then.
   */
  function SetVelocity(s: Scene, x: Id, v: Vector): (s': Scene)
    requires x in s.poses && x in s.velocity
    ensures s'.velocity == s.velocity[x := v] && s'.poses.Keys == s.poses.Keys
    ensures v != s.velocity[x] ==> ContainsFlags(s'.poses[x].flags, VelocityChange)
    ensures v == s.velocity[x] ==> s'.poses == s.poses
    ensures forall z :: z in s.poses ==> s'.poses[z] == s.poses[z].(flags := s'.poses[z].flags)
    ensures forall z :: z in s.poses && z != x ==> s'.poses[z] == s.poses[z]
    ensures s' == s.(velocity := s'.velocity, poses := s'.poses)
  {
    if v != s.velocity[x] then
      s.(velocity := s.velocity[x := v], poses := Record(s.poses, x, VelocityChange))
    else
      s.(velocity := s.velocity[x := v])
  }

  /**
   * `enter(state:)`: `t` becomes `x`'s state and `.state` is recorded; the
   * states' fallbacks stay as they were.
   */
  function EnterState(s: Scene, x: Id, t: StateId): (s': Scene)
    requires x in s.poses && x in s.state
    ensures s'.state == s.state[x := Some(t)] && s'.fallback == s.fallback
    ensures s'.poses.Keys == s.poses.Keys && ContainsFlags(s'.poses[x].flags, StateChange)
    ensures forall z :: z in s.poses ==> s'.poses[z] == s.poses[z].(flags := s'.poses[z].flags)
    ensures forall z :: z in s.poses && z != x ==> s'.poses[z] == s.poses[z]
    ensures s' == s.(state := s'.state, poses := s'.poses)
  {
    s.(state := s.state[x := Some(t)], poses := Record(s.poses, x, StateChange))
  }

  /** `push(state:)`: `t`'s fallback becomes `x`'s current state, then `t` is entered. */
  function PushState(s: Scene, x: Id, t: StateId): (s': Scene)
    requires x in s.poses && x in s.state
    ensures s'.state == s.state[x := Some(t)] && s'.fallback == s.fallback[t := s.state[x]]
    ensures s'.poses.Keys == s.poses.Keys && ContainsFlags(s'.poses[x].flags, StateChange)
    ensures forall z :: z in s.poses ==> s'.poses[z] == s.poses[z].(flags := s'.poses[z].flags)
    ensures s' == s.(state := s'.state, fallback := s'.fallback, poses := s'.poses)
  {
    EnterState(s.(fallback := s.fallback[t := s.state[x]]), x, t)
  }

  /**
   * `exitState()`: the current state's fallback becomes `x`'s state (no
   * state stays no state), and `.state` is recorded.
   */
  function ExitState(s: Scene, x: Id): (s': Scene)
    requires x in s.poses && x in s.state && (s.state[x].Some? ==> s.state[x].value in s.fallback)
    ensures s'.state == s.state[x := if s.state[x].Some? then s.fallback[s.state[x].value] else None]
    ensures s'.fallback == s.fallback
    ensures s'.poses.Keys == s.poses.Keys && ContainsFlags(s'.poses[x].flags, StateChange)
    ensures forall z :: z in s.poses ==> s'.poses[z] == s.poses[z].(flags := s'.poses[z].flags)
    ensures s' == s.(state := s'.state, poses := s'.poses)
  {
    s.(state := s.state[x := Fallback(s, x)], poses := Record(s.poses, x, StateChange))
  }

  /** `state?.fallbackState`. */
  function Fallback(s: Scene, x: Id): Option<StateId>
    requires x in s.state && (s.state[x].Some? ==> s.state[x].value in s.fallback)
  {
    if s.state[x].Some? then s.fallback[s.state[x].value] else None
  }

  /**
   * Pushing a state and exiting it again brings back the state `x` had,
   * with the pushed state's fallback pointing at it, and both steps
   * recorded as `.state`.
   */
  lemma PushThenExit(s: Scene, x: Id, t: StateId)
    requires x in s.poses && x in s.state
    ensures ExitState(PushState(s, x, t), x).state == s.state
    ensures ExitState(PushState(s, x, t), x).fallback == s.fallback[t := s.state[x]]
    ensures ContainsFlags(ExitState(PushState(s, x, t), x).poses[x].flags, StateChange)
  {
    var pushed := PushState(s, x, t);
    assert pushed.state[x] == Some(t) && pushed.fallback[t] == s.state[x];
    assert s.state[x := s.state[x]] == s.state;
  }

  /**
   * From a reset tracker (as `update(_:)` leaves it), a velocity write
   * leaves exactly `.velocity` to report when the value changed, and
   * nothing when it did not.
   */
  lemma VelocityReported(s: Scene, x: Id, v: Vector)
    requires x in s.poses && x in s.velocity && s.poses[x].flags == NoFlags
    ensures SetVelocity(s, x, v).poses[x].flags == if v != s.velocity[x] then VelocityChange else NoFlags
  {
  }

  /** Giving `x` a known state, or none, keeps the states known. */
  lemma KnownStateSet(state: map<Id, Option<StateId>>, fallback: map<StateId, Option<StateId>>, x: Id, o: Option<StateId>)
    requires StatesKnown(state, fallback) && (o.Some? ==> o.value in fallback)
    ensures StatesKnown(state[x := o], fallback)
  {
  }

  /** A state change keeps the states known when the state entered is known. */
  lemma StatesStayKnown(s: Scene, x: Id, t: StateId)
    requires StatesKnown(s.state, s.fallback) && x in s.poses && x in s.state && t in s.fallback
    ensures StatesKnown(EnterState(s, x, t).state, EnterState(s, x, t).fallback)
    ensures StatesKnown(PushState(s, x, t).state, PushState(s, x, t).fallback)
  {
    KnownStateSet(s.state, s.fallback, x, Some(t));
    var fallback' := s.fallback[t := s.state[x]];
    assert StatesKnown(s.state, fallback');
    KnownStateSet(s.state, fallback', x, Some(t));
  }

  /** Exiting a state keeps the states known. */
  lemma ExitKeepsKnown(s: Scene, x: Id)
    requires StatesKnown(s.state, s.fallback) && x in s.poses && x in s.state
    ensures StatesKnown(ExitState(s, x).state, ExitState(s, x).fallback)
  {
    var o := if s.state[x].Some? then s.fallback[s.state[x].value] else None;
    if s.state[x].Some? {
      var t := s.state[x].value;
      assert t in s.fallback;
    }
    KnownStateSet(s.state, s.fallback, x, o);
  }

  /**
   * `s` with the new object `x` of `init`: at the origin with a zero
   * relative position and velocity, no state, no recorded changes, no
   * parent, no children, no flags and no attributes, inactive, and locked
   * to its parent as `lockToParent` says.
   */
  function Created(s: Scene, x: Id, lockToParent: bool): Scene {
    s.(poses := s.poses[x := Pose(Origin, Origin, None, NoFlags)], children := s.children[x := {}],
       lockToParent := s.lockToParent[x := lockToParent], velocity := s.velocity[x := ZeroVector],
       state := s.state[x := None], flags := s.flags[x := 0], attributes := s.attributes[x := map[]])
  }

  /** A new object keeps the scene valid, as a root of rank 0. */
  lemma CreateArena(s: Scene, rank: map<Id, nat>, x: Id, lockToParent: bool)
    requires Arena(s, rank) && x !in s.poses
    ensures Arena(Created(s, x, lockToParent), rank[x := 0])
  {
    CreateFramed(s, rank, x, lockToParent);
    CreateFollows(s.parent, s.lockToParent, s.poses, x, lockToParent);
  }

  /** A new object keeps every map keyed by the objects and the states known. */
  lemma CreateFramed(s: Scene, rank: map<Id, nat>, x: Id, lockToParent: bool)
    requires Framed(s, rank) && x !in s.poses
    ensures Framed(Created(s, x, lockToParent), rank[x := 0])
  {
    CreateForest(s.parent, s.children, rank, s.poses.Keys, x);
    KnownStateSet(s.state, s.fallback, x, None);
    CreateKeyed(s, x, lockToParent);
  }

  /** A new object is given every property. */
  lemma CreateKeyed(s: Scene, x: Id, lockToParent: bool)
    requires Keyed(s)
    ensures Keyed(Created(s, x, lockToParent))
  {
  }

  /** A new object at the origin without a parent keeps every object following. */
  lemma CreateFollows(parent: map<Id, Id>, lock: map<Id, bool>, poses: map<Id, Pose>, x: Id, b: bool)
    requires AllFollow(parent, lock, poses) && NoContacts(poses) && x !in poses && x !in parent
    ensures AllFollow(parent, lock[x := b], poses[x := Pose(Origin, Origin, None, NoFlags)])
    ensures NoContacts(poses[x := Pose(Origin, Origin, None, NoFlags)])
  {
    var poses' := poses[x := Pose(Origin, Origin, None, NoFlags)];
    forall z | z in poses'
      ensures Follows(parent, lock[x := b], poses', z)
    {
      if z != x {
        assert Follows(parent, lock, poses, z);
      }
    }
  }

  /** The objects of one scene, `GameObject` by `GameObject`. */
  class GameObjects {
    var scene: Scene
    ghost var rank: map<Id, nat>

    ghost predicate Valid()
      reads this
    {
      Arena(scene, rank)
    }

    /** An empty scene. */
    constructor ()
      ensures Valid()
      ensures scene == Scene(map[], map[], map[], map[], map[], map[], map[], map[], map[], {}, {})
    {
      scene := Scene(map[], map[], map[], map[], map[], map[], map[], map[], map[], {}, {});
      rank := map[];
    }

    /**
     * `init`: a new object at the origin with a zero relative position and
     * velocity, no state, no recorded changes, no parent, no children, no
     * flags and no attributes, inactive; `lockToParent` is fixed here.
     */
    method Create(x: Id, lockToParent: bool)
      requires Valid() && x !in scene.poses
      modifies this
      ensures Valid() && scene == Created(old(scene), x, lockToParent)
    {
      CreateArena(scene, rank, x, lockToParent);
      scene := Created(scene, x, lockToParent);
      rank := rank[x := 0];
    }

    /** A new `GameObjectState` instance `t`, whose `fallbackState` is `f`. */
    method CreateState(t: StateId, f: Option<StateId>)
      requires Valid() && t !in scene.fallback && (f.Some? ==> f.value in scene.fallback)
      modifies this`scene
      ensures Valid() && scene == old(scene).(fallback := old(scene.fallback)[t := f])
    {
      scene := scene.(fallback := scene.fallback[t := f]);
    }

    /** Whether `x` is in a world (`world` is set from outside). */
    method SetWorld(x: Id, present: bool)
      requires Valid() && x in scene.poses
      modifies this`scene
      ensures Valid()
      ensures scene == old(scene).(inWorld := if present then old(scene.inWorld) + {x} else old(scene.inWorld) - {x})
    {
      if present {
        scene := scene.(inWorld := scene.inWorld + {x});
      } else {
        scene := scene.(inWorld := scene.inWorld - {x});
      }
    }

    /** `contains(flags:)`. */
    predicate ContainsObjectFlags(x: Id, f: MemberFlags)
      requires x in scene.flags
      reads this
    {
      ContainsMemberFlags(scene.flags[x], f)
    }

    /** `set(flags:)`: union; afterwards `x` contains `f`. */
    method SetObjectFlags(x: Id, f: MemberFlags)
      requires Valid() && x in scene.poses
      modifies this`scene
      ensures Valid()
      ensures scene == old(scene).(flags := old(scene.flags)[x := SetMemberFlags(old(scene.flags)[x], f)])
      ensures ContainsObjectFlags(x, f)
    {
      MemberFlagsLaws(scene.flags[x], f, f);
      scene := scene.(flags := scene.flags[x := SetMemberFlags(scene.flags[x], f)]);
    }

    /** `clear(flags:)`: difference; afterwards `x` holds no bit of `f`. */
    method ClearObjectFlags(x: Id, f: MemberFlags)
      requires Valid() && x in scene.poses
      modifies this`scene
      ensures Valid()
      ensures scene == old(scene).(flags := old(scene.flags)[x := ClearMemberFlags(old(scene.flags)[x], f)])
      ensures scene.flags[x] & f == 0
    {
      MemberFlagsLaws(scene.flags[x], f, f);
      scene := scene.(flags := scene.flags[x := ClearMemberFlags(scene.flags[x], f)]);
    }

    /** `value(for:)`: the value last set for `key`, or 0. */
    function Value(x: Id, key: AttributeKey): real
      requires x in scene.attributes
      reads this
    {
      if key in scene.attributes[x] then scene.attributes[x][key] else 0.0
    }

    /** `set(_:for:)`: `value(for: key)` is then `v`, and every other key keeps its value. */
    method SetValue(x: Id, v: real, key: AttributeKey)
      requires Valid() && x in scene.poses
      modifies this`scene
      ensures Valid()
      ensures scene == old(scene).(attributes := old(scene.attributes)[x := old(scene.attributes)[x][key := v]])
      ensures Value(x, key) == v
      ensures forall k :: k != key ==> Value(x, k) == old(Value(x, k))
    {
      scene := scene.(attributes := scene.attributes[x := scene.attributes[x][key := v]]);
    }

    /** The `position` setter on `x`. */
    method SetPosition(x: Id, q: Position)
      requires Valid() && x in scene.poses
      modifies this`scene
      ensures Valid() && Moved(old(scene), scene, rank, x, q)
    {
      scene := MoveScene(scene, rank, x, q);
    }

    /** The `relativePosition` setter on `x`. */
    method SetRelativePosition(x: Id, r: Position)
      requires Valid() && x in scene.poses
      modifies this`scene
      ensures Valid() && Offset(old(scene), scene, rank, x, r)
    {
      scene := OffsetScene(scene, rank, x, r);
    }

    /** The `velocity` setter on `x`. */
    method SetObjectVelocity(x: Id, v: Vector)
      requires Valid() && x in scene.poses
      modifies this`scene
      ensures Valid() && scene == SetVelocity(old(scene), x, v)
    {
      SameFollowing(scene, rank, SetVelocity(scene, x, v).poses);
      scene := SetVelocity(scene, x, v);
    }

    /**
     * `add(child:)` with the guard corrected: refused, with nothing
     * changed, for a child in a world, with a parent, or that is `p` or an
     * ancestor of `p`; otherwise `p` adopts it.
     */
    method AddChild(p: Id, c: Id) returns (added: bool)
      requires Valid() && p in scene.poses && c in scene.poses
      modifies this
      ensures Valid()
      ensures added <==> AcceptsChildAsWritten(old(scene.inWorld), old(scene.parent), c)
                         && !old(Under(scene.parent, rank, scene.parent.Keys, c, p))
      ensures !added ==> scene == old(scene)
      ensures added ==> Adopted(old(scene), scene, rank, p, c)
    {
      if c in scene.inWorld || c in scene.parent || AncestorOrSelf(scene.parent, rank, c, p) {
        return false;
      }
      scene, rank := AdoptScene(scene, rank, p, c);
      return true;
    }

    /** `removeFromParent()`: nothing happens to an object without a parent; otherwise `x` is detached. */
    method RemoveFromParent(x: Id)
      requires Valid() && x in scene.poses
      modifies this`scene
      ensures Valid()
      ensures x !in old(scene.parent) ==> scene == old(scene)
      ensures x in old(scene.parent) ==> Detached(old(scene), scene, x)
    {
      if x !in scene.parent {
        return;
      }
      scene := DetachScene(scene, rank, x);
    }

    /** `enter(state:)` with a known state `t`. */
    method Enter(x: Id, t: StateId)
      requires Valid() && x in scene.poses && t in scene.fallback
      modifies this`scene
      ensures Valid() && scene == EnterState(old(scene), x, t)
    {
      SameFollowing(scene, rank, EnterState(scene, x, t).poses);
      StatesStayKnown(scene, x, t);
      scene := EnterState(scene, x, t);
    }

    /** `push(state:)` with a known state `t`. */
    method Push(x: Id, t: StateId)
      requires Valid() && x in scene.poses && t in scene.fallback
      modifies this`scene
      ensures Valid() && scene == PushState(old(scene), x, t)
    {
      SameFollowing(scene, rank, PushState(scene, x, t).poses);
      StatesStayKnown(scene, x, t);
      scene := PushState(scene, x, t);
    }

    /** `exitState()`. */
    method Exit(x: Id)
      requires Valid() && x in scene.poses
      modifies this`scene
      ensures Valid() && scene == ExitState(old(scene), x)
    {
      SameFollowing(scene, rank, ExitState(scene, x).poses);
      ExitKeepsKnown(scene, x);
      scene := ExitState(scene, x);
    }

    /**
     * `update(_:)` of the `GameObject` `x`: it returns the changes recorded
     * since the last update and resets them to none.
     */
    method Update(x: Id) returns (changes: Flags)
      requires Valid() && x in scene.poses
      modifies this`scene
      ensures Valid() && changes == old(scene.poses[x].flags)
      ensures scene == old(scene).(poses := old(scene.poses)[x := old(scene.poses[x]).(flags := NoFlags)])
    {
      changes := scene.poses[x].flags;
      var poses' := scene.poses[x := scene.poses[x].(flags := NoFlags)];
      SameFollowing(scene, rank, poses');
      scene := scene.(poses := poses');
    }

    /** `update(_:)` of the member `x`: `x` and every object below it become active. */
    method UpdateMember(x: Id)
      requires Valid() && x in scene.poses
      modifies this`scene
      ensures Valid()
      ensures scene == old(scene).(active := old(scene.active) + Subtree(scene.parent, rank, scene.parent.Keys, x))
    {
      var active' := Activate(scene.parent, scene.children, rank, scene.active, x);
      scene := scene.(active := active');
    }
  }
}
