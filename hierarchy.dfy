/**
 * The parent/child links both game-object trees share. Objects are int
 * handles; `parent` holds the objects that have a parent. A ghost rank that
 * strictly grows from child to parent stands for "the links form a forest":
 * it gives the downward cascades and the upward root walk a measure.
 */
module Hierarchy {
  import opened LegacyGeometry

  type Id = int

  /** `Position(x: a.x + b.x, y: a.y + b.y, z: a.z + b.z)`, as the observers build it. */
  function PlusPosition(a: Position, b: Position): Position {
    Position(a.x + b.x, a.y + b.y, a.z + b.z)
  }

  /** `Position(x: a.x - b.x, y: a.y - b.y, z: a.z - b.z)`. */
  function MinusPosition(a: Position, b: Position): Position {
    Position(a.x - b.x, a.y - b.y, a.z - b.z)
  }

  /** Adding back what was taken away. */
  lemma PlusMinus(a: Position, b: Position)
    ensures PlusPosition(b, MinusPosition(a, b)) == a
    ensures MinusPosition(PlusPosition(b, a), b) == a
  {
  }

  /** Every link goes from a lower rank to a higher one. */
  ghost predicate Ranked(parent: map<Id, Id>, rank: map<Id, nat>) {
    forall c :: c in parent ==> c in rank && parent[c] in rank && rank[c] < rank[parent[c]]
  }

  /**
   * `z` is `a` or lies below it, each link on the way from `z` up to `a`
   * belonging to an object of `along` (all objects with a parent for the
   * plain subtree, the anchored ones for what a move carries along).
   */
  ghost predicate Under(parent: map<Id, Id>, rank: map<Id, nat>, along: set<Id>, a: Id, z: Id)
    requires Ranked(parent, rank)
    decreases if a in rank && z in rank then rank[a] as int - rank[z] else 0
  {
    z == a || (z in along && z in parent && a in rank && rank[z] < rank[a] && Under(parent, rank, along, a, parent[z]))
  }

  /** The objects under `a`. */
  ghost function Subtree(parent: map<Id, Id>, rank: map<Id, nat>, along: set<Id>, a: Id): set<Id>
    requires Ranked(parent, rank)
  {
    set z | z in rank && Under(parent, rank, along, a, z)
  }

  /** The objects ranked above `x`. */
  ghost function Higher(rank: map<Id, nat>, x: Id): set<Id> {
    set z | z in rank && x in rank && rank[z] > rank[x]
  }

  /** Climbing a link leaves fewer objects above. */
  lemma HigherShrinks(rank: map<Id, nat>, a: Id, b: Id)
    requires a in rank && b in rank && rank[a] < rank[b]
    ensures |Higher(rank, b)| < |Higher(rank, a)|
  {
    var small, big := Higher(rank, b), Higher(rank, a);
    assert small <= big && b in big - small;
    assert big == small + (big - small);
  }

  /** The root of `x`'s tree: its parent links followed to the end. */
  ghost function Root(parent: map<Id, Id>, rank: map<Id, nat>, x: Id): (r: Id)
    requires Ranked(parent, rank) && x in rank
    ensures r in rank && r !in parent
    decreases |Higher(rank, x)|
  {
    if x in parent then
      HigherShrinks(rank, x, parent[x]);
      Root(parent, rank, parent[x])
    else x
  }

  /** A direct child that links along lies under its parent. */
  lemma ChildUnder(parent: map<Id, Id>, rank: map<Id, nat>, along: set<Id>, c: Id)
    requires Ranked(parent, rank) && c in parent && c in along
    ensures Under(parent, rank, along, parent[c], c)
  {
    assert Under(parent, rank, along, parent[c], parent[c]);
  }

  /** Being under is transitive. */
  lemma {:induction false} UnderTransitive(parent: map<Id, Id>, rank: map<Id, nat>, along: set<Id>, a: Id, b: Id, z: Id)
    requires Ranked(parent, rank)
    requires Under(parent, rank, along, a, b) && Under(parent, rank, along, b, z)
    ensures Under(parent, rank, along, a, z)
    decreases if b in rank && z in rank then rank[b] as int - rank[z] else 0
  {
    if z != b {
      UnderTransitive(parent, rank, along, a, b, parent[z]);
      UnderRank(parent, rank, along, a, b);
    }
  }

  /** Whatever lies under `a` is `a` or ranked below it. */
  lemma UnderRank(parent: map<Id, Id>, rank: map<Id, nat>, along: set<Id>, a: Id, z: Id)
    requires Ranked(parent, rank) && Under(parent, rank, along, a, z)
    ensures z == a || (a in rank && z in rank && rank[z] < rank[a])
  {
  }

  /** A parent never lies under its own child. */
  lemma ParentNotUnderChild(parent: map<Id, Id>, rank: map<Id, nat>, along: set<Id>, c: Id)
    requires Ranked(parent, rank) && c in parent
    ensures !Under(parent, rank, along, c, parent[c])
  {
  }

  /** The child of `a` on the way up from `z`. */
  ghost function Toward(parent: map<Id, Id>, rank: map<Id, nat>, along: set<Id>, a: Id, z: Id): (c: Id)
    requires Ranked(parent, rank) && Under(parent, rank, along, a, z) && z != a
    ensures c in parent && parent[c] == a && c in along && Under(parent, rank, along, c, z)
    decreases if a in rank && z in rank then rank[a] as int - rank[z] else 0
  {
    if parent[z] == a then z
    else
      var c := Toward(parent, rank, along, a, parent[z]);
      UnderRank(parent, rank, along, c, parent[z]);
      c
  }

  /** What lies under a child that links along lies under the parent, toward that child. */
  lemma {:induction false} TowardChild(parent: map<Id, Id>, rank: map<Id, nat>, along: set<Id>, c: Id, z: Id)
    requires Ranked(parent, rank) && c in parent && c in along && Under(parent, rank, along, c, z)
    ensures Under(parent, rank, along, parent[c], z) && z != parent[c]
    ensures Toward(parent, rank, along, parent[c], z) == c
    decreases if c in rank && z in rank then rank[c] as int - rank[z] else 0
  {
    ChildUnder(parent, rank, along, c);
    UnderTransitive(parent, rank, along, parent[c], c, z);
    ParentNotUnderChild(parent, rank, along, c);
    if z != c {
      TowardChild(parent, rank, along, c, parent[z]);
    }
  }

  /** A set that holds `a` and every child of its members holds the whole subtree of `a`. */
  lemma {:induction false} ClosedHoldsSubtree(parent: map<Id, Id>, rank: map<Id, nat>, s: set<Id>, a: Id, z: Id)
    requires Ranked(parent, rank) && a in s
    requires forall c :: c in parent && parent[c] in s ==> c in s
    requires Under(parent, rank, parent.Keys, a, z)
    ensures z in s
    decreases if a in rank && z in rank then rank[a] as int - rank[z] else 0
  {
    if z != a {
      ClosedHoldsSubtree(parent, rank, s, a, parent[z]);
    }
  }

  /** Every object lies in its root's subtree. */
  lemma {:induction false} UnderRoot(parent: map<Id, Id>, rank: map<Id, nat>, x: Id)
    requires Ranked(parent, rank) && x in rank
    ensures Under(parent, rank, parent.Keys, Root(parent, rank, x), x)
    decreases |Higher(rank, x)|
  {
    if x in parent {
      HigherShrinks(rank, x, parent[x]);
      UnderRoot(parent, rank, parent[x]);
      ChildUnder(parent, rank, parent.Keys, x);
      UnderTransitive(parent, rank, parent.Keys, Root(parent, rank, x), parent[x], x);
    }
  }

  /** What lies under a child that links along lies strictly under its parent. */
  lemma ChildSubtree(parent: map<Id, Id>, rank: map<Id, nat>, along: set<Id>, c: Id)
    requires Ranked(parent, rank) && c in parent && c in along
    ensures Subtree(parent, rank, along, c) <= Subtree(parent, rank, along, parent[c]) - {parent[c]}
  {
    forall z | z in Subtree(parent, rank, along, c)
      ensures Under(parent, rank, along, parent[c], z) && z != parent[c]
    {
      TowardChild(parent, rank, along, c, z);
    }
  }

  /** The subtrees of two different children of one parent share nothing. */
  lemma SiblingsApart(parent: map<Id, Id>, rank: map<Id, nat>, along: set<Id>, c: Id, d: Id)
    requires Ranked(parent, rank) && c in parent && c in along && d in parent && d in along
    requires parent[c] == parent[d] && c != d
    ensures Subtree(parent, rank, along, c) !! Subtree(parent, rank, along, d)
  {
    forall z | z in Subtree(parent, rank, along, c)
      ensures z !in Subtree(parent, rank, along, d)
    {
      TowardChild(parent, rank, along, c, z);
      if z in Subtree(parent, rank, along, d) {
        TowardChild(parent, rank, along, d, z);
      }
    }
  }
}
