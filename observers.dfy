/**
 * The singly linked observer list of UselessEngine/Observers.swift and
 * UselessEngine/ObserverNode.swift. Observers are objects compared by
 * identity; an int handle stands for each.
 */
module LegacyObservers {
  import opened Sequences

  class ObserverNode {
    const observer: int
    var nextObserver: ObserverNode?

    /** `init(observer:)`: a node with no successor. */
    constructor (o: int)
      ensures observer == o && nextObserver == null
    {
      observer := o;
      nextObserver := null;
    }
  }

  /** The observers held by a run of nodes, in order. */
  function ObserversOf(nodes: seq<ObserverNode>): (r: seq<int>)
    ensures |r| == |nodes| && forall i :: 0 <= i < |nodes| ==> r[i] == nodes[i].observer
  {
    seq(|nodes|, i requires 0 <= i < |nodes| => nodes[i].observer)
  }

  /** Each node's successor is the next node of `nodes`, the last has none, and no node occurs twice. */
  ghost predicate Chain(nodes: seq<ObserverNode>)
    reads nodes
  {
    && (nodes != [] ==> nodes[|nodes| - 1].nextObserver == null)
    && (forall i :: 0 <= i < |nodes| - 1 ==> nodes[i].nextObserver == nodes[i + 1])
    && (forall i, j :: 0 <= i < j < |nodes| ==> nodes[i] != nodes[j])
  }

  /** The successors as `Chain` has them, written per node. */
  ghost predicate Linked(s: seq<ObserverNode>, j: int)
    requires 0 <= j < |s|
    reads s[j]
  {
    s[j].nextObserver == if j < |s| - 1 then s[j + 1] else null
  }

  /** Unlinking `s[i + 1]` leaves a chain of the other nodes. */
  lemma ChainWithout(s: seq<ObserverNode>, i: int, t: seq<ObserverNode>)
    requires 0 <= i < |s| - 1 && t == s[..i + 1] + s[i + 2..]
    requires forall j, k :: 0 <= j < k < |s| ==> s[j] != s[k]
    requires forall j :: 0 <= j < |s| && j != i && j != i + 1 ==> Linked(s, j)
    requires s[i].nextObserver == if i + 2 < |s| then s[i + 2] else null
    ensures Chain(t)
  {
    assert forall j :: 0 <= j < |t| ==> t[j] == if j <= i then s[j] else s[j + 1];
    if i + 2 < |s| {
      assert Linked(s, |s| - 1);
    }
    forall j | 0 <= j < |t| - 1
      ensures t[j].nextObserver == t[j + 1]
    {
      if j < i {
        assert Linked(s, j);
      } else if j > i {
        assert Linked(s, j + 1);
      }
    }
  }

  /** Dropping the head leaves a chain of the other nodes. */
  lemma ChainTail(s: seq<ObserverNode>, t: seq<ObserverNode>)
    requires |s| > 0 && t == s[1..]
    requires forall j, k :: 0 <= j < k < |s| ==> s[j] != s[k]
    requires forall j :: 1 <= j < |s| ==> Linked(s, j)
    ensures Chain(t)
  {
    if |t| > 0 {
      assert Linked(s, |s| - 1);
    }
    forall j | 0 <= j < |t| - 1
      ensures t[j].nextObserver == t[j + 1]
    {
      assert Linked(s, j + 1);
    }
  }

  /** A chain's nodes, node by node. */
  lemma ChainLinked(s: seq<ObserverNode>)
    requires Chain(s)
    ensures forall j :: 0 <= j < |s| ==> Linked(s, j)
  {
  }

  class Observers {
    var headObserver: ObserverNode?
    /** The nodes reachable from the head, in order. */
    ghost var spine: seq<ObserverNode>

    ghost predicate Valid()
      reads this, spine
    {
      && (spine == [] <==> headObserver == null)
      && (spine != [] ==> headObserver == spine[0])
      && Chain(spine)
    }

    /** The observers in the order `receive` reaches them. */
    ghost function Observed(): seq<int>
      reads this
    {
      ObserversOf(spine)
    }

    constructor ()
      ensures Valid() && Observed() == []
    {
      headObserver := null;
      spine := [];
    }

    /** `addNode(withObserver:)`: a new node becomes the head, in front of the old head. */
    method AddNode(o: int)
      requires Valid()
      modifies this
      ensures Valid() && Observed() == [o] + old(Observed())
      ensures fresh(headObserver) && spine == [headObserver] + old(spine)
    {
      var node := new ObserverNode(o);
      node.nextObserver := headObserver;
      headObserver := node;
      spine := [node] + spine;
    }

    /**
     * `removeNode(withObserver:)`: unlink the first node holding `o`, keep
     * the others in order and clear the removed node's successor; nothing
     * changes when no node holds `o`.
     */
    method RemoveNode(o: int)
      requires Valid()
      modifies this, spine
      ensures Valid() && Observed() == RemoveFirst(old(Observed()), o)
      ensures o !in old(Observed()) ==> spine == old(spine) && headObserver == old(headObserver)
      ensures forall n :: n in old(spine) && n !in spine ==> n.nextObserver == null
    {
      if headObserver == null {
        return;
      }
      if headObserver.observer == o {
        RemoveHead();
        return;
      }
      var current := headObserver;
      ghost var i := 0;
      while current != null
        invariant 0 <= i <= |spine|
        invariant current != null ==> i < |spine| && current == spine[i]
        invariant current == null ==> i == |spine|
        invariant forall j :: 0 <= j < i || (current != null && j == i) ==> spine[j].observer != o
        invariant Valid() && spine == old(spine) && headObserver == old(headObserver)
        invariant forall n :: n in spine ==> n.nextObserver == old(n.nextObserver)
        decreases |spine| - i
      {
        if current.nextObserver != null && current.nextObserver.observer == o {
          UnlinkAfter(current, i, o);
          return;
        }
        ChainLinked(spine);
        assert Linked(spine, i);
        current := current.nextObserver;
        i := i + 1;
      }
      assert o !in ObserversOf(spine);
    }

    /** The head holds the observer: the head's successor becomes the head. */
    method RemoveHead()
      requires Valid() && headObserver != null
      modifies this, headObserver
      ensures Valid() && spine == old(spine[1..])
      ensures Observed() == RemoveFirst(old(Observed()), old(headObserver.observer))
      ensures old(headObserver).nextObserver == null
    {
      ghost var s := spine;
      RemoveFirstAt(ObserversOf(s), s[0].observer, 0);
      assert ObserversOf(s)[1..] == ObserversOf(s[1..]);
      ChainLinked(s);
      assert |s| > 1 ==> s[0].nextObserver == s[1];
      var nodeToRemove := headObserver;
      headObserver := nodeToRemove.nextObserver;
      nodeToRemove.nextObserver := null;
      spine := s[1..];
      ChainTail(s, spine);
    }

    /** Unlink `spine[i + 1]`, the first node holding `o`. */
    method UnlinkAfter(current: ObserverNode, ghost i: int, o: int)
      requires Valid() && 0 <= i < |spine| - 1 && current == spine[i] && spine[i + 1].observer == o
      requires forall j :: 0 <= j <= i ==> spine[j].observer != o
      modifies spine[i], spine[i + 1], this
      ensures Valid() && Observed() == RemoveFirst(old(Observed()), o)
      ensures spine == old(spine[..i + 1] + spine[i + 2..]) && headObserver == old(headObserver)
      ensures old(spine[i + 1]).nextObserver == null
    {
      ghost var s := spine;
      ghost var obs := ObserversOf(s);
      assert o !in obs[..i + 1];
      RemoveFirstAt(obs, o, i + 1);
      ChainLinked(s);
      var nodeToRemove := current.nextObserver;
      current.nextObserver := nodeToRemove.nextObserver;
      nodeToRemove.nextObserver := null;
      spine := s[..i + 1] + s[i + 2..];
      assert ObserversOf(spine) == obs[..i + 1] + obs[i + 2..];
      ChainWithout(s, i, spine);
    }

    /** `removeAllNodes()`: every node loses its successor and the list becomes empty. */
    method RemoveAllNodes()
      requires Valid()
      modifies this, spine
      ensures Valid() && Observed() == [] && headObserver == null
      ensures forall n :: n in old(spine) ==> n.nextObserver == null
    {
      if headObserver == null {
        return;
      }
      var current := headObserver;
      ghost var i := 0;
      while current.nextObserver != null
        invariant 0 <= i < |spine| && current == spine[i]
        invariant forall j :: 0 <= j < i ==> spine[j].nextObserver == null
        invariant forall j :: i <= j < |spine| - 1 ==> spine[j].nextObserver == spine[j + 1]
        invariant spine[|spine| - 1].nextObserver == null
        invariant forall j, k :: 0 <= j < k < |spine| ==> spine[j] != spine[k]
        invariant spine == old(spine)
        decreases |spine| - i
      {
        var nextObserver := current.nextObserver;
        current.nextObserver := null;
        current := nextObserver;
        i := i + 1;
      }
      assert Linked(spine, i);
      assert i == |spine| - 1;
      assert forall j :: 0 <= j < |spine| ==> spine[j].nextObserver == null;
      headObserver := null;
      spine := [];
    }

    /** `receive(event:from:payload:)`: the observers called, head to tail, each node once. */
    method Receive() returns (called: seq<int>)
      requires Valid()
      ensures called == Observed()
    {
      called := [];
      var node := headObserver;
      ghost var i := 0;
      while node != null
        invariant 0 <= i <= |spine|
        invariant i < |spine| ==> node == spine[i]
        invariant i == |spine| ==> node == null
        invariant called == ObserversOf(spine)[..i]
        decreases |spine| - i
      {
        called := called + [node.observer];
        node := node.nextObserver;
        i := i + 1;
      }
      assert ObserversOf(spine)[..i] == ObserversOf(spine);
    }
  }
}
