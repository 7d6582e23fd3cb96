/**
 * Command priorities and commands, as Sources/GameObjectCommand.swift
 * declares them: the priority enum is `Comparable` in declaration order and
 * two commands are equal exactly when their ids are.
 */
module PackageCommand {
  datatype Priority = Low | Medium | High | Urgent

  /** The position of a priority in declaration order, which is the order `<` uses. */
  function Level(p: Priority): (r: nat)
    ensures r < 4
    ensures p == Urgent <==> r == 3
  {
    match p
    case Low => 0
    case Medium => 1
    case High => 2
    case Urgent => 3
  }

  /** The declaration order is a total order: distinct priorities have distinct levels. */
  lemma LevelIsInjective(p: Priority, q: Priority)
    ensures Level(p) == Level(q) <==> p == q
  {
  }

  /** A command: its `UUID` becomes an int chosen by the caller. */
  datatype Command = Command(id: int, priority: Priority)
}

/** Sources/GameObjectCommandQueueingComponent.swift. */
module PackageCommandQueue {
  import opened Wrappers
  import opened PackageCommand

  /**
   * One queued entry. `ts` is the `Date.timeIntervalSinceReferenceDate` read
   * when the command was queued, and `payload` the handle of the payload
   * object, if any.
   */
  datatype Entry = Entry(command: Command, ts: real, payload: Option<int>)

  /**
   * The `sort` comparator: a lower priority first, and among equal
   * priorities the later timestamp first.
   */
  predicate Precedes(a: Entry, b: Entry) {
    if a.command.priority != b.command.priority then Level(a.command.priority) < Level(b.command.priority)
    else a.ts > b.ts
  }

  /** No entry is preceded by one further back. */
  predicate Sorted(q: seq<Entry>) {
    forall i, j :: 0 <= i < j < |q| ==> !Precedes(q[j], q[i])
  }

  /**
   * No command id occurs twice: no entry is queued twice, and two entries
   * with the same id are the same entry. Stated over the multiset of
   * entries, so any rearrangement keeps it.
   */
  predicate UniqueIds(q: seq<Entry>) {
    && (forall e :: e in q ==> multiset(q)[e] <= 1)
    && (forall e1, e2 :: e1 in q && e2 in q && e1.command.id == e2.command.id ==> e1 == e2)
  }

  /** Stated by position: entries at two positions have different ids. */
  lemma UniqueIdsByPosition(q: seq<Entry>, i: int, j: int)
    requires UniqueIds(q) && 0 <= i < j < |q|
    ensures q[i].command.id != q[j].command.id
  {
    assert q == q[..j] + [q[j]] + q[j + 1..];
    assert multiset(q)[q[j]] == multiset(q[..j])[q[j]] + 1 + multiset(q[j + 1..])[q[j]];
    assert q[j] !in q[..j];
    assert q[i] in q[..j];
  }

  /** `removeAll(where: { $0.command == c })`: the entries of other commands, in order. */
  function WithoutCommand(q: seq<Entry>, c: Command): (r: seq<Entry>)
    ensures |r| <= |q|
    ensures forall e :: e in r <==> e in q && e.command.id != c.id
    ensures multiset(r) <= multiset(q)
  {
    if q == [] then []
    else
      assert q == [q[0]] + q[1..];
      (if q[0].command.id == c.id then [] else [q[0]]) + WithoutCommand(q[1..], c)
  }

  /** Insert `e` into the sorted `q` before the first entry it precedes. */
  function Insert(q: seq<Entry>, e: Entry): (r: seq<Entry>)
    requires Sorted(q)
    ensures Sorted(r) && multiset(r) == multiset(q) + multiset{e}
  {
    if q == [] then [e]
    else if Precedes(e, q[0]) then
      assert forall i :: 0 <= i < |q| ==> !Precedes(q[i], e) by {
        forall i | 0 <= i < |q|
          ensures !Precedes(q[i], e)
        {
          assert !Precedes(q[i], q[0]) || i == 0;
        }
      }
      [e] + q
    else
      var rest := Insert(q[1..], e);
      assert q == [q[0]] + q[1..];
      assert forall x :: x in multiset(rest) ==> !Precedes(x, q[0]);
      [q[0]] + rest
  }

  class CommandQueueingComponent {
    var commandQueue: seq<Entry>

    ghost predicate Valid()
      reads this
    {
      Sorted(commandQueue) && UniqueIds(commandQueue)
    }

    constructor ()
      ensures Valid() && commandQueue == []
    {
      commandQueue := [];
    }

    /**
     * `queue(command:payload:)` at clock reading `now`: an urgent command
     * replaces the whole queue; any other command replaces the entries of
     * the same command and the queue is sorted again.
     */
    method Queue(c: Command, payload: Option<int>, now: real)
      requires Valid()
      modifies this
      ensures Valid()
      ensures c.priority == Urgent ==> commandQueue == [Entry(c, now, payload)]
      ensures c.priority != Urgent ==>
        multiset(commandQueue) == multiset(WithoutCommand(old(commandQueue), c) + [Entry(c, now, payload)])
      ensures |commandQueue| <= |old(commandQueue)| + 1
    {
      if c.priority == Urgent {
        commandQueue := [Entry(c, now, payload)];
        return;
      }
      var kept := WithoutCommand(commandQueue, c);
      var appended := kept + [Entry(c, now, payload)];
      assert multiset(appended) == multiset(kept) + multiset{Entry(c, now, payload)};
      assert Entry(c, now, payload) !in kept;
      commandQueue := SortEntries(appended);
      assert |commandQueue| == |multiset(commandQueue)| == |appended|;
    }

    /** `update(with:dt:)`: pop the last entry, which is handed to the state's handler. */
    method Update() returns (popped: Option<Entry>)
      requires Valid()
      modifies this
      ensures Valid()
      ensures old(commandQueue) == [] ==> popped == None && commandQueue == []
      ensures old(commandQueue) != [] ==>
        popped == Some(old(commandQueue)[|old(commandQueue)| - 1]) && commandQueue == old(commandQueue)[..|old(commandQueue)| - 1]
    {
      if commandQueue == [] {
        return None;
      }
      var q := commandQueue;
      popped := Some(q[|q| - 1]);
      commandQueue := q[..|q| - 1];
      assert q == commandQueue + [q[|q| - 1]];
      assert multiset(commandQueue) <= multiset(q);
    }
  }

  /** `sort(by:)`: some sorted rearrangement; Swift's sort is not stable, so ties may come out in any order. */
  method SortEntries(q: seq<Entry>) returns (r: seq<Entry>)
    ensures Sorted(r) && multiset(r) == multiset(q)
  {
    r := [];
    var i := 0;
    while i < |q|
      invariant 0 <= i <= |q|
      invariant Sorted(r) && multiset(r) == multiset(q[..i])
    {
      assert q[..i + 1] == q[..i] + [q[i]];
      r := Insert(r, q[i]);
      i := i + 1;
    }
    assert q[..i] == q;
  }

  /**
   * The entry `update` pops is the most urgent one, and the oldest among
   * the entries of that priority.
   */
  lemma LastIsMostUrgent(q: seq<Entry>)
    requires Sorted(q) && q != []
    ensures var last := q[|q| - 1];
      forall e :: e in q ==>
        Level(e.command.priority) <= Level(last.command.priority)
        && (e.command.priority == last.command.priority ==> last.ts <= e.ts)
  {
    var last := q[|q| - 1];
    forall e | e in q
      ensures Level(e.command.priority) <= Level(last.command.priority)
      ensures e.command.priority == last.command.priority ==> last.ts <= e.ts
    {
      var i :| 0 <= i < |q| && q[i] == e;
      if i < |q| - 1 {
        assert !Precedes(last, q[i]);
      }
    }
  }
}

/**
 * UselessEngine/GameObjectCommandQueueingComponent.swift. It uses `.urgent`
 * and compares priorities with `>`, which only the Comparable enum of
 * Sources/GameObjectCommand.swift offers, so that enum is used here.
 */
module LegacyCommandQueue {
  import opened Wrappers
  import opened PackageCommand

  datatype Entry = Entry(command: Command, payload: Option<int>)

  /** Priorities strictly increase from the front of the queue to its back. */
  predicate Increasing(q: seq<Entry>) {
    forall i, j :: 0 <= i < j < |q| ==> Level(q[i].command.priority) < Level(q[j].command.priority)
  }

  /** `filter({ $0.command.priority > p })`. */
  function Above(q: seq<Entry>, p: Priority): (r: seq<Entry>)
    ensures |r| <= |q|
    ensures forall e :: e in r <==> e in q && Level(e.command.priority) > Level(p)
  {
    if q == [] then []
    else
      assert q == [q[0]] + q[1..];
      (if Level(q[0].command.priority) > Level(p) then [q[0]] else []) + Above(q[1..], p)
  }

  lemma {:induction false} AboveKeepsOrder(q: seq<Entry>, p: Priority)
    requires Increasing(q)
    ensures Increasing(Above(q, p))
    decreases |q|
  {
    if q != [] {
      AboveKeepsOrder(q[1..], p);
      forall e | e in Above(q[1..], p)
        ensures Level(q[0].command.priority) < Level(e.command.priority)
      {
        var k :| 1 <= k < |q| && q[k] == e;
      }
    }
  }

  /** An increasing queue holds at most one entry per priority level. */
  lemma {:induction false} IncreasingIsShort(q: seq<Entry>, floor: nat)
    requires Increasing(q)
    requires forall e :: e in q ==> Level(e.command.priority) >= floor
    ensures |q| <= 4 - floor || q == []
    decreases |q|
  {
    if q != [] {
      assert Level(q[0].command.priority) < 4;
      if |q| > 1 {
        forall e | e in q[1..]
          ensures Level(e.command.priority) >= Level(q[0].command.priority) + 1
        {
          var k :| 1 <= k < |q| && q[k] == e;
        }
        IncreasingIsShort(q[1..], Level(q[0].command.priority) + 1);
      }
    }
  }

  class CommandQueueingComponent {
    var commandQueue: seq<Entry>

    ghost predicate Valid()
      reads this
    {
      Increasing(commandQueue)
    }

    constructor ()
      ensures Valid() && commandQueue == []
    {
      commandQueue := [];
    }

    /**
     * `queue(command:payload:)`: an urgent command replaces the queue;
     * otherwise only entries of strictly higher priority survive, in order,
     * and the new entry goes to the front.
     */
    method Queue(c: Command, payload: Option<int>)
      requires Valid()
      modifies this
      ensures Valid() && |commandQueue| <= 4
      ensures c.priority == Urgent ==> commandQueue == [Entry(c, payload)]
      ensures c.priority != Urgent ==> commandQueue == [Entry(c, payload)] + Above(old(commandQueue), c.priority)
    {
      if c.priority == Urgent {
        commandQueue := [Entry(c, payload)];
      } else {
        var kept := Above(commandQueue, c.priority);
        AboveKeepsOrder(commandQueue, c.priority);
        commandQueue := [Entry(c, payload)] + kept;
        assert Increasing(commandQueue) by {
          forall i | 1 <= i < |commandQueue|
            ensures Level(commandQueue[0].command.priority) < Level(commandQueue[i].command.priority)
          {
            assert commandQueue[i] in kept;
          }
        }
      }
      IncreasingIsShort(commandQueue, 0);
    }

    /** `update(with:dt:)`: pop the last entry, the most urgent one. */
    method Update() returns (popped: Option<Entry>)
      requires Valid()
      modifies this
      ensures Valid()
      ensures old(commandQueue) == [] ==> popped == None && commandQueue == []
      ensures old(commandQueue) != [] ==>
        && popped == Some(old(commandQueue)[|old(commandQueue)| - 1])
        && commandQueue == old(commandQueue)[..|old(commandQueue)| - 1]
        && forall e :: e in commandQueue ==> Level(e.command.priority) < Level(popped.value.command.priority)
    {
      if commandQueue == [] {
        return None;
      }
      popped := Some(commandQueue[|commandQueue| - 1]);
      commandQueue := commandQueue[..|commandQueue| - 1];
    }
  }
}

/**
 * UselessEngine/GameObjectCommandComponent.swift with the priorities of
 * UselessEngine/GameObjectCommand.swift, whose raw values run the other way:
 * high is 1, medium 2 and low 3. Commands are compared by identity.
 */
module LegacyCommandComponent {
  import opened Wrappers

  datatype Priority = High | Medium | Low

  function RawValue(p: Priority): (r: nat)
    ensures 1 <= r <= 3
  {
    match p
    case High => 1
    case Medium => 2
    case Low => 3
  }

  /** A command object; `id` stands for its identity. */
  datatype Command = Command(id: int, priority: Priority)

  /** Raw values strictly decrease from the front to the back, so the back is the most urgent. */
  predicate Decreasing(q: seq<Command>) {
    forall i, j :: 0 <= i < j < |q| ==> RawValue(q[i].priority) > RawValue(q[j].priority)
  }

  /** What the backward removal loop keeps: the commands of strictly smaller raw value, in order. */
  function MoreUrgent(q: seq<Command>, p: Priority): seq<Command> {
    if q == [] then []
    else (if RawValue(q[0].priority) < RawValue(p) then [q[0]] else []) + MoreUrgent(q[1..], p)
  }

  /** The loop keeps exactly the commands strictly more urgent than `p`. */
  lemma {:induction false} MoreUrgentMembers(q: seq<Command>, p: Priority)
    ensures forall c :: c in MoreUrgent(q, p) <==> c in q && RawValue(c.priority) < RawValue(p)
    decreases |q|
  {
    if q != [] {
      MoreUrgentMembers(q[1..], p);
      assert q == [q[0]] + q[1..];
    }
  }

  /** The `.high` branch empties the queue, which is also what the loop would keep for it. */
  lemma HighKeepsNothing(q: seq<Command>)
    ensures MoreUrgent(q, High) == []
  {
    MoreUrgentMembers(q, High);
    if MoreUrgent(q, High) != [] {
      assert MoreUrgent(q, High)[0] in MoreUrgent(q, High);
    }
  }

  lemma DecreasingCons(x: Command, rest: seq<Command>)
    requires Decreasing(rest) && forall c :: c in rest ==> RawValue(x.priority) > RawValue(c.priority)
    ensures Decreasing([x] + rest)
  {
    var t := [x] + rest;
    forall i, j | 0 <= i < j < |t|
      ensures RawValue(t[i].priority) > RawValue(t[j].priority)
    {
      assert t[j] == rest[j - 1];
      if i > 0 {
        assert t[i] == rest[i - 1];
      } else {
        assert t[j] in rest;
      }
    }
  }

  lemma HeadAboveKept(q: seq<Command>, p: Priority)
    requires Decreasing(q) && q != []
    ensures forall c :: c in MoreUrgent(q[1..], p) ==> RawValue(q[0].priority) > RawValue(c.priority)
  {
    MoreUrgentMembers(q[1..], p);
    forall c | c in MoreUrgent(q[1..], p)
      ensures RawValue(q[0].priority) > RawValue(c.priority)
    {
      var k :| 0 <= k < |q[1..]| && q[1..][k] == c;
      assert q[k + 1] == c;
    }
  }

  lemma {:induction false} MoreUrgentKeepsOrder(q: seq<Command>, p: Priority)
    requires Decreasing(q)
    ensures Decreasing(MoreUrgent(q, p))
    decreases |q|
  {
    if q != [] {
      var rest := MoreUrgent(q[1..], p);
      MoreUrgentKeepsOrder(q[1..], p);
      if RawValue(q[0].priority) < RawValue(p) {
        HeadAboveKept(q, p);
        DecreasingCons(q[0], rest);
      } else {
        assert MoreUrgent(q, p) == rest;
      }
    }
  }

  /** One step of the backward loop: index `i` is dropped or kept in front of what is kept after it. */
  lemma MoreUrgentStep(q: seq<Command>, p: Priority, i: int)
    requires 0 <= i < |q|
    ensures MoreUrgent(q[i..], p) == (if RawValue(q[i].priority) < RawValue(p) then [q[i]] else []) + MoreUrgent(q[i + 1..], p)
  {
    assert q[i..][1..] == q[i + 1..];
  }

  /** Removing index `|front|` from `front + [x] + tail`. */
  lemma SplitAt(front: seq<Command>, x: Command, tail: seq<Command>)
    ensures var r := front + [x] + tail;
      r[|front|] == x && r[..|front|] + r[|front| + 1..] == front + tail
  {
    var r := front + [x] + tail;
    assert r[..|front|] == front;
    assert r[|front| + 1..] == tail;
  }

  /** The backward loop of `queue(command:)`, which calls `remove(at:)` on each dropped index. */
  method RemoveLessUrgent(q: seq<Command>, p: Priority) returns (r: seq<Command>)
    ensures r == MoreUrgent(q, p)
  {
    r := q;
    var i := |q|;
    assert q[i..] == [];
    while i > 0
      invariant 0 <= i <= |q|
      invariant r == q[..i] + MoreUrgent(q[i..], p)
    {
      ghost var tail := MoreUrgent(q[i..], p);
      MoreUrgentStep(q, p, i - 1);
      assert q[..i] == q[..i - 1] + [q[i - 1]];
      SplitAt(q[..i - 1], q[i - 1], tail);
      if RawValue(r[i - 1].priority) >= RawValue(p) {
        r := r[..i - 1] + r[i..];
      }
      i := i - 1;
    }
  }

  /** A decreasing queue holds at most one command per priority. */
  lemma {:induction false} DecreasingIsShort(q: seq<Command>, top: nat)
    requires Decreasing(q)
    requires forall c :: c in q ==> RawValue(c.priority) <= top
    ensures |q| <= top
    decreases |q|
  {
    if q != [] {
      forall c | c in q[1..]
        ensures RawValue(c.priority) <= RawValue(q[0].priority) - 1
      {
        var k :| 1 <= k < |q| && q[k] == c;
      }
      DecreasingIsShort(q[1..], RawValue(q[0].priority) - 1);
    }
  }

  class CommandComponent {
    var commandQueue: seq<Command>

    ghost predicate Valid()
      reads this
    {
      Decreasing(commandQueue)
    }

    constructor ()
      ensures Valid() && commandQueue == []
    {
      commandQueue := [];
    }

    /**
     * `queue(command:)`: drop every command of the same or lower priority
     * (walking the array from the back with `remove(at:)`), then insert the
     * new one at the front.
     */
    method Queue(c: Command)
      requires Valid()
      modifies this
      ensures Valid() && |commandQueue| <= 3
      ensures commandQueue == [c] + MoreUrgent(old(commandQueue), c.priority)
    {
      if c.priority == High {
        HighKeepsNothing(commandQueue);
        commandQueue := [];
      } else {
        commandQueue := RemoveLessUrgent(commandQueue, c.priority);
      }
      MoreUrgentKeepsOrder(old(commandQueue), c.priority);
      MoreUrgentMembers(old(commandQueue), c.priority);
      DecreasingCons(c, commandQueue);
      commandQueue := [c] + commandQueue;
      DecreasingIsShort(commandQueue, 3);
    }

    /** `dequeueAndDoCommand(with:)`: pop the last command, the most urgent one. */
    method DequeueAndDoCommand() returns (popped: Option<Command>)
      requires Valid()
      modifies this
      ensures Valid()
      ensures old(commandQueue) == [] ==> popped == None && commandQueue == []
      ensures old(commandQueue) != [] ==>
        && popped == Some(old(commandQueue)[|old(commandQueue)| - 1])
        && commandQueue == old(commandQueue)[..|old(commandQueue)| - 1]
        && forall e :: e in commandQueue ==> RawValue(e.priority) > RawValue(popped.value.priority)
    {
      if commandQueue == [] {
        return None;
      }
      popped := Some(commandQueue[|commandQueue| - 1]);
      commandQueue := commandQueue[..|commandQueue| - 1];
    }
  }
}
