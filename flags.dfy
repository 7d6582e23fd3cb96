/**
 * The `GameObjectFlags` option set of UselessEngine/GameObjectFlags.swift:
 * a 64-bit raw value whose bits are handed out one at a time by
 * `createFlag`, and the `set`/`contains`/`clear` operations the two game
 * object variants perform on it.
 */
module Flags {
  /** The raw value's 64 bits (Swift `Int`, read as a bit pattern). */
  type Flags = bv64

  /** `GameObjectFlags.none`. */
  const NoFlags: Flags := 0

  /** `maxFlagIndex`. */
  const MaxFlagIndex := 63

  /** The flag with only bit `k` set, `1 << k`. */
  function Bit(k: nat): (f: Flags)
    requires k <= MaxFlagIndex
    ensures f != NoFlags
  {
    (1 as bv64) << (k as bv7)
  }

  /** `set(flags:)`: union. */
  function SetFlags(flags: Flags, f: Flags): Flags {
    flags | f
  }

  /** `contains(flags:)`: every bit of `f` is present. */
  predicate ContainsFlags(flags: Flags, f: Flags) {
    flags & f == f
  }

  /** `clear(flags:)`: difference. */
  function ClearFlags(flags: Flags, f: Flags): Flags {
    flags & !f
  }

  /** After `set`, the set contains what was set and everything it held before. */
  lemma SetThenContains(flags: Flags, f: Flags, g: Flags)
    ensures ContainsFlags(SetFlags(flags, f), f)
    ensures ContainsFlags(flags, g) ==> ContainsFlags(SetFlags(flags, f), g)
  {
  }

  /** After `clear`, no bit of the cleared flags remains. */
  lemma ClearThenLacks(flags: Flags, f: Flags)
    ensures ClearFlags(flags, f) & f == NoFlags
  {
  }

  /** `clear` leaves the bits outside the cleared flags as they were. */
  lemma ClearKeepsOthers(flags: Flags, f: Flags, g: Flags)
    requires g & f == NoFlags
    ensures ClearFlags(flags, f) & g == flags & g
  {
  }

  /** So a flag disjoint from the cleared ones is contained after `clear` exactly when it was before. */
  lemma ClearKeepsContained(flags: Flags, f: Flags, g: Flags)
    requires g & f == NoFlags
    ensures ContainsFlags(ClearFlags(flags, f), g) == ContainsFlags(flags, g)
  {
    ClearKeepsOthers(flags, f, g);
  }

  /** Clearing undoes setting a flag that was absent. */
  lemma ClearUndoesSet(flags: Flags, f: Flags)
    requires flags & f == NoFlags
    ensures ClearFlags(SetFlags(flags, f), f) == flags
  {
  }

  /** Every set contains `none`. */
  lemma ContainsNone(flags: Flags)
    ensures ContainsFlags(flags, NoFlags)
  {
  }

  /** Shifting one bit by two different amounts below 64 gives disjoint results. */
  lemma ShiftsDisjoint(i: bv7, j: bv7)
    requires i < 64 && j < 64 && i != j
    ensures ((1 as bv64) << i) & ((1 as bv64) << j) == NoFlags
  {
  }

  /** An index below 64 survives the conversion to a shift amount. */
  lemma ShiftAmountExact(i: nat)
    requires i <= MaxFlagIndex
    ensures (i as bv7) as int == i
  {
  }

  /** Different indices give disjoint single-bit flags. */
  lemma BitsDisjoint(i: nat, j: nat)
    requires i <= MaxFlagIndex && j <= MaxFlagIndex && i != j
    ensures Bit(i) & Bit(j) == NoFlags && Bit(i) != Bit(j)
  {
    ShiftAmountExact(i);
    ShiftAmountExact(j);
    ShiftsDisjoint(i as bv7, j as bv7);
  }

  /** The static state behind `createFlag`: the next index, and (ghost) the flags handed out so far. */
  class FlagAllocator {
    var nextFlagIndex: nat
    ghost var created: seq<Flags>

    ghost predicate Valid()
      reads this
    {
      && nextFlagIndex <= MaxFlagIndex + 1
      && |created| == nextFlagIndex
      && forall k :: 0 <= k < |created| ==> created[k] == Bit(k)
    }

    /** `nextFlagIndex = 0` before any flag exists. */
    constructor ()
      ensures Valid() && nextFlagIndex == 0 && created == []
    {
      nextFlagIndex := 0;
      created := [];
    }

    /**
     * `createFlag()`: while an index up to 63 is left, the flag `1 << index`
     * and one index further on; afterwards `none` and no change, as the
     * deferred increment is registered only past the guard.
     */
    method CreateFlag() returns (f: Flags)
      requires Valid()
      modifies this
      ensures Valid()
      ensures old(nextFlagIndex) <= MaxFlagIndex ==>
        f == Bit(old(nextFlagIndex)) && nextFlagIndex == old(nextFlagIndex) + 1 && created == old(created) + [f]
      ensures old(nextFlagIndex) > MaxFlagIndex ==>
        f == NoFlags && nextFlagIndex == old(nextFlagIndex) && created == old(created)
    {
      if nextFlagIndex > MaxFlagIndex {
        return NoFlags;
      }
      f := (1 as bv64) << (nextFlagIndex as bv7);
      created := created + [f];
      nextFlagIndex := nextFlagIndex + 1;
    }
  }

  /** Flags handed out by one allocator are pairwise disjoint, none of them `none`. */
  lemma CreatedDisjoint(created: seq<Flags>)
    requires forall k :: 0 <= k < |created| ==> k <= MaxFlagIndex && created[k] == Bit(k)
    ensures forall i, j :: 0 <= i < j < |created| ==> created[i] & created[j] == NoFlags
    ensures forall i :: 0 <= i < |created| ==> created[i] != NoFlags
  {
    forall i, j | 0 <= i < j < |created|
      ensures created[i] & created[j] == NoFlags
    {
      BitsDisjoint(i, j);
    }
  }
}
