/** Removing the first occurrence of a value from a sequence, as Swift's `firstIndex(where:)` followed by `remove(at:)` does. */
module Sequences {
  /** Where `o` first occurs in `s`. */
  function FirstIndex<T(==)>(s: seq<T>, o: T): (k: nat)
    requires o in s
    ensures k < |s| && s[k] == o && o !in s[..k]
  {
    if s[0] == o then 0
    else
      var k := FirstIndex(s[1..], o);
      assert s[..k + 1] == [s[0]] + s[1..][..k];
      k + 1
  }

  /** `s` without its first occurrence of `o`; unchanged when `o` does not occur. */
  function RemoveFirst<T(==)>(s: seq<T>, o: T): seq<T> {
    if o in s then s[..FirstIndex(s, o)] + s[FirstIndex(s, o) + 1..] else s
  }

  /** Exactly one occurrence of `o` goes, when there is one. */
  lemma RemoveFirstCount<T>(s: seq<T>, o: T)
    ensures o in s ==> |RemoveFirst(s, o)| == |s| - 1 && multiset(RemoveFirst(s, o)) == multiset(s) - multiset{o}
  {
    if o in s {
      var k := FirstIndex(s, o);
      assert s == s[..k] + [o] + s[k + 1..];
    }
  }

  /** Removing the first occurrence is removing the element at its index. */
  lemma RemoveFirstAt<T>(s: seq<T>, o: T, k: int)
    requires 0 <= k < |s| && s[k] == o && o !in s[..k]
    ensures RemoveFirst(s, o) == s[..k] + s[k + 1..]
  {
    var f := FirstIndex(s, o);
    assert forall j :: 0 <= j < k ==> s[j] in s[..k];
    assert forall j :: 0 <= j < f ==> s[j] in s[..f];
  }

  /** `reversed()`: the elements back to front. */
  function Reversed<T>(s: seq<T>): (r: seq<T>)
    ensures |r| == |s| && forall i :: 0 <= i < |s| ==> r[i] == s[|s| - 1 - i]
  {
    seq(|s|, i requires 0 <= i < |s| => s[|s| - 1 - i])
  }

  /** Reversing twice gives the sequence back. */
  lemma ReversedTwice<T>(s: seq<T>)
    ensures Reversed(Reversed(s)) == s
  {
  }
}
