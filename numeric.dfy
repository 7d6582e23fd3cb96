/**
 * Rounding and clamping on the real numbers that stand for Swift's `Float`.
 * `floor` is Dafny's `.Floor`; Swift's `round` rounds half away from zero.
 */
module Numeric {

  function Abs(r: real): real { if r < 0.0 then -r else r }

  function Max(a: real, b: real): real { if a < b then b else a }

  function Min(a: real, b: real): real { if a < b then a else b }

  function AbsInt(i: int): nat { if i < 0 then -i else i }

  function MaxInt(a: int, b: int): int { if a < b then b else a }

  function MinInt(a: int, b: int): int { if a < b then a else b }

  /** `clamp(v, lo, hi)`: `v` pulled into `[lo, hi]`. */
  function Clamp(v: real, lo: real, hi: real): (r: real)
    requires lo <= hi
    ensures lo <= r <= hi
    ensures lo <= v <= hi ==> r == v
    ensures v < lo ==> r == lo
    ensures hi < v ==> r == hi
  {
    if v < lo then lo else if hi < v then hi else v
  }

  /** Swift's `round`: the nearest integer, halves away from zero. */
  function Round(r: real): (n: int)
    ensures Abs(r - n as real) <= 0.5
    ensures Abs(r - n as real) == 0.5 ==> Abs(n as real) > Abs(r)
  {
    if r >= 0.0 then (r + 0.5).Floor else -((-r + 0.5).Floor)
  }

  lemma RoundOfInteger(n: int)
    ensures Round(n as real) == n
  {
  }

  lemma FloorBounds(r: real)
    ensures (r.Floor as real) <= r < (r.Floor as real) + 1.0
  {
  }

  lemma FloorMonotone(a: real, b: real)
    requires a <= b
    ensures a.Floor <= b.Floor
  {
    FloorBounds(a);
    FloorBounds(b);
  }

  /** An integer `k` with `k <= r < k + 1` is the floor of `r`. */
  lemma FloorUnique(r: real, k: int)
    requires k as real <= r < k as real + 1.0
    ensures r.Floor == k
  {
    FloorBounds(r);
  }

  /** Dividing by a positive number keeps the order. */
  lemma DivideMonotone(a: real, b: real, w: real)
    requires a <= b && w > 0.0
    ensures a / w <= b / w
  {
    assert (b / w - a / w) * w == b - a;
  }

  /** Dividing by a positive or a negative number, as an inequality on products. */
  lemma QuotientBound(a: real, d: real, t: real)
    requires d != 0.0
    ensures d > 0.0 ==> (a / d <= t <==> a <= t * d) && (t <= a / d <==> t * d <= a)
    ensures d < 0.0 ==> (a / d <= t <==> t * d <= a) && (t <= a / d <==> a <= t * d)
  {
    var q := a / d;
    assert q * d == a;
    assert (t - q) * d == t * d - a;
    if d > 0.0 {
      assert t - q >= 0.0 ==> (t - q) * d >= 0.0;
      assert t - q < 0.0 ==> (t - q) * d < 0.0;
    } else {
      assert t - q >= 0.0 ==> (t - q) * d <= 0.0;
      assert t - q < 0.0 ==> (t - q) * d > 0.0;
    }
  }
}
