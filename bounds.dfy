/** The theoretical minimum bin count (`minimo_teorico`). */
module Bounds {
  import opened Bins

  /** Integer ceiling of `a / d`: the least `q` with `q * d >= a`. */
  function CeilDiv(a: int, d: int): (q: int)
    requires d > 0
    ensures q * d >= a
    ensures (q - 1) * d < a
  {
    var q := (a + d - 1) / d;
    var r := (a + d - 1) % d;
    assert a + d - 1 == q * d + r && 0 <= r < d;
    assert (q - 1) * d == q * d - d;
    q
  }

  /** No integer below `CeilDiv(a, d)` reaches `a` when multiplied by `d`. */
  lemma {:induction false} CeilDivIsLeast(a: int, d: int, k: int)
    requires d > 0 && k * d >= a
    ensures k >= CeilDiv(a, d)
  {
    var q := CeilDiv(a, d);
    assert (k - (q - 1)) * d == k * d - (q - 1) * d;
    PositiveFactor(k - (q - 1), d);
  }

  /** A positive product with a positive factor has a positive cofactor. */
  lemma {:induction false} PositiveFactor(x: int, d: int)
    requires d > 0 && x * d > 0
    ensures x > 0
  {
  }

  /** `ceil(sum(items) / cap)`, computed exactly on integers. */
  function TheoreticalMinimum(cap: int, items: seq<int>): (k: int)
    requires cap > 0
    ensures k * cap >= Sum(items)
    ensures forall m :: m * cap >= Sum(items) ==> m >= k
  {
    var k := CeilDiv(Sum(items), cap);
    forall m | m * cap >= Sum(items) ensures m >= k {
      CeilDivIsLeast(Sum(items), cap, m);
    }
    k
  }

  /** No packing of `items` into bins of size `cap` uses fewer bins than the minimum. */
  lemma {:induction false} MinimumIsLowerBound(cap: int, items: seq<int>, bins: seq<seq<int>>)
    requires cap > 0 && IsPacking(cap, items, bins)
    ensures |bins| >= TheoreticalMinimum(cap, items)
  {
    SumOfPermutation(Flatten(bins), items);
    CapacityBoundsTotal(cap, bins);
  }
}
