/**
 * The greedy packers of Algoritmos.py: Next Fit, First Fit, Best Fit and the
 * two "decreasing" variants.  Each packer places the items one at a time; the
 * placement rules are the functions `NextFitIndex`, `FirstFitIndex` and
 * `BestFitIndex`, their common fold is `Pack`, and the methods are the loops of
 * the source proved equal to that fold.
 */
module Greedy {
  import opened Bins
  import opened Bounds

  /** The placement rule a greedy packer follows. */
  datatype Rule = Next | First | Best

  /** The test all three packers use before extending a bin: `sum(bin) + x <= cap`. */
  predicate Fits(cap: int, bin: seq<int>, x: int)
  {
    Sum(bin) + x <= cap
  }

  /** Every item is at most the capacity. */
  predicate ItemsFit(cap: int, items: seq<int>)
  {
    forall i :: 0 <= i < |items| ==> items[i] <= cap
  }

  /** Space left in a bin. */
  function Space(cap: int, bin: seq<int>): int
  {
    cap - Sum(bin)
  }

  /**
   * Best Fit's test `x <= space < least`, with `least` starting at `cap + 1`:
   * the bin has room for `x`, and its space is below `cap + 1`.
   */
  predicate Candidate(cap: int, bin: seq<int>, x: int)
  {
    x <= Space(cap, bin) < cap + 1
  }

  /** Next Fit looks only at the most recently opened bin. */
  function NextFitIndex(cap: int, bins: seq<seq<int>>, x: int): (j: nat)
    ensures j <= |bins|
    ensures j < |bins| ==> j == |bins| - 1 && Fits(cap, bins[j], x)
    ensures j == |bins| ==> bins == [] || !Fits(cap, bins[|bins| - 1], x)
  {
    if bins != [] && Fits(cap, bins[|bins| - 1], x) then |bins| - 1 else |bins|
  }

  /** First Fit: the lowest-indexed bin with room, or `|bins|` (a new bin) when none has room. */
  function FirstFitIndex(cap: int, bins: seq<seq<int>>, x: int): (j: nat)
    ensures j <= |bins|
    ensures j < |bins| ==> Fits(cap, bins[j], x)
    ensures forall k :: 0 <= k < j ==> !Fits(cap, bins[k], x)
  {
    if bins == [] then 0
    else if Fits(cap, bins[0], x) then 0
    else 1 + FirstFitIndex(cap, bins[1..], x)
  }

  /**
   * Best Fit: among the candidate bins, one with the least space; the earliest
   * of those on ties; `|bins|` (a new bin) when there is no candidate.
   */
  function BestFitIndex(cap: int, bins: seq<seq<int>>, x: int): (j: nat)
    ensures j <= |bins|
    ensures j < |bins| ==> Candidate(cap, bins[j], x)
    ensures j < |bins| ==> forall k :: 0 <= k < |bins| && Candidate(cap, bins[k], x) ==>
                             Space(cap, bins[j]) <= Space(cap, bins[k])
    ensures j < |bins| ==> forall k :: 0 <= k < j && Candidate(cap, bins[k], x) ==>
                             Space(cap, bins[j]) < Space(cap, bins[k])
    ensures j == |bins| ==> forall k :: 0 <= k < |bins| ==> !Candidate(cap, bins[k], x)
    decreases |bins|
  {
    if bins == [] then 0
    else
      var n := |bins| - 1;
      var j := BestFitIndex(cap, bins[..n], x);
      if Candidate(cap, bins[n], x) && (j == n || Space(cap, bins[n]) < Space(cap, bins[j])) then n
      else if j == n then |bins|
      else j
  }

  /** With non-negative bin totals, a Best Fit candidate is exactly a bin with room. */
  lemma {:induction false} CandidateIsFit(cap: int, bin: seq<int>, x: int)
    requires Sum(bin) >= 0
    ensures Candidate(cap, bin, x) <==> Fits(cap, bin, x)
  {
  }

  /** The bin that `rule` puts `x` into; `|bins|` stands for a new bin. */
  function Choose(rule: Rule, cap: int, bins: seq<seq<int>>, x: int): (j: nat)
    ensures j <= |bins|
    ensures j < |bins| ==> Fits(cap, bins[j], x)
  {
    match rule
    case Next => NextFitIndex(cap, bins, x)
    case First => FirstFitIndex(cap, bins, x)
    case Best => BestFitIndex(cap, bins, x)
  }

  /** The packing that `rule` builds by placing the items in order. */
  function Pack(rule: Rule, cap: int, items: seq<int>): seq<seq<int>>
    decreases |items|
  {
    if items == [] then []
    else
      var bins := Pack(rule, cap, items[..|items| - 1]);
      var x := items[|items| - 1];
      Place(bins, Choose(rule, cap, bins, x), x)
  }

  /** Every greedy packing partitions the items. */
  lemma {:induction false} PackPartitions(rule: Rule, cap: int, items: seq<int>)
    ensures multiset(Flatten(Pack(rule, cap, items))) == multiset(items)
    decreases |items|
  {
    if items != [] {
      var pre := items[..|items| - 1];
      var x := items[|items| - 1];
      var bins := Pack(rule, cap, pre);
      PackPartitions(rule, cap, pre);
      PlaceContents(bins, Choose(rule, cap, bins, x), x);
      assert items == pre + [x];
    }
  }

  /** Greedy bins are never empty, so there are at most as many bins as items. */
  lemma {:induction false} PackShape(rule: Rule, cap: int, items: seq<int>)
    ensures |Pack(rule, cap, items)| <= |items|
    ensures forall j :: 0 <= j < |Pack(rule, cap, items)| ==> Pack(rule, cap, items)[j] != []
    decreases |items|
  {
    if items != [] {
      var pre := items[..|items| - 1];
      PackShape(rule, cap, pre);
    }
  }

  /** When every item fits on its own, every greedy bin respects the capacity. */
  lemma {:induction false} PackWithinCapacity(rule: Rule, cap: int, items: seq<int>)
    requires ItemsFit(cap, items)
    ensures WithinCapacity(cap, Pack(rule, cap, items))
    decreases |items|
  {
    if items != [] {
      var pre := items[..|items| - 1];
      var x := items[|items| - 1];
      var bins := Pack(rule, cap, pre);
      assert ItemsFit(cap, pre);
      PackWithinCapacity(rule, cap, pre);
      PlaceWithin(cap, bins, Choose(rule, cap, bins, x), x);
    }
  }

  /** All the facts that the three packers share. */
  lemma {:induction false} PackIsPacking(rule: Rule, cap: int, items: seq<int>)
    ensures multiset(Flatten(Pack(rule, cap, items))) == multiset(items)
    ensures |Pack(rule, cap, items)| <= |items|
    ensures ItemsFit(cap, items) ==> WithinCapacity(cap, Pack(rule, cap, items))
    ensures cap > 0 && ItemsFit(cap, items) ==> |Pack(rule, cap, items)| >= TheoreticalMinimum(cap, items)
  {
    PackPartitions(rule, cap, items);
    PackShape(rule, cap, items);
    if ItemsFit(cap, items) {
      PackWithinCapacity(rule, cap, items);
      if cap > 0 {
        PackAtLeastMinimum(rule, cap, items);
      }
    }
  }

  /** Next Fit keeps the input order: its bins concatenate back to the input. */
  lemma {:induction false} NextFitKeepsOrder(cap: int, items: seq<int>)
    ensures Flatten(Pack(Next, cap, items)) == items
    decreases |items|
  {
    if items != [] {
      var pre := items[..|items| - 1];
      var x := items[|items| - 1];
      var bins := Pack(Next, cap, pre);
      NextFitKeepsOrder(cap, pre);
      assert items == pre + [x];
      var j := NextFitIndex(cap, bins, x);
      if j < |bins| {
        var last := bins[j];
        assert bins == bins[..j] + [last];
        assert Place(bins, j, x) == bins[..j] + [last + [x]];
        FlattenAppend(bins[..j], last);
        FlattenAppend(bins[..j], last + [x]);
      } else {
        FlattenAppend(bins, [x]);
      }
    }
  }

  /** A greedy packing never beats the theoretical minimum. */
  lemma {:induction false} PackAtLeastMinimum(rule: Rule, cap: int, items: seq<int>)
    requires cap > 0 && ItemsFit(cap, items)
    ensures |Pack(rule, cap, items)| >= TheoreticalMinimum(cap, items)
  {
    PackPartitions(rule, cap, items);
    PackWithinCapacity(rule, cap, items);
    MinimumIsLowerBound(cap, items, Pack(rule, cap, items));
  }

  /** `next_fit`: extend the last bin while the item fits, otherwise open a new bin. */
  method NextFit(cap: int, items: seq<int>) returns (count: nat, bins: seq<seq<int>>)
    ensures bins == Pack(Next, cap, items)
    ensures count == |bins|
    ensures Flatten(bins) == items
    ensures ItemsFit(cap, items) ==> WithinCapacity(cap, bins)
    ensures cap > 0 && ItemsFit(cap, items) ==> count >= TheoreticalMinimum(cap, items)
    ensures items == [] ==> count == 0 && bins == []
  {
    if |items| == 0 {
      return 0, [];
    }
    bins := [[items[0]]];
    assert items[..1][..0] == [];
    var i := 1;
    while i < |items|
      invariant 1 <= i <= |items|
      invariant bins == Pack(Next, cap, items[..i])
      invariant |bins| >= 1
    {
      var x := items[i];
      TakeTake(items, i, i + 1);
      if Sum(bins[|bins| - 1]) + x <= cap {
        bins := bins[|bins| - 1 := bins[|bins| - 1] + [x]];
      } else {
        bins := bins + [[x]];
      }
      i := i + 1;
    }
    assert items[..i] == items;
    count := |bins|;
    NextFitKeepsOrder(cap, items);
    PackIsPacking(Next, cap, items);
  }

  /** `first_fit`: put each item into the first bin with room, else open a new bin. */
  method FirstFit(cap: int, items: seq<int>) returns (count: nat, bins: seq<seq<int>>)
    ensures bins == Pack(First, cap, items)
    ensures count == |bins|
    ensures multiset(Flatten(bins)) == multiset(items)
    ensures ItemsFit(cap, items) ==> WithinCapacity(cap, bins)
    ensures cap > 0 && ItemsFit(cap, items) ==> count >= TheoreticalMinimum(cap, items)
    ensures items == [] ==> count == 0 && bins == []
  {
    if |items| == 0 {
      return 0, [];
    }
    bins := [];
    for i := 0 to |items|
      invariant bins == Pack(First, cap, items[..i])
    {
      var x := items[i];
      TakeTake(items, i, i + 1);
      ghost var before := bins;
      var placed := false;
      var k := 0;
      while k < |bins|
        invariant 0 <= k <= |bins|
        invariant !placed && bins == before
        invariant forall m :: 0 <= m < k ==> !Fits(cap, before[m], x)
      {
        if Sum(bins[k]) + x <= cap {
          bins := bins[k := bins[k] + [x]];
          placed := true;
          break;
        }
        k := k + 1;
      }
      if !placed {
        bins := bins + [[x]];
      }
      assert k == FirstFitIndex(cap, before, x);
    }
    assert items[..|items|] == items;
    count := |bins|;
    PackIsPacking(First, cap, items);
  }

  /** `best_fit`: put each item into the candidate bin with the least space left, else open a new bin. */
  method BestFit(cap: int, items: seq<int>) returns (count: nat, bins: seq<seq<int>>)
    ensures bins == Pack(Best, cap, items)
    ensures count == |bins|
    ensures multiset(Flatten(bins)) == multiset(items)
    ensures ItemsFit(cap, items) ==> WithinCapacity(cap, bins)
    ensures cap > 0 && ItemsFit(cap, items) ==> count >= TheoreticalMinimum(cap, items)
    ensures items == [] ==> count == 0 && bins == []
  {
    if |items| == 0 {
      return 0, [];
    }
    bins := [];
    for i := 0 to |items|
      invariant bins == Pack(Best, cap, items[..i])
    {
      var x := items[i];
      TakeTake(items, i, i + 1);
      var bestBin := TightestBin(cap, bins, x);
      if bestBin != -1 {
        bins := bins[bestBin := bins[bestBin] + [x]];
      } else {
        bins := bins + [[x]];
      }
    }
    assert items[..|items|] == items;
    count := |bins|;
    PackIsPacking(Best, cap, items);
  }

  /**
   * The scan inside `best_fit`: the index chosen by `BestFitIndex`, or -1 when
   * no bin is a candidate.
   */
  method TightestBin(cap: int, bins: seq<seq<int>>, x: int) returns (bestBin: int)
    ensures bestBin == -1 <==> BestFitIndex(cap, bins, x) == |bins|
    ensures bestBin != -1 ==> bestBin == BestFitIndex(cap, bins, x)
  {
    bestBin := -1;
    var leastSpace := cap + 1;
    for k := 0 to |bins|
      invariant bestBin == -1 <==> BestFitIndex(cap, bins[..k], x) == k
      invariant bestBin == -1 ==> leastSpace == cap + 1
      invariant bestBin != -1 ==> 0 <= bestBin < k && bestBin == BestFitIndex(cap, bins[..k], x)
      invariant bestBin != -1 ==> leastSpace == Space(cap, bins[bestBin]) && Candidate(cap, bins[bestBin], x)
    {
      TakeTake(bins, k, k + 1);
      var space := cap - Sum(bins[k]);
      if x <= space < leastSpace {
        bestBin := k;
        leastSpace := space;
      }
    }
    assert bins[..|bins|] == bins;
  }

  predicate NonIncreasing(s: seq<int>)
  {
    forall i, j :: 0 <= i < j < |s| ==> s[i] >= s[j]
  }

  /** Insert `x` into a non-increasing list, keeping it non-increasing. */
  function Insert(x: int, s: seq<int>): (r: seq<int>)
    requires NonIncreasing(s)
    ensures NonIncreasing(r)
    ensures multiset(r) == multiset(s) + multiset{x}
    ensures r[0] == x || (s != [] && r[0] == s[0])
  {
    if s == [] || x >= s[0] then
      ConsNonIncreasing(x, s);
      [x] + s
    else
      TailMultiset(s);
      var r := Insert(x, s[1..]);
      ConsNonIncreasing(s[0], r);
      assert s == [s[0]] + s[1..];
      [s[0]] + r
  }

  /** Putting an element at least the head in front keeps a list non-increasing. */
  lemma {:induction false} ConsNonIncreasing(h: int, t: seq<int>)
    requires NonIncreasing(t) && (t == [] || h >= t[0])
    ensures NonIncreasing([h] + t)
  {
    var r := [h] + t;
    forall i, j | 0 <= i < j < |r| ensures r[i] >= r[j] {
      if i > 0 {
        assert r[i] == t[i - 1] && r[j] == t[j - 1];
      } else {
        assert r[j] == t[j - 1] && t[0] >= t[j - 1];
      }
    }
  }

  /** `sorted(items, reverse=True)`: the items rearranged into non-increasing order. */
  function SortDescending(s: seq<int>): (r: seq<int>)
    ensures NonIncreasing(r)
    ensures multiset(r) == multiset(s)
  {
    if s == [] then []
    else
      assert s == [s[0]] + s[1..];
      Insert(s[0], SortDescending(s[1..]))
  }

  /** A non-increasing rearrangement is unique, so `SortDescending` is the one `sorted` returns. */
  lemma {:induction false} SortedPermutationUnique(a: seq<int>, b: seq<int>)
    requires NonIncreasing(a) && NonIncreasing(b)
    requires multiset(a) == multiset(b)
    ensures a == b
    decreases |a|
  {
    assert |a| == |multiset(a)| == |multiset(b)| == |b|;
    if a != [] {
      HeadIsGreatest(a, b[0]);
      HeadIsGreatest(b, a[0]);
      TailMultiset(a);
      TailMultiset(b);
      SortedPermutationUnique(a[1..], b[1..]);
      SameHeadSameTail(a, b);
    }
  }

  /** Lists with the same head and the same tail are equal. */
  lemma {:induction false} SameHeadSameTail(a: seq<int>, b: seq<int>)
    requires a != [] && b != [] && a[0] == b[0] && a[1..] == b[1..]
    ensures a == b
  {
    assert a == [a[0]] + a[1..];
    assert b == [b[0]] + b[1..];
  }

  /** The head of a non-increasing list is at least each of its elements. */
  lemma {:induction false} HeadIsGreatest(a: seq<int>, x: int)
    requires NonIncreasing(a) && x in multiset(a)
    ensures a[0] >= x
  {
    var i :| 0 <= i < |a| && a[i] == x;
  }

  /** Dropping the head removes one copy of it, and keeps the list non-increasing. */
  lemma {:induction false} TailMultiset(a: seq<int>)
    requires NonIncreasing(a) && a != []
    ensures multiset(a[1..]) == multiset(a) - multiset{a[0]}
    ensures NonIncreasing(a[1..])
  {
    assert a == [a[0]] + a[1..];
  }

  /** `first_fit_decreasing`: First Fit on the items sorted non-increasing. */
  method FirstFitDecreasing(cap: int, items: seq<int>) returns (count: nat, bins: seq<seq<int>>)
    ensures bins == Pack(First, cap, SortDescending(items))
    ensures count == |bins|
    ensures multiset(Flatten(bins)) == multiset(items)
    ensures ItemsFit(cap, items) ==> WithinCapacity(cap, bins)
    ensures cap > 0 && ItemsFit(cap, items) ==> count >= TheoreticalMinimum(cap, items)
    ensures items == [] ==> count == 0 && bins == []
  {
    var sorted := SortDescending(items);
    SortedKeepsFacts(cap, items, sorted);
    count, bins := FirstFit(cap, sorted);
  }

  /** `best_fit_decreasing`: Best Fit on the items sorted non-increasing. */
  method BestFitDecreasing(cap: int, items: seq<int>) returns (count: nat, bins: seq<seq<int>>)
    ensures bins == Pack(Best, cap, SortDescending(items))
    ensures count == |bins|
    ensures multiset(Flatten(bins)) == multiset(items)
    ensures ItemsFit(cap, items) ==> WithinCapacity(cap, bins)
    ensures cap > 0 && ItemsFit(cap, items) ==> count >= TheoreticalMinimum(cap, items)
    ensures items == [] ==> count == 0 && bins == []
  {
    var sorted := SortDescending(items);
    SortedKeepsFacts(cap, items, sorted);
    count, bins := BestFit(cap, sorted);
  }

  /** Rearranging the items changes neither the minimum nor whether every item fits. */
  lemma {:induction false} SortedKeepsFacts(cap: int, items: seq<int>, sorted: seq<int>)
    requires multiset(sorted) == multiset(items)
    ensures ItemsFit(cap, sorted) <==> ItemsFit(cap, items)
    ensures cap > 0 ==> TheoreticalMinimum(cap, sorted) == TheoreticalMinimum(cap, items)
    ensures items == [] <==> sorted == []
  {
    SumOfPermutation(sorted, items);
    forall i | 0 <= i < |items| ensures items[i] in multiset(sorted) {
      assert items[i] in multiset(items);
    }
    forall i | 0 <= i < |sorted| ensures sorted[i] in multiset(items) {
      assert sorted[i] in multiset(sorted);
    }
    assert |items| == |multiset(items)| == |multiset(sorted)| == |sorted|;
  }
}
