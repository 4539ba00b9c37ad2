/**
 * Bins and packings shared by every solver: a bin is a list of item sizes,
 * a packing is a list of bins.
 */
module Bins {

  /** Python's `sum` over a list of integers. */
  function Sum(s: seq<int>): int
  {
    if s == [] then 0 else s[0] + Sum(s[1..])
  }

  /** A prefix one longer is the shorter prefix and the element after it. */
  lemma TakeSnoc<T>(s: seq<T>, k: nat)
    requires k < |s|
    ensures s[..k + 1] == s[..k] + [s[k]]
  {
  }

  /** Dropping the last element undoes appending it. */
  lemma DropSnoc<T>(s: seq<T>, x: T)
    ensures (s + [x])[..|s|] == s
  {
  }

  /** A prefix of a prefix is a prefix. */
  lemma TakeTake<T>(s: seq<T>, i: nat, j: nat)
    requires i <= j <= |s|
    ensures s[..j][..i] == s[..i]
  {
  }

  /** All bins concatenated in bin order. */
  function Flatten(bins: seq<seq<int>>): seq<int>
  {
    if bins == [] then [] else bins[0] + Flatten(bins[1..])
  }

  /** Every bin's total is at most `cap`. */
  predicate WithinCapacity(cap: int, bins: seq<seq<int>>)
  {
    forall j :: 0 <= j < |bins| ==> Sum(bins[j]) <= cap
  }

  /** `bins` partitions `items` (as a multiset) and no bin exceeds `cap`. */
  predicate IsPacking(cap: int, items: seq<int>, bins: seq<seq<int>>)
  {
    multiset(Flatten(bins)) == multiset(items) && WithinCapacity(cap, bins)
  }

  /** Every item lies in [0, cap]: the instances the exact solver is meant for. */
  predicate Packable(cap: int, items: seq<int>)
  {
    cap > 0 && forall i :: 0 <= i < |items| ==> 0 <= items[i] <= cap
  }

  /**
   * Append `x` to bin `j`, or open a new bin `[x]` when `j == |bins|`:
   * the one placement step every solver takes.
   */
  function Place(bins: seq<seq<int>>, j: nat, x: int): seq<seq<int>>
    requires j <= |bins|
  {
    if j < |bins| then bins[j := bins[j] + [x]] else bins + [[x]]
  }

  lemma {:induction false} SumConcat(s: seq<int>, t: seq<int>)
    ensures Sum(s + t) == Sum(s) + Sum(t)
  {
    if s == [] {
      assert s + t == t;
    } else {
      assert (s + t)[1..] == s[1..] + t;
      SumConcat(s[1..], t);
    }
  }

  /** Removing position `j` from `t` removes one copy of `t[j]`, in content and in sum. */
  lemma {:induction false} RemoveAt(t: seq<int>, j: nat)
    requires j < |t|
    ensures multiset(t[..j] + t[j + 1..]) == multiset(t) - multiset{t[j]}
    ensures Sum(t) == t[j] + Sum(t[..j] + t[j + 1..])
  {
    assert t == t[..j] + [t[j]] + t[j + 1..];
    assert multiset(t) == multiset(t[..j]) + multiset{t[j]} + multiset(t[j + 1..]);
    SumConcat(t[..j] + [t[j]], t[j + 1..]);
    SumConcat(t[..j], [t[j]]);
    SumConcat(t[..j], t[j + 1..]);
  }

  /** Sums agree on any two orderings of the same multiset of sizes. */
  lemma {:induction false} SumOfPermutation(s: seq<int>, t: seq<int>)
    requires multiset(s) == multiset(t)
    ensures Sum(s) == Sum(t)
    decreases |s|
  {
    if s == [] {
      assert |t| == |multiset(t)| == 0;
    } else {
      var x := s[0];
      assert x in multiset(t) by { assert x in multiset(s); }
      var j :| 0 <= j < |t| && t[j] == x;
      RemoveAt(t, j);
      assert s == [x] + s[1..];
      assert multiset(s[1..]) == multiset(s) - multiset{x};
      SumOfPermutation(s[1..], t[..j] + t[j + 1..]);
    }
  }

  lemma {:induction false} FlattenAppend(bins: seq<seq<int>>, b: seq<int>)
    ensures Flatten(bins + [b]) == Flatten(bins) + b
  {
    if bins == [] {
      assert [] + [b] == [b];
      assert Flatten([b]) == b + Flatten([]);
    } else {
      assert (bins + [b])[1..] == bins[1..] + [b];
      FlattenAppend(bins[1..], b);
    }
  }

  lemma {:induction false} FlattenSplit(bins: seq<seq<int>>, j: nat)
    requires j < |bins|
    ensures Flatten(bins) == Flatten(bins[..j]) + bins[j] + Flatten(bins[j + 1..])
  {
    if j == 0 {
      assert bins[..0] == [];
      assert bins[1..] == bins[j + 1..];
    } else {
      FlattenSplit(bins[1..], j - 1);
      assert bins[1..][..j - 1] == bins[1..j];
      assert bins[1..][j - 1 + 1..] == bins[j + 1..];
      assert bins[..j][1..] == bins[1..j];
      assert bins[..j] != [] && bins[..j][0] == bins[0];
    }
  }

  /** Cancelling a shared part of two multiset sums, one element at a time. */
  lemma {:induction false} MultisetCancel(a: multiset<int>, b: multiset<int>, s: multiset<int>, m: multiset<int>, x: int)
    requires a + m == b + s && m == s + multiset{x}
    ensures a == b - multiset{x}
  {
    forall e ensures (a + multiset{x})[e] == b[e] {
      assert (a + m)[e] == (b + s)[e];
    }
    assert a + multiset{x} == b;
  }

  /** Replacing bin `j` by `b` swaps its contents in the packed items. */
  lemma {:induction false} FlattenReplace(p: seq<seq<int>>, j: nat, b: seq<int>)
    requires j < |p|
    ensures multiset(Flatten(p[j := b])) + multiset(p[j]) == multiset(Flatten(p)) + multiset(b)
  {
    FlattenSplit(p, j);
    FlattenSplit(p[j := b], j);
    assert p[j := b][..j] == p[..j];
    assert p[j := b][j + 1..] == p[j + 1..];
  }

  /** Placing `x` adds exactly `x` to the packed items, wherever it goes. */
  lemma {:induction false} PlaceContents(bins: seq<seq<int>>, j: nat, x: int)
    requires j <= |bins|
    ensures multiset(Flatten(Place(bins, j, x))) == multiset(Flatten(bins)) + multiset{x}
    ensures Sum(Flatten(Place(bins, j, x))) == Sum(Flatten(bins)) + x
  {
    if j < |bins| {
      var after := Place(bins, j, x);
      FlattenSplit(bins, j);
      FlattenSplit(after, j);
      assert after[..j] == bins[..j];
      assert after[j + 1..] == bins[j + 1..];
      SumConcat(Flatten(bins[..j]) + bins[j], Flatten(bins[j + 1..]));
      SumConcat(Flatten(bins[..j]), bins[j]);
      SumConcat(Flatten(bins[..j]) + (bins[j] + [x]), Flatten(bins[j + 1..]));
      SumConcat(Flatten(bins[..j]), bins[j] + [x]);
      SumConcat(bins[j], [x]);
      assert Flatten(bins[..j]) + (bins[j] + [x]) == Flatten(bins[..j]) + bins[j] + [x];
    } else {
      FlattenAppend(bins, [x]);
      SumConcat(Flatten(bins), [x]);
    }
  }

  /** With a non-negative item, placing never shrinks a bin's total nor drops a bin. */
  lemma {:induction false} PlaceGrows(bins: seq<seq<int>>, j: nat, x: int)
    requires j <= |bins| && x >= 0
    ensures |bins| <= |Place(bins, j, x)| <= |bins| + 1
    ensures forall k :: 0 <= k < |bins| ==> Sum(bins[k]) <= Sum(Place(bins, j, x)[k])
  {
    if j < |bins| {
      SumConcat(bins[j], [x]);
    }
  }

  lemma MulSucc(n: int, c: int)
    ensures (n + 1) * c == n * c + c
  {
  }

  /** Placing an item into a bin it fits in, or alone into a new bin, keeps the capacity. */
  lemma {:induction false} PlaceWithin(cap: int, bins: seq<seq<int>>, j: nat, x: int)
    requires WithinCapacity(cap, bins) && j <= |bins|
    requires j < |bins| ==> Sum(bins[j]) + x <= cap
    requires j == |bins| ==> x <= cap
    ensures WithinCapacity(cap, Place(bins, j, x))
  {
    if j < |bins| {
      SumConcat(bins[j], [x]);
    } else {
      assert Sum([x]) == x;
    }
  }

  /** A packing within capacity holds at most `|bins| * cap` in total. */
  lemma {:induction false} CapacityBoundsTotal(cap: int, bins: seq<seq<int>>)
    requires WithinCapacity(cap, bins)
    ensures Sum(Flatten(bins)) <= |bins| * cap
  {
    if bins != [] {
      assert WithinCapacity(cap, bins[1..]) by {
        forall j | 0 <= j < |bins[1..]| ensures Sum(bins[1..][j]) <= cap {
          assert bins[1..][j] == bins[j + 1];
        }
      }
      CapacityBoundsTotal(cap, bins[1..]);
      SumConcat(bins[0], Flatten(bins[1..]));
      assert Sum(bins[0]) <= cap;
      MulSucc(|bins| - 1, cap);
    }
  }
}
