/**
 * Assignment vectors: one bin label per item, equal labels meaning "same bin".
 * `Decode` turns a vector into bins numbered 0..k-1 in the order in which
 * their labels first appear; it specifies `decodificar_bins` and is also the
 * yardstick against which the exact solver is proved optimal.
 */
module Assignment {
  import opened Bins

  predicate Distinct<T(==)>(s: seq<T>)
  {
    forall i, j :: 0 <= i < j < |s| ==> s[i] != s[j]
  }

  /** The distinct labels of `a`, in order of first appearance (`orden_ids`). */
  function FirstAppearance(a: seq<int>): (order: seq<int>)
    ensures forall x :: x in order <==> x in a
    ensures |order| <= |a|
    decreases |a|
  {
    if a == [] then []
    else
      var n := |a| - 1;
      assert a == a[..n] + [a[n]];
      var o := FirstAppearance(a[..n]);
      if a[n] in o then o else o + [a[n]]
  }

  /** No label appears twice in the order of first appearance. */
  lemma {:induction false} FirstAppearanceDistinct(a: seq<int>)
    ensures Distinct(FirstAppearance(a))
    decreases |a|
  {
    if a != [] {
      var n := |a| - 1;
      assert a == a[..n] + [a[n]];
      FirstAppearanceDistinct(a[..n]);
    }
  }

  /** One more label either was met already or joins the end of the order. */
  lemma {:induction false} FirstAppearanceSnoc(a: seq<int>, i: nat)
    requires i < |a|
    ensures FirstAppearance(a[..i + 1]) ==
              if a[i] in FirstAppearance(a[..i]) then FirstAppearance(a[..i])
              else FirstAppearance(a[..i]) + [a[i]]
  {
    TakeTake(a, i, i + 1);
    assert a[..i + 1][i] == a[i];
  }

  /** The set of labels used, as Python's `set(solution)`. */
  function Labels(a: seq<int>): set<int>
  {
    set x | x in a
  }

  /** Position of `x` in `s` (the first one). */
  function IndexOf(s: seq<int>, x: int): (i: nat)
    requires x in s
    ensures i < |s| && s[i] == x
    ensures forall k :: 0 <= k < i ==> s[k] != x
  {
    if s[0] == x then 0 else 1 + IndexOf(s[1..], x)
  }

  /** The bin a label goes to, given the labels met so far; `|order|` for a new one. */
  function Slot(order: seq<int>, x: int): (j: nat)
    ensures j <= |order|
    ensures j < |order| <==> x in order
  {
    if x in order then IndexOf(order, x) else |order|
  }

  /**
   * The bins described by `a`: item `i` goes to the bin of label `a[i]`; bins
   * are numbered in order of first appearance of their labels.
   */
  function Decode(a: seq<int>, items: seq<int>): (bins: seq<seq<int>>)
    requires |a| <= |items|
    ensures |bins| == |FirstAppearance(a)|
    decreases |a|
  {
    if a == [] then []
    else
      var n := |a| - 1;
      Place(Decode(a[..n], items), Slot(FirstAppearance(a[..n]), a[n]), items[n])
  }

  /** One more label places its item into its bin, or into a new one. */
  lemma {:induction false} DecodeSnoc(a: seq<int>, items: seq<int>, i: nat)
    requires i < |a| <= |items|
    ensures Decode(a[..i + 1], items) ==
              Place(Decode(a[..i], items), Slot(FirstAppearance(a[..i]), a[i]), items[i])
  {
    TakeTake(a, i, i + 1);
    assert a[..i + 1][i] == a[i];
  }

  /** The bin item `i` ends up in: the position of its label among the first appearances. */
  function BinOf(a: seq<int>, i: nat): nat
    requires i < |a|
  {
    IndexOf(FirstAppearance(a), a[i])
  }

  /** The items (in index order) whose label in `a` is `b`. */
  function Filter(a: seq<int>, items: seq<int>, b: int): seq<int>
    requires |a| <= |items|
    decreases |a|
  {
    if a == [] then []
    else
      var n := |a| - 1;
      Filter(a[..n], items, b) + (if a[n] == b then [items[n]] else [])
  }

  lemma {:induction false} FilterAbsent(a: seq<int>, items: seq<int>, b: int)
    requires |a| <= |items| && b !in a
    ensures Filter(a, items, b) == []
    decreases |a|
  {
    if a != [] {
      var n := |a| - 1;
      assert a[n] != b;
      assert b !in a[..n];
      FilterAbsent(a[..n], items, b);
    }
  }

  /** Labels met in a prefix of `a` come first in `FirstAppearance(a)`, in the same order. */
  lemma {:induction false} FirstAppearancePrefix(a: seq<int>, i: nat)
    requires i <= |a|
    ensures FirstAppearance(a[..i]) <= FirstAppearance(a)
    decreases |a| - i
  {
    if i < |a| {
      var n := |a| - 1;
      TakeTake(a, i, n);
      FirstAppearancePrefix(a[..n], i);
      assert FirstAppearance(a[..n]) <= FirstAppearance(a);
    } else {
      assert a[..i] == a;
    }
  }

  /** The slot of item `i` computed on the prefix equals its label's final position. */
  lemma {:induction false} SlotIsFinalIndex(a: seq<int>, i: nat)
    requires i < |a|
    ensures a[i] in FirstAppearance(a)
    ensures Slot(FirstAppearance(a[..i]), a[i]) == IndexOf(FirstAppearance(a), a[i])
  {
    var o := FirstAppearance(a[..i]);
    var o' := FirstAppearance(a[..i + 1]);
    var full := FirstAppearance(a);
    assert a[..i + 1][..i] == a[..i];
    assert a[..i + 1][i] == a[i];
    FirstAppearancePrefix(a, i + 1);
    assert a[i] in o';
    var s := Slot(o, a[i]);
    assert s < |o'| && o'[s] == a[i];
    assert full[s] == a[i];
    var k := IndexOf(full, a[i]);
    assert k == s by {
      FirstAppearanceDistinct(a);
      assert full[k] == a[i];
    }
  }

  /**
   * Bin `j` of the decoding holds exactly the items labelled with the `j`-th
   * label to appear, in index order.
   */
  lemma {:induction false} BinsByLabel(a: seq<int>, items: seq<int>)
    requires |a| <= |items|
    ensures forall j :: 0 <= j < |Decode(a, items)| ==>
              Decode(a, items)[j] == Filter(a, items, FirstAppearance(a)[j])
    decreases |a|
  {
    if a != [] {
      var n := |a| - 1;
      var pre := a[..n];
      var o := FirstAppearance(pre);
      var bins := Decode(pre, items);
      BinsByLabel(pre, items);
      FirstAppearanceDistinct(pre);
      var s := Slot(o, a[n]);
      var l := a[n];
      forall j | 0 <= j < |Decode(a, items)|
        ensures Decode(a, items)[j] == Filter(a, items, FirstAppearance(a)[j])
      {
        if j < |o| {
          assert FirstAppearance(a)[j] == o[j];
          assert Filter(a, items, o[j]) == Filter(pre, items, o[j]) + (if l == o[j] then [items[n]] else []);
        } else {
          assert j == |o| && s == |o| && l !in o;
          assert l !in pre;
          FilterAbsent(pre, items, l);
          assert FirstAppearance(a)[j] == l;
        }
      }
    }
  }

  /** Decoding loses and invents no item: the bins hold the labelled items, with their total. */
  lemma {:induction false} DecodePartitions(a: seq<int>, items: seq<int>)
    requires |a| <= |items|
    ensures multiset(Flatten(Decode(a, items))) == multiset(items[..|a|])
    ensures Sum(Flatten(Decode(a, items))) == Sum(items[..|a|])
  {
    DecodeMultiset(a, items);
    DecodeSum(a, items);
  }

  lemma {:induction false} DecodeMultiset(a: seq<int>, items: seq<int>)
    requires |a| <= |items|
    ensures multiset(Flatten(Decode(a, items))) == multiset(items[..|a|])
    decreases |a|
  {
    if a == [] {
      assert items[..0] == [];
    } else {
      var n := |a| - 1;
      var bins := Decode(a[..n], items);
      DecodeMultiset(a[..n], items);
      PlaceContents(bins, Slot(FirstAppearance(a[..n]), a[n]), items[n]);
      TakeSnoc(items, n);
    }
  }

  lemma {:induction false} DecodeSum(a: seq<int>, items: seq<int>)
    requires |a| <= |items|
    ensures Sum(Flatten(Decode(a, items))) == Sum(items[..|a|])
    decreases |a|
  {
    if a == [] {
      assert items[..0] == [];
    } else {
      var n := |a| - 1;
      var bins := Decode(a[..n], items);
      DecodeSum(a[..n], items);
      PlaceContents(bins, Slot(FirstAppearance(a[..n]), a[n]), items[n]);
      TakeSnoc(items, n);
      SumConcat(items[..n], [items[n]]);
    }
  }

  /** A distinct list has as many elements as its set of labels. */
  lemma {:induction false} DistinctCard(s: seq<int>)
    requires Distinct(s)
    ensures |Labels(s)| == |s|
    decreases |s|
  {
    if s != [] {
      var n := |s| - 1;
      assert s == s[..n] + [s[n]];
      assert Distinct(s[..n]);
      DistinctCard(s[..n]);
      assert Labels(s) == Labels(s[..n]) + {s[n]};
      assert s[n] !in s[..n];
    }
  }

  /** `len(set(a))` is the number of bins `a` decodes to. */
  lemma {:induction false} LabelCount(a: seq<int>, items: seq<int>)
    requires |a| <= |items|
    ensures |Labels(a)| == |FirstAppearance(a)| == |Decode(a, items)|
  {
    var o := FirstAppearance(a);
    FirstAppearanceDistinct(a);
    DistinctCard(o);
    assert Labels(a) == Labels(o);
  }

  /** Every item size is non-negative. */
  predicate NonNegative(items: seq<int>)
  {
    forall i :: 0 <= i < |items| ==> items[i] >= 0
  }

  /** Non-negative sizes have a non-negative total. */
  lemma {:induction false} SumNonNegative(items: seq<int>)
    requires NonNegative(items)
    ensures Sum(items) >= 0
    decreases |items|
  {
    if items != [] {
      assert NonNegative(items[1..]) by {
        forall i | 0 <= i < |items[1..]| ensures items[1..][i] >= 0 {
          assert items[1..][i] == items[i + 1];
        }
      }
      SumNonNegative(items[1..]);
    }
  }

  /**
   * Decoding a longer prefix keeps every bin of the shorter one, each with at
   * least its old total (items are non-negative).
   */
  lemma {:induction false} DecodePrefixGrows(a: seq<int>, items: seq<int>, i: nat)
    requires i <= |a| <= |items| && NonNegative(items)
    ensures |Decode(a[..i], items)| <= |Decode(a, items)|
    ensures forall j :: 0 <= j < |Decode(a[..i], items)| ==>
              Sum(Decode(a[..i], items)[j]) <= Sum(Decode(a, items)[j])
    decreases |a| - i
  {
    if i == |a| {
      assert a[..i] == a;
    } else {
      var n := |a| - 1;
      var bins := Decode(a[..n], items);
      var s := Slot(FirstAppearance(a[..n]), a[n]);
      assert Decode(a, items) == Place(bins, s, items[n]);
      TakeTake(a, i, n);
      DecodePrefixGrows(a[..n], items, i);
      PlaceGrows(bins, s, items[n]);
    }
  }

  /** If the whole vector decodes within capacity, so does each of its prefixes. */
  lemma {:induction false} DecodePrefixWithin(cap: int, a: seq<int>, items: seq<int>, i: nat)
    requires i <= |a| <= |items| && NonNegative(items)
    requires WithinCapacity(cap, Decode(a, items))
    ensures WithinCapacity(cap, Decode(a[..i], items))
  {
    DecodePrefixGrows(a, items, i);
  }

  /** Pigeonhole: distinct labels drawn from [0, k) number at most k. */
  lemma {:induction false} DistinctBelow(s: seq<int>, k: nat)
    requires Distinct(s)
    requires forall i :: 0 <= i < |s| ==> 0 <= s[i] < k
    ensures |s| <= k
    decreases |s|
  {
    if s != [] {
      var n := |s| - 1;
      var e := s[n];
      assert 0 <= e < k;
      // rename label k - 1 to e, which the other entries do not use
      var moved := seq(n, i requires 0 <= i < n => if s[i] == k - 1 then e else s[i]);
      forall i | 0 <= i < n ensures 0 <= moved[i] < k - 1 {
        assert s[i] != e;
      }
      DistinctBelow(moved, k - 1);
    }
  }

  /** Where an item sits in a packing that holds it. */
  lemma {:induction false} Locate(p: seq<seq<int>>, x: int) returns (j: nat, q: nat)
    requires x in multiset(Flatten(p))
    ensures j < |p| && q < |p[j]| && p[j][q] == x
    decreases |p|
  {
    assert p != [];
    assert multiset(Flatten(p)) == multiset(p[0]) + multiset(Flatten(p[1..]));
    if x in p[0] {
      j := 0;
      q :| 0 <= q < |p[0]| && p[0][q] == x;
    } else {
      var j', q' := Locate(p[1..], x);
      j, q := j' + 1, q';
    }
  }

  /** Take item `q` out of bin `j` of `p`. */
  lemma {:induction false} RemoveFromBin(p: seq<seq<int>>, j: nat, q: nat) returns (p': seq<seq<int>>)
    requires j < |p| && q < |p[j]|
    ensures |p'| == |p|
    ensures multiset(Flatten(p')) == multiset(Flatten(p)) - multiset{p[j][q]}
    ensures Sum(p'[j]) + p[j][q] == Sum(p[j])
    ensures forall b :: 0 <= b < |p| && b != j ==> p'[b] == p[b]
  {
    var x := p[j][q];
    var shrunk := p[j][..q] + p[j][q + 1..];
    p' := p[j := shrunk];
    RemoveAt(p[j], q);
    FlattenReplace(p, j, shrunk);
    assert multiset(p[j]) == multiset(shrunk) + multiset{x} by {
      assert x in multiset(p[j]);
    }
    MultisetCancel(multiset(Flatten(p')), multiset(Flatten(p)), multiset(shrunk), multiset(p[j]), x);
  }

  /** One more labelled item adds to the items of its own label only. */
  lemma {:induction false} FilterStep(a: seq<int>, items: seq<int>, b: int)
    requires 0 < |a| <= |items|
    ensures Sum(Filter(a, items, b)) ==
            Sum(Filter(a[..|a| - 1], items, b)) + (if a[|a| - 1] == b then items[|a| - 1] else 0)
  {
    var n := |a| - 1;
    SumConcat(Filter(a[..n], items, b), if a[n] == b then [items[n]] else []);
  }

  /**
   * Any packing of the first `m` items, given by value, is the decoding of some
   * vector: labels name the packing's bins and each bin keeps its total.
   */
  lemma {:induction false} LabelsFor(items: seq<int>, m: nat, p: seq<seq<int>>) returns (a: seq<int>)
    requires m <= |items|
    requires multiset(Flatten(p)) == multiset(items[..m])
    ensures |a| == m
    ensures forall i :: 0 <= i < m ==> 0 <= a[i] < |p|
    ensures forall b :: 0 <= b < |p| ==> Sum(Filter(a, items, b)) == Sum(p[b])
    decreases m
  {
    if m == 0 {
      a := [];
      assert items[..0] == [];
      EmptyPacking(p);
    } else {
      var p', j := TakeLast(items, m, p);
      var a' := LabelsFor(items, m - 1, p');
      a := a' + [j];
      LabelsForStep(items, p, p', a', j);
    }
  }

  /** Take the last of the first `m` items out of the bin `j` of `p` that holds it. */
  lemma {:induction false} TakeLast(items: seq<int>, m: nat, p: seq<seq<int>>) returns (p': seq<seq<int>>, j: nat)
    requires 0 < m <= |items|
    requires multiset(Flatten(p)) == multiset(items[..m])
    ensures multiset(Flatten(p')) == multiset(items[..m - 1])
    ensures j < |p| == |p'| && Sum(p'[j]) + items[m - 1] == Sum(p[j])
    ensures forall b :: 0 <= b < |p| && b != j ==> p'[b] == p[b]
  {
    PrefixMultiset(items, m);
    var q;
    j, q := Locate(p, items[m - 1]);
    p' := RemoveFromBin(p, j, q);
  }

  /** A packing of no items has only empty bins. */
  lemma {:induction false} EmptyPacking(p: seq<seq<int>>)
    requires multiset(Flatten(p)) == multiset{}
    ensures forall b :: 0 <= b < |p| ==> Sum(p[b]) == 0
  {
    assert |Flatten(p)| == 0;
    forall b | 0 <= b < |p| ensures Sum(p[b]) == 0 {
      FlattenSplit(p, b);
      assert p[b] == [];
    }
  }

  /** The multiset of a prefix less its last item is the multiset of the shorter prefix. */
  lemma {:induction false} PrefixMultiset(items: seq<int>, m: nat)
    requires 0 < m <= |items|
    ensures multiset(items[..m]) - multiset{items[m - 1]} == multiset(items[..m - 1])
    ensures items[m - 1] in multiset(items[..m])
  {
    TakeSnoc(items, m - 1);
  }

  /** Labelling the last item with the bin it was taken from restores every bin total. */
  lemma {:induction false} LabelsForStep(items: seq<int>, p: seq<seq<int>>, p': seq<seq<int>>, a': seq<int>, j: nat)
    requires |a'| < |items| && j < |p| == |p'| && Sum(p'[j]) + items[|a'|] == Sum(p[j])
    requires forall b :: 0 <= b < |p| && b != j ==> p'[b] == p[b]
    requires forall i :: 0 <= i < |a'| ==> 0 <= a'[i] < |p'|
    requires forall b :: 0 <= b < |p'| ==> Sum(Filter(a', items, b)) == Sum(p'[b])
    ensures forall i :: 0 <= i < |a'| + 1 ==> 0 <= (a' + [j])[i] < |p|
    ensures forall b :: 0 <= b < |p| ==> Sum(Filter(a' + [j], items, b)) == Sum(p[b])
  {
    var a := a' + [j];
    assert a[..|a'|] == a';
    forall b | 0 <= b < |p| ensures Sum(Filter(a, items, b)) == Sum(p[b]) {
      FilterStep(a, items, b);
    }
  }

  /**
   * Every packing within capacity, given by value, has a vector that decodes
   * within capacity into no more bins.
   */
  lemma {:induction false} PackingHasAssignment(cap: int, items: seq<int>, p: seq<seq<int>>) returns (a: seq<int>)
    requires IsPacking(cap, items, p)
    ensures |a| == |items|
    ensures WithinCapacity(cap, Decode(a, items))
    ensures |Decode(a, items)| <= |p|
  {
    assert items[..|items|] == items;
    a := LabelsFor(items, |items|, p);
    var o := FirstAppearance(a);
    BinsByLabel(a, items);
    forall j | 0 <= j < |o| ensures 0 <= o[j] < |p| {
      assert o[j] in a;
    }
    FirstAppearanceDistinct(a);
    DistinctBelow(o, |p|);
  }

  /** An item is among the items filtered by its own label. */
  lemma {:induction false} FilterHas(a: seq<int>, items: seq<int>, i: nat)
    requires i < |a| <= |items|
    ensures items[i] in Filter(a, items, a[i])
    decreases |a|
  {
    var n := |a| - 1;
    if i < n {
      assert a[..n][i] == a[i];
      FilterHas(a[..n], items, i);
    }
  }

  /**
   * Items `i` and `k` share a bin exactly when their labels agree, and each
   * item lies in the bin `BinOf` names.
   */
  lemma {:induction false} SameBin(a: seq<int>, items: seq<int>, i: nat, k: nat)
    requires i < |a| && k < |a| && |a| <= |items|
    ensures BinOf(a, i) < |Decode(a, items)| && items[i] in Decode(a, items)[BinOf(a, i)]
    ensures BinOf(a, i) == BinOf(a, k) <==> a[i] == a[k]
  {
    BinsByLabel(a, items);
    FilterHas(a, items, i);
  }
}
