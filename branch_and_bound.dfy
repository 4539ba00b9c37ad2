/**
 * The exact solver `resultado_optimo`: depth-first branch and bound over the
 * item index. The partial packing is extended with an append and restored
 * with a pop around every branch; the incumbent (`mejor_num_cajas`,
 * `mejor_cajas`) lives in a search object, with `None` standing for the
 * initial `float('inf')`.
 *
 * Optimality is stated against assignment vectors: `Extends(.., a, index, cur)`
 * says that the feasible vector `a` agrees with the partial packing `cur` on
 * its first `index` items. Every packing has such a vector
 * (`Assignment.PackingHasAssignment`), so covering all vectors covers all
 * packings.
 */
module BranchAndBound {
  import opened Wrappers
  import opened Bins
  import opened Bounds
  import opened Assignment
  import Greedy

  /** `calcular_lower_bound`: `max(used, ceil(remaining / cap))`. */
  function LowerBound(cap: int, used: int, remaining: int): (lb: int)
    requires cap > 0
    ensures lb >= used && lb * cap >= remaining
    ensures forall m :: m >= used && m * cap >= remaining ==> m >= lb
  {
    var q := CeilDiv(remaining, cap);
    forall m | m * cap >= remaining ensures m >= q {
      CeilDivIsLeast(remaining, cap, m);
    }
    if used >= q then used else q
  }

  /** `k < best`, where `None` is infinity. */
  predicate Below(k: int, best: Option<nat>)
  {
    best.None? || k < best.value
  }

  /** The incumbent is finite and at most `k`. */
  predicate Covers(best: Option<nat>, k: int)
  {
    best.Some? && best.value <= k
  }

  /** `b'` is at least as good an incumbent as `b`. */
  predicate NoWorse(b': Option<nat>, b: Option<nat>)
  {
    b.Some? ==> Covers(b', b.value)
  }

  /** A feasible vector for all items whose first `index` labels decode to `cur`. */
  predicate Extends(cap: int, items: seq<int>, a: seq<int>, index: nat, cur: seq<seq<int>>)
  {
    index <= |a| == |items| && WithinCapacity(cap, Decode(a, items)) && Decode(a[..index], items) == cur
  }

  /** The bin of the partial packing (or `|cur|` for a new one) that `a` gives item `index`. */
  function Choice(a: seq<int>, index: nat): nat
    requires index < |a|
  {
    Slot(FirstAppearance(a[..index]), a[index])
  }

  /**
   * One step of a feasible vector is one of the search's branches: an existing
   * bin the item fits in, or the new bin.
   */
  lemma {:induction false} ExtendsStep(cap: int, items: seq<int>, a: seq<int>, index: nat, cur: seq<seq<int>>)
    requires NonNegative(items) && index < |items| && Extends(cap, items, a, index, cur)
    ensures Choice(a, index) <= |cur|
    ensures Extends(cap, items, a, index + 1, Place(cur, Choice(a, index), items[index]))
    ensures Choice(a, index) < |cur| ==> Sum(cur[Choice(a, index)]) + items[index] <= cap
    ensures Choice(a, index) == |cur| ==> |Decode(a, items)| >= |cur| + 1
  {
    var s := Choice(a, index);
    DecodePrefixGrows(a, items, index + 1);
    var b := a[..index + 1];
    assert b[..index] == a[..index];
    assert Decode(b, items) == Place(cur, s, items[index]);
    DecodePrefixWithin(cap, a, items, index + 1);
    if s < |cur| {
      SumConcat(cur[s], [items[index]]);
      assert Place(cur, s, items[index])[s] == cur[s] + [items[index]];
    }
  }

  /** No completion of a partial packing beats the lower bound computed from it. */
  lemma {:induction false} ExtendsBound(cap: int, items: seq<int>, a: seq<int>, index: nat, cur: seq<seq<int>>)
    requires cap > 0 && NonNegative(items) && Extends(cap, items, a, index, cur)
    ensures |Decode(a, items)| >= LowerBound(cap, |cur|, Sum(items[index..]))
  {
    DecodePrefixGrows(a, items, index);
    DecodeTotal(cap, a, items);
    SuffixSum(items, index);
  }

  /** A vector that decodes within capacity uses bins enough for the total size. */
  lemma {:induction false} DecodeTotal(cap: int, a: seq<int>, items: seq<int>)
    requires |a| == |items| && WithinCapacity(cap, Decode(a, items))
    ensures Sum(items) <= |Decode(a, items)| * cap
  {
    DecodePartitions(a, items);
    assert items[..|a|] == items;
    CapacityBoundsTotal(cap, Decode(a, items));
  }

  /** With non-negative sizes, the remaining weight is at most the total. */
  lemma {:induction false} SuffixSum(items: seq<int>, index: nat)
    requires NonNegative(items) && index <= |items|
    ensures Sum(items[index..]) <= Sum(items)
  {
    assert items[..index] + items[index..] == items;
    SumConcat(items[..index], items[index..]);
    assert NonNegative(items[..index]) by {
      forall i | 0 <= i < |items[..index]| ensures items[..index][i] >= 0 {
        assert items[..index][i] == items[i];
      }
    }
    SumNonNegative(items[..index]);
  }

  /** When all items are placed, the only extension is the packing itself. */
  lemma {:induction false} ExtendsComplete(cap: int, items: seq<int>, a: seq<int>, cur: seq<seq<int>>)
    requires Extends(cap, items, a, |items|, cur)
    ensures Decode(a, items) == cur
  {
    assert a[..|items|] == a;
  }

  /** The incumbent is at most the bin count of every feasible completion of `cur`. */
  ghost predicate CoversAll(best: Option<nat>, cap: int, items: seq<int>, index: nat, cur: seq<seq<int>>)
  {
    forall a :: Extends(cap, items, a, index, cur) ==> Covers(best, |Decode(a, items)|)
  }

  /** As `CoversAll`, restricted to completions putting item `index` into one of the bins before `i`. */
  ghost predicate CoversBelow(best: Option<nat>, cap: int, items: seq<int>, index: nat, cur: seq<seq<int>>, i: nat)
  {
    index < |items| &&
    forall a :: Extends(cap, items, a, index, cur) && Choice(a, index) < i ==> Covers(best, |Decode(a, items)|)
  }

  /** All items placed: the partial packing is its own only completion. */
  lemma {:induction false} LeafCovers(best: Option<nat>, cap: int, items: seq<int>, cur: seq<seq<int>>)
    requires Covers(best, |cur|)
    ensures CoversAll(best, cap, items, |items|, cur)
  {
    forall a | Extends(cap, items, a, |items|, cur) ensures Covers(best, |Decode(a, items)|) {
      ExtendsComplete(cap, items, a, cur);
    }
  }

  /** Pruning is sound: an incumbent at or below the lower bound covers every completion. */
  lemma {:induction false} PruneCovers(best: Option<nat>, cap: int, items: seq<int>, index: nat, cur: seq<seq<int>>)
    requires cap > 0 && NonNegative(items) && index <= |items|
    requires !Below(LowerBound(cap, |cur|, Sum(items[index..])), best)
    ensures CoversAll(best, cap, items, index, cur)
  {
    forall a | Extends(cap, items, a, index, cur) ensures Covers(best, |Decode(a, items)|) {
      ExtendsBound(cap, items, a, index, cur);
    }
  }

  /** A better incumbent covers whatever a worse one did. */
  lemma {:induction false} CoversBelowNoWorse(b: Option<nat>, b': Option<nat>, cap: int, items: seq<int>, index: nat, cur: seq<seq<int>>, i: nat)
    requires CoversBelow(b, cap, items, index, cur, i) && NoWorse(b', b)
    ensures CoversBelow(b', cap, items, index, cur, i)
  {
  }

  /**
   * Trying bin `i`: a completion putting the item into bin `i` is a completion
   * of the extended packing when the item fits, and there is none when it
   * does not.
   */
  lemma {:induction false} BinStep(b: Option<nat>, b': Option<nat>, cap: int, items: seq<int>, index: nat, cur: seq<seq<int>>, i: nat)
    requires NonNegative(items) && i < |cur|
    requires CoversBelow(b, cap, items, index, cur, i) && NoWorse(b', b)
    requires Sum(cur[i]) + items[index] <= cap ==> CoversAll(b', cap, items, index + 1, Place(cur, i, items[index]))
    ensures CoversBelow(b', cap, items, index, cur, i + 1)
  {
    CoversBelowNoWorse(b, b', cap, items, index, cur, i);
    forall a | Extends(cap, items, a, index, cur) && Choice(a, index) == i
      ensures Covers(b', |Decode(a, items)|)
    {
      ExtendsStep(cap, items, a, index, cur);
    }
  }

  /**
   * The new-bin branch: a completion opening a new bin for the item is a
   * completion of `cur + [[item]]`, and when the guard refuses it the
   * incumbent is already at most `|cur| + 1`.
   */
  lemma {:induction false} NewBinStep(b: Option<nat>, b': Option<nat>, cap: int, items: seq<int>, index: nat, cur: seq<seq<int>>)
    requires NonNegative(items)
    requires CoversBelow(b, cap, items, index, cur, |cur|) && NoWorse(b', b)
    requires Below(|cur| + 1, b) ==> CoversAll(b', cap, items, index + 1, Place(cur, |cur|, items[index]))
    ensures CoversAll(b', cap, items, index, cur)
  {
    CoversBelowNoWorse(b, b', cap, items, index, cur, |cur|);
    forall a | Extends(cap, items, a, index, cur) ensures Covers(b', |Decode(a, items)|) {
      ExtendsStep(cap, items, a, index, cur);
    }
  }

  /** A partial packing of the first `index` items within capacity. */
  predicate Partial(cap: int, items: seq<int>, index: nat, cur: seq<seq<int>>)
  {
    index <= |items| && WithinCapacity(cap, cur) && multiset(Flatten(cur)) == multiset(items[..index])
  }

  /**
   * Appending the next item to a bin it fits in, or opening a new bin for it,
   * extends a partial packing by one item; the remaining weight drops by the
   * item.
   */
  lemma {:induction false} PartialStep(cap: int, items: seq<int>, index: nat, cur: seq<seq<int>>, j: nat)
    requires Packable(cap, items) && index < |items| && Partial(cap, items, index, cur) && j <= |cur|
    requires j < |cur| ==> Sum(cur[j]) + items[index] <= cap
    ensures Partial(cap, items, index + 1, Place(cur, j, items[index]))
    ensures Sum(items[index..]) - items[index] == Sum(items[index + 1..])
  {
    assert items[index..][1..] == items[index + 1..];
    TakeSnoc(items, index);
    PlaceContents(cur, j, items[index]);
    PlaceWithin(cap, cur, j, items[index]);
  }

  /** A partial packing of all items is a packing. */
  lemma {:induction false} PartialComplete(cap: int, items: seq<int>, cur: seq<seq<int>>)
    requires Partial(cap, items, |items|, cur)
    ensures IsPacking(cap, items, cur)
  {
    assert items[..|items|] == items;
  }

  /** The search state of one call of `resultado_optimo`. */
  class Search {
    const cap: int
    const items: seq<int>
    /** `cajas_actuales`: the partial packing of the items before the current index. */
    var current: seq<seq<int>>
    /** `mejor_num_cajas`, `None` while it is still infinite. */
    var best: Option<nat>
    /** `mejor_cajas`. */
    var bestBins: seq<seq<int>>

    /** The incumbent, once there is one, is a packing of all items with that many bins. */
    predicate Valid()
      reads this`best, this`bestBins
    {
      Packable(cap, items) &&
      (best.Some? ==> IsPacking(cap, items, bestBins) && |bestBins| == best.value)
    }

    constructor(cap: int, items: seq<int>)
      requires Packable(cap, items)
      ensures Valid()
      ensures this.cap == cap && this.items == items
      ensures current == [] && best == None && bestBins == []
    {
      this.cap := cap;
      this.items := items;
      current := [];
      best := None;
      bestBins := [];
    }

    /**
     * `branch_and_bound(index, cajas_actuales, peso_restante)`. On return the
     * partial packing is as it was, the incumbent is no worse, and it is at
     * most the bin count of every feasible completion of the partial packing.
     */
    method Explore(index: nat, remaining: int)
      requires Valid() && Partial(cap, items, index, current) && remaining == Sum(items[index..])
      modifies this
      ensures Valid()
      ensures current == old(current)
      ensures NoWorse(best, old(best))
      ensures CoversAll(best, cap, items, index, old(current))
      decreases |items| - index, 2
    {
      if index == |items| {
        if Below(|current|, best) {
          PartialComplete(cap, items, current);
          best := Some(|current|);
          bestBins := current;
        }
        LeafCovers(best, cap, items, current);
        return;
      }

      var lowerBound := LowerBound(cap, |current|, remaining);
      if !Below(lowerBound, best) {
        PruneCovers(best, cap, items, index, current);
        return;
      }

      TryEachBin(index, remaining);
      ghost var afterBins := best;
      TryNewBin(index, remaining);
      NewBinStep(afterBins, best, cap, items, index, current);
    }

    /**
     * The new-bin branch of `branch_and_bound`: when the guard `len < best - 1`
     * allows it, item `index` opens a bin of its own, the remaining items are
     * searched, and the bin is popped again.
     */
    method TryNewBin(index: nat, remaining: int)
      requires Valid() && index < |items| && Partial(cap, items, index, current)
      requires remaining == Sum(items[index..])
      modifies this
      ensures Valid()
      ensures current == old(current)
      ensures NoWorse(best, old(best))
      ensures Below(|current| + 1, old(best)) ==>
                CoversAll(best, cap, items, index + 1, Place(current, |current|, items[index]))
      decreases |items| - index, 0
    {
      ghost var cur := current;
      var w := items[index];
      if Below(|current| + 1, best) {
        PartialStep(cap, items, index, current, |current|);
        current := current + [[w]];
        assert current == Place(cur, |cur|, w);
        Explore(index + 1, remaining - w);
        DropSnoc(cur, [w]);
        current := current[..|current| - 1];
      }
    }

    /**
     * The `for` loop of `branch_and_bound`: item `index` is tried in every
     * existing bin it fits in, in bin order, each time followed by the search
     * of the remaining items and a pop. Afterwards the incumbent covers every
     * feasible completion that puts the item into an existing bin.
     */
    method TryEachBin(index: nat, remaining: int)
      requires Valid() && index < |items| && Partial(cap, items, index, current)
      requires remaining == Sum(items[index..])
      modifies this
      ensures Valid()
      ensures current == old(current)
      ensures NoWorse(best, old(best))
      ensures CoversBelow(best, cap, items, index, old(current), |old(current)|)
      decreases |items| - index, 1
    {
      ghost var cur := current;
      var i := 0;
      while i < |current|
        invariant 0 <= i <= |current| && current == cur
        invariant Valid() && NoWorse(best, old(best))
        invariant CoversBelow(best, cap, items, index, cur, i)
      {
        ghost var before := best;
        TryBin(index, remaining, i);
        BinStep(before, best, cap, items, index, cur, i);
        i := i + 1;
      }
    }

    /**
     * One round of that loop: if item `index` fits in bin `i`, append it,
     * search the remaining items, and pop it again.
     */
    method TryBin(index: nat, remaining: int, i: nat)
      requires Valid() && index < |items| && Partial(cap, items, index, current)
      requires remaining == Sum(items[index..]) && i < |current|
      modifies this
      ensures Valid()
      ensures current == old(current)
      ensures NoWorse(best, old(best))
      ensures Sum(current[i]) + items[index] <= cap ==>
                CoversAll(best, cap, items, index + 1, Place(current, i, items[index]))
      decreases |items| - index, 0
    {
      ghost var cur := current;
      var w := items[index];
      if Sum(current[i]) + w <= cap {
        PartialStep(cap, items, index, current, i);
        current := current[i := current[i] + [w]];
        assert current == Place(cur, i, w);
        Explore(index + 1, remaining - w);
        DropSnoc(cur[i], w);
        current := current[i := current[i][..|current[i]| - 1]];
      }
    }
  }

  /**
   * `resultado_optimo`: a packing of `items` with the fewest bins of any
   * packing, together with its bin count.
   */
  method OptimalPacking(cap: int, items: seq<int>) returns (count: nat, bins: seq<seq<int>>)
    requires Packable(cap, items)
    ensures IsPacking(cap, items, bins) && count == |bins|
    ensures forall p :: IsPacking(cap, items, p) ==> count <= |p|
    ensures count >= TheoreticalMinimum(cap, items)
    ensures items == [] ==> count == 0 && bins == []
  {
    var search := new Search(cap, items);
    assert items[0..] == items && items[..0] == [];
    search.Explore(0, Sum(items));
    forall p | IsPacking(cap, items, p) ensures Covers(search.best, |p|) {
      var a := PackingHasAssignment(cap, items, p);
      assert a[..0] == [];
      assert Extends(cap, items, a, 0, []);
    }
    Greedy.PackIsPacking(Greedy.Next, cap, items);
    assert Covers(search.best, |Greedy.Pack(Greedy.Next, cap, items)|);
    count := search.best.value;
    bins := search.bestBins;
    MinimumIsLowerBound(cap, items, bins);
    if items == [] {
      assert IsPacking(cap, items, []);
    }
  }
}
