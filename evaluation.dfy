/**
 * The two evaluations the genetic algorithm applies to an assignment vector:
 * decoding it into bins (`decodificar_bins`) and scoring it (`fitness`).
 * Both are loops over the vector filling dictionaries; each is proved equal
 * to its specification in terms of `Decode`.
 */
module Evaluation {
  import opened Bins
  import opened Assignment

  /** How far a bin's total exceeds the capacity, or 0: `max(0, w - capacidad)`. */
  function Excess(cap: int, b: seq<int>): nat
  {
    if Sum(b) > cap then Sum(b) - cap else 0
  }

  /** Total excess over the bins. */
  function Overflow(cap: int, bins: seq<seq<int>>): nat
  {
    if bins == [] then 0
    else Overflow(cap, bins[..|bins| - 1]) + Excess(cap, bins[|bins| - 1])
  }

  /**
   * The score of an assignment: one point per bin used plus ten per unit of
   * excess over the capacity; lower is better.
   */
  function FitnessOf(cap: int, items: seq<int>, a: seq<int>): nat
    requires |a| <= |items|
  {
    |FirstAppearance(a)| + 10 * Overflow(cap, Decode(a, items))
  }

  /** The overflow vanishes exactly when every bin is within capacity. */
  lemma {:induction false} OverflowZero(cap: int, bins: seq<seq<int>>)
    ensures Overflow(cap, bins) == 0 <==> WithinCapacity(cap, bins)
    decreases |bins|
  {
    if bins != [] {
      var n := |bins| - 1;
      var pre := bins[..n];
      OverflowZero(cap, pre);
      if WithinCapacity(cap, bins) {
        assert Sum(bins[n]) <= cap;
        forall j | 0 <= j < |pre| ensures Sum(pre[j]) <= cap {
          assert pre[j] == bins[j];
        }
      }
      if Overflow(cap, bins) == 0 {
        forall j | 0 <= j < |bins| ensures Sum(bins[j]) <= cap {
          if j < n {
            assert pre[j] == bins[j];
          }
        }
      }
    }
  }

  /**
   * The score is at least the number of bins, `len(set(a))`, and equals it
   * exactly when the decoding respects the capacity.
   */
  lemma {:induction false} FitnessCountsBins(cap: int, items: seq<int>, a: seq<int>)
    requires |a| <= |items|
    ensures FitnessOf(cap, items, a) >= |Labels(a)|
    ensures FitnessOf(cap, items, a) == |Labels(a)| <==> WithinCapacity(cap, Decode(a, items))
  {
    LabelCount(a, items);
    OverflowZero(cap, Decode(a, items));
  }

  /**
   * `decodificar_bins`: collect the labels in order of first appearance,
   * renumber them 0..k-1 in that order, append each item to the bin of its
   * new number, and list the bins by number.
   */
  method DecodeBins(solution: seq<int>, items: seq<int>) returns (bins: seq<seq<int>>)
    requires |solution| <= |items|
    ensures bins == Decode(solution, items)
  {
    var order := OrderOfIds(solution);
    var idMap := map b | b in order :: IndexOf(order, b);
    var binsDict: map<nat, seq<int>> := map[];
    for i := 0 to |solution|
      invariant forall j: nat :: j in binsDict <==> j < |Decode(solution[..i], items)|
      invariant |binsDict| == |Decode(solution[..i], items)|
      invariant forall j :: j in binsDict ==> binsDict[j] == Decode(solution[..i], items)[j]
    {
      var bid := idMap[solution[i]];
      SlotIsFinalIndex(solution, i);
      DecodeSnoc(solution, items, i);
      DictPlace(binsDict, Decode(solution[..i], items), bid, items[i]);
      binsDict := binsDict[bid := (if bid in binsDict then binsDict[bid] else []) + [items[i]]];
    }
    assert solution[..|solution|] == solution;
    var k := |binsDict|;
    bins := seq(k, j requires 0 <= j < k => binsDict[j]);
  }

  /** The first loop of `decodificar_bins`: `orden_ids`, kept with the `visto` set. */
  method OrderOfIds(solution: seq<int>) returns (order: seq<int>)
    ensures order == FirstAppearance(solution)
  {
    order := [];
    var seen: set<int> := {};
    for i := 0 to |solution|
      invariant order == FirstAppearance(solution[..i])
      invariant seen == Labels(order)
    {
      FirstAppearanceSnoc(solution, i);
      if solution[i] !in seen {
        seen := seen + {solution[i]};
        order := order + [solution[i]];
      }
    }
    assert solution[..|solution|] == solution;
  }

  /**
   * After `bins_dict.setdefault(s, []).append(x)`, the dictionary holds the
   * bins of `Place(d, s, x)` when it held those of `d`.
   */
  lemma {:induction false} DictPlace(dict: map<nat, seq<int>>, d: seq<seq<int>>, s: nat, x: int)
    requires s <= |d|
    requires forall j: nat :: j in dict <==> j < |d|
    requires |dict| == |d| && forall j :: j in dict ==> dict[j] == d[j]
    ensures
      var after := dict[s := (if s in dict then dict[s] else []) + [x]];
      (forall j: nat :: j in after <==> j < |Place(d, s, x)|) &&
      |after| == |Place(d, s, x)| &&
      forall j :: j in after ==> after[j] == Place(d, s, x)[j]
  {
  }

  /**
   * `fitness`: total the item sizes per label in a dictionary, then add ten
   * times the summed excess of those totals to the number of labels.
   * Python dictionaries iterate in insertion order; `keys` is that order.
   */
  method Fitness(solution: seq<int>, items: seq<int>, cap: int) returns (f: int)
    requires |solution| <= |items|
    ensures f == FitnessOf(cap, items, solution)
  {
    var binsSum, keys := BinTotals(solution, items);
    ghost var bins := Decode(solution, items);
    var penalty := 0;
    for j := 0 to |keys|
      invariant penalty == Overflow(cap, bins[..j])
    {
      var w := binsSum[keys[j]];
      TakeTake(bins, j, j + 1);
      penalty := penalty + (if w - cap > 0 then w - cap else 0);
    }
    assert bins[..|keys|] == bins;
    FirstAppearanceDistinct(solution);
    DistinctCard(keys);
    f := |binsSum| + penalty * 10;
  }

  /**
   * The first loop of `fitness`: `bins_sum[b] = bins_sum.get(b, 0) + x` for
   * each item, the keys listed in insertion order.
   */
  method BinTotals(solution: seq<int>, items: seq<int>) returns (binsSum: map<int, int>, keys: seq<int>)
    requires |solution| <= |items|
    ensures keys == FirstAppearance(solution)
    ensures binsSum.Keys == Labels(keys)
    ensures forall j :: 0 <= j < |keys| ==> binsSum[keys[j]] == Sum(Decode(solution, items)[j])
  {
    binsSum, keys := map[], [];
    for i := 0 to |solution|
      invariant keys == FirstAppearance(solution[..i])
      invariant binsSum.Keys == Labels(keys)
      invariant forall j :: 0 <= j < |keys| ==> binsSum[keys[j]] == Sum(Decode(solution[..i], items)[j])
    {
      ghost var sums0, keys0 := binsSum, keys;
      if solution[i] !in binsSum {
        keys := keys + [solution[i]];
      }
      binsSum := binsSum[solution[i] := (if solution[i] in binsSum then binsSum[solution[i]] else 0) + items[i]];
      TotalsStep(solution, items, i, sums0, keys0, binsSum, keys);
    }
    assert solution[..|solution|] == solution;
  }

  /** One round of the first loop of `fitness` keeps its invariant. */
  lemma {:induction false} TotalsStep(solution: seq<int>, items: seq<int>, i: nat, sums: map<int, int>, keys: seq<int>,
                                      sums': map<int, int>, keys': seq<int>)
    requires i < |solution| <= |items|
    requires keys == FirstAppearance(solution[..i]) && sums.Keys == Labels(keys)
    requires forall j :: 0 <= j < |keys| ==> sums[keys[j]] == Sum(Decode(solution[..i], items)[j])
    requires keys' == if solution[i] in sums then keys else keys + [solution[i]]
    requires sums' == sums[solution[i] := (if solution[i] in sums then sums[solution[i]] else 0) + items[i]]
    ensures keys' == FirstAppearance(solution[..i + 1]) && sums'.Keys == Labels(keys')
    ensures forall j :: 0 <= j < |keys'| ==> sums'[keys'[j]] == Sum(Decode(solution[..i + 1], items)[j])
  {
    var d := Decode(solution[..i], items);
    FirstAppearanceSnoc(solution, i);
    DecodeSnoc(solution, items, i);
    FirstAppearanceDistinct(solution[..i]);
    assert solution[i] in sums <==> solution[i] in keys;
    SumsPlace(sums, keys, d, solution[i], items[i]);
    assert Decode(solution[..i + 1], items) == Place(d, Slot(keys, solution[i]), items[i]);
  }

  /**
   * After `bins_sum[b] = bins_sum.get(b, 0) + x`, the per-label totals are
   * those of the decoding with one more item.
   */
  lemma {:induction false} SumsPlace(sums: map<int, int>, keys: seq<int>, d: seq<seq<int>>, b: int, x: int)
    requires Distinct(keys) && |keys| == |d|
    requires sums.Keys == Labels(keys)
    requires forall j :: 0 <= j < |keys| ==> sums[keys[j]] == Sum(d[j])
    ensures
      var keys' := if b in keys then keys else keys + [b];
      var sums' := sums[b := (if b in sums then sums[b] else 0) + x];
      var d' := Place(d, Slot(keys, b), x);
      sums'.Keys == Labels(keys') &&
      forall j :: 0 <= j < |keys'| ==> sums'[keys'[j]] == Sum(d'[j])
  {
    var s := Slot(keys, b);
    if b in keys {
      SumConcat(d[s], [x]);
    } else {
      assert Sum([x]) == x;
    }
  }
}
