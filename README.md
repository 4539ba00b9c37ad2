# Bin packing solvers, modelled in Dafny

A model of the two solver files of a small one-dimensional bin-packing
repository, together with proofs about the model. Items have integer sizes.
Bins have one integer capacity. A packing is a list of bins, each bin a list
of item sizes.

- `Algoritmos.py` holds four things:
  - the theoretical minimum `ceil(sum / capacity)`;
  - an exact branch-and-bound solver (`resultado_optimo`);
  - the greedy heuristics Next Fit, First Fit and Best Fit;
  - First Fit Decreasing and Best Fit Decreasing, the same heuristics run on
    the items sorted in non-increasing order.
- `Genetico.py` holds a genetic algorithm over assignment vectors. Entry `i`
  of a vector is the label of the bin that item `i` goes to. Its parts:
  - decoding a vector into bins (`decodificar_bins`);
  - a fitness score (bins used, plus ten per unit of excess);
  - random populations, tournament selection, one-point crossover and point
    mutation;
  - the generation loop with elitism, a best-so-far record and early stopping.

Modules:

- `Bins`: sums, flattening, capacity and the notion of a packing.
- `Bounds`: exact integer ceiling and the theoretical minimum, which is
  duplicated at `Genetico.py:8-10`.
- `Greedy`: the three placement rules as functions. Their common fold is
  `Pack`. The source's loops are methods proved equal to `Pack(rule, ..)`, and
  the partition, capacity and lower-bound facts are proved once for every rule.
- `BranchAndBound`: a `Search` class holds the partial packing and the
  incumbent, and the search mutates them in place with append and pop, as the
  source does. Optimality is proved against every packing.
- `Assignment`: `FirstAppearance` (the labels in order of first appearance)
  and `Decode`, the specification of `decodificar_bins`.
- `Evaluation`: the loops of `decodificar_bins` and `fitness`, proved equal to
  `Decode` and `FitnessOf`.
- `Genetic`: the genetic algorithm. Python's `random` module becomes an
  explicit oracle (`Random`) read at a position counter, and every draw uses
  one position.

Two behaviours of the source that the model keeps as written:

- `crossover` calls `randint(1, len - 2)` whenever `len >= 2`
  (`Genetico.py:55-57`). For `len == 2` the range is empty and the call
  raises. The model keeps the guard `len >= 2` and makes length 2 a
  precondition (`Crossover`, `CanBreed`).
- The early-stop counter is reset to 0 on a change and incremented on a
  repeat (`Genetico.py:129-136`). So the loop stops once the generation
  best's bin count has been the same for `patience + 1` generations in a row,
  and never before a repeat (`Stops`).

## Model

| member | source | states |
|---|---|---|
| Bounds.CeilDiv | Algoritmos.py:16 | `ceil(a / d)` as the least integer `q` with `q * d >= a` |
| Bounds.TheoreticalMinimum | Algoritmos.py:4-17 | the minimum times the capacity covers the total size, and every smaller count falls short of it |
| Bounds.MinimumIsLowerBound | Algoritmos.py:4-17 | every packing of the items within capacity uses at least the theoretical minimum of bins |
| Greedy.NextFitIndex | Algoritmos.py:103-108 | Next Fit extends only the last bin, and only when the item fits; otherwise it opens a new bin |
| Greedy.FirstFitIndex | Algoritmos.py:133-142 | First Fit picks a bin the item fits in, with no earlier bin fitting; a new bin only when none fits |
| Greedy.BestFitIndex | Algoritmos.py:164-182 | Best Fit picks a candidate with the least space left, the earliest on ties, and a new bin only when there is no candidate |
| Greedy.TightestBin | Algoritmos.py:165-175 | the scan with `mejor_caja`/`menor_espacio` returns -1 exactly when the rule opens a new bin, else the rule's bin |
| Greedy.CandidateIsFit | Algoritmos.py:173 | with non-negative bin totals, Best Fit's test `x <= space < cap + 1` is exactly "the item fits" |
| Greedy.PackPartitions | Algoritmos.py:85-184 | every greedy packing holds exactly the items, as a multiset |
| Greedy.PackShape | Algoritmos.py:85-184 | no greedy bin is empty, and there are at most as many bins as items |
| Greedy.PackWithinCapacity | Algoritmos.py:85-184 | when each item fits on its own, every greedy bin respects the capacity |
| Greedy.PackAtLeastMinimum | Algoritmos.py:85-184 | no greedy packing uses fewer bins than the theoretical minimum |
| Greedy.PackIsPacking | Algoritmos.py:85-184 | the shared facts together: partition, at most one bin per item, capacity, minimum |
| Greedy.NextFitKeepsOrder | Algoritmos.py:97-110 | Next Fit's bins concatenate back to the input, order included |
| Greedy.NextFit | Algoritmos.py:85-110 | the loop's bins are the Next Fit fold; they keep the input order, respect the capacity and the minimum; no items give 0 bins |
| Greedy.FirstFit | Algoritmos.py:113-144 | the loop's bins are the First Fit fold; they partition the items, respect the capacity and the minimum; no items give 0 bins |
| Greedy.BestFit | Algoritmos.py:147-184 | the loop's bins are the Best Fit fold; they partition the items, respect the capacity and the minimum; no items give 0 bins |
| Greedy.Insert | Algoritmos.py:200 | inserting into a non-increasing list keeps it non-increasing and adds exactly the one element |
| Greedy.SortDescending | Algoritmos.py:200 | `sorted(reverse=True)`: a non-increasing permutation of the input |
| Greedy.SortedPermutationUnique | Algoritmos.py:200 | two non-increasing permutations of one multiset are equal, so the sort's result is determined |
| Greedy.SortedKeepsFacts | Algoritmos.py:199-203 | sorting changes neither whether every item fits, nor the minimum, nor emptiness |
| Greedy.FirstFitDecreasing | Algoritmos.py:187-203 | First Fit on the sorted items; partition of the original items, capacity, minimum, empty input |
| Greedy.BestFitDecreasing | Algoritmos.py:206-222 | Best Fit on the sorted items; partition of the original items, capacity, minimum, empty input |
| BranchAndBound.LowerBound | Algoritmos.py:37-39 | `max(used, ceil(remaining / cap))`: the least count that is at least `used` and covers the remaining weight |
| BranchAndBound.ExtendsStep | Algoritmos.py:57-72 | each feasible completion takes one of the search's branches: an existing bin the item fits in, or the new bin |
| BranchAndBound.ExtendsBound | Algoritmos.py:52-55 | no feasible completion of a partial packing uses fewer bins than its lower bound |
| BranchAndBound.LeafCovers | Algoritmos.py:44-50 | with every item placed, an incumbent at most the packing's size covers its only completion |
| BranchAndBound.PruneCovers | Algoritmos.py:52-55 | pruning when the bound reaches the incumbent loses no better completion |
| BranchAndBound.BinStep | Algoritmos.py:60-66 | trying bin `i` covers the completions through bin `i`, and skipping a bin the item does not fit in loses none |
| BranchAndBound.NewBinStep | Algoritmos.py:68-72 | the new-bin branch, or its refusal by the guard `len < best - 1`, covers every completion through a new bin |
| BranchAndBound.CoversBelowNoWorse | Algoritmos.py:47-48 | a better incumbent covers whatever a worse one covered |
| BranchAndBound.PartialStep | Algoritmos.py:57-72 | appending the item to a bin it fits in, or to a new bin, extends the partial packing by one item, and the remaining weight drops by the item |
| BranchAndBound.PartialComplete | Algoritmos.py:44-50 | a partial packing of all the items is a packing |
| BranchAndBound.Search.constructor | Algoritmos.py:31-35 | the search starts with no bins, an infinite incumbent (`None`) and no best packing |
| BranchAndBound.Search.Explore | Algoritmos.py:41-72 | `branch_and_bound` restores the partial packing, never worsens the incumbent, and leaves it at most the size of every feasible completion |
| BranchAndBound.Search.TryEachBin | Algoritmos.py:60-66 | the loop over existing bins covers every completion that puts the item into one of them |
| BranchAndBound.Search.TryBin | Algoritmos.py:61-66 | append, recurse, pop on one bin: the packing is restored, and when the item fits, the completions through that bin are covered |
| BranchAndBound.Search.TryNewBin | Algoritmos.py:68-72 | the guarded new-bin branch restores the packing and covers the completions through a new bin |
| BranchAndBound.OptimalPacking | Algoritmos.py:20-80 | `resultado_optimo` returns a packing within capacity with no more bins than any other packing, at least the theoretical minimum, and 0 bins for no items |
| Assignment.FirstAppearance | Genetico.py:17-22 | `orden_ids`: holds every label of the vector and no other, and is no longer than the vector |
| Assignment.FirstAppearanceDistinct | Genetico.py:20-22 | `orden_ids` has no repeats: the `visto` test adds each label once |
| Assignment.FirstAppearanceSnoc | Genetico.py:19-22 | a label not met yet joins the end of the order; a label met already leaves it unchanged |
| Assignment.IndexOf | Genetico.py:23 | `id_map`: a label's new number is the position of its first appearance |
| Assignment.Decode | Genetico.py:12-32 | a vector decodes to exactly one bin per distinct label |
| Assignment.DecodeSnoc | Genetico.py:26-28 | one more label appends its item to the bin of that label, or to a new last bin |
| Assignment.SlotIsFinalIndex | Genetico.py:23-28 | the bin an item joins while decoding is its label's final number |
| Assignment.BinsByLabel | Genetico.py:23-32 | bin `j` holds, in index order, the items labelled with the `j`-th label in order of first appearance |
| Assignment.SameBin | Genetico.py:23-32 | each item lies in its own bin, and two items share a bin exactly when they share a label |
| Assignment.DecodePartitions | Genetico.py:12-32 | decoding loses and invents no item: the bins hold the labelled items as a multiset, with their total |
| Assignment.LabelCount | Genetico.py:118 | `len(set(vector))` is the number of distinct labels and the number of decoded bins |
| Assignment.PackingHasAssignment | Algoritmos.py:20-80 | every packing within capacity has an assignment vector that decodes within capacity into no more bins |
| Evaluation.OverflowZero | Genetico.py:41-42 | the summed excess is 0 exactly when every bin respects the capacity |
| Evaluation.FitnessCountsBins | Genetico.py:36-44 | the score is at least the number of bins, and equals it exactly when the decoding respects the capacity |
| Evaluation.DecodeBins | Genetico.py:12-32 | the three loops of `decodificar_bins` return exactly `Decode` of the vector |
| Evaluation.OrderOfIds | Genetico.py:17-22 | the first loop with its `visto` set builds the labels in order of first appearance |
| Evaluation.DictPlace | Genetico.py:28 | `setdefault(bid, []).append(x)` turns the dictionary of the bins so far into that of the bins with `x` placed |
| Evaluation.Fitness | Genetico.py:36-44 | `fitness` returns the number of bins plus ten times the summed excess of the decoded bins |
| Evaluation.BinTotals | Genetico.py:38-40 | the totals loop keys the labels in order of first appearance, each mapped to its decoded bin's total |
| Evaluation.TotalsStep | Genetico.py:39-40 | one round of the totals loop keeps its keys and totals equal to those of the decoding so far |
| Evaluation.SumsPlace | Genetico.py:40 | `bins_sum.get(b, 0) + x` gives the totals of the bins with the item placed |
| Genetic.Draw | Genetico.py:51 | a draw from `[0, m)` lies in that range and is the oracle's value whenever that value is in range |
| Genetic.RandInt | Genetico.py:57 | `randint(lo, hi)` lies in `[lo, hi]` |
| Genetic.RandomChromosome | Genetico.py:48 | one vector of `n` labels, each drawn in `[0, n - 1]` |
| Genetic.GeneratePopulation | Genetico.py:46-48 | `size` vectors, each of `n` labels in `[0, n - 1]` |
| Genetic.FirstMin | Genetico.py:102 | `min(population, key=fitness)` returns a position of the population |
| Genetic.FirstMinIsMin | Genetico.py:102 | that position has the least fitness, and every earlier member is strictly less fit |
| Genetic.Fittest | Genetico.py:117 | the chosen member belongs to the population |
| Genetic.FittestIsMin | Genetico.py:117 | the chosen member is at least as fit as every member |
| Genetic.FittestChromosome | Genetico.py:102 | the fittest of a population of valid vectors is a valid vector |
| Genetic.ElitismKeepsBest | Genetico.py:101-103 | a population that starts with the old population's fittest member is at least as fit at its best |
| Genetic.Sample | Genetico.py:51 | `random.sample(pool, k)` yields `k` picks |
| Genetic.SampleFromPool | Genetico.py:51 | every pick comes from the pool, and a pool without repeats gives picks without repeats |
| Genetic.Contenders | Genetico.py:51 | `k` positions of the population, each in range |
| Genetic.ContendersDistinct | Genetico.py:51 | the contenders are `k` different members (sampling without replacement) |
| Genetic.FirstMinAmong | Genetico.py:52 | `min(contenders, key=fitness)` picks a position among the contenders |
| Genetic.FirstMinAmongIsMin | Genetico.py:52 | that contender is as fit as every contender and strictly fitter than every earlier one |
| Genetic.Selection | Genetico.py:50-52 | the tournament winner is a member of the population |
| Genetic.SelectionWins | Genetico.py:50-52 | the winner is one of the sampled contenders, and its score is the least among them |
| Genetic.SelectionFittest | Genetico.py:50-52 | with the population's fitness table, the winner's fitness is at most each contender's |
| Genetic.CrossoverPoint | Genetico.py:55-57 | the cut lies in `[1, len - 2]`; vectors shorter than 2 count as cut at their end |
| Genetic.Crossover | Genetico.py:54-60 | short vectors come back unchanged with no draw; otherwise one draw is used; equal-length parents give children of that length |
| Genetic.CrossoverGenes | Genetico.py:57-59 | each child takes every gene before the cut from one parent and every gene after it from the other |
| Genetic.CutTwice | Genetico.py:58-59 | crossing the two children again at the same cut gives back the parents |
| Genetic.CrossoverKeepsChromosome | Genetico.py:54-60 | crossing two vectors of `n` labels in `[0, n - 1]` gives two such vectors |
| Genetic.MutationShape | Genetico.py:62-66 | a mutation keeps the length, changes at most one position, writes only labels in `[0, len - 1]`, and keeps a vector valid |
| Genetic.Mutate | Genetico.py:62-66 | `mutate` on the array in place gives exactly the mutation of its old contents and the next draw position |
| Genetic.MutatedChild | Genetico.py:110 | mutating a fresh array copy of a child gives the mutation of the child |
| Genetic.Offspring | Genetico.py:107-109 | two tournaments and a crossover give two children of `n` labels and use at least six draws |
| Genetic.OffspringChromosomes | Genetico.py:107-109 | the children of two members of a population are valid vectors |
| Genetic.PassKids | Genetico.py:107-112 | one pass keeps two children, or one when only one slot is left |
| Genetic.Refill | Genetico.py:106-113 | the reproduction loop fills exactly the free slots |
| Genetic.Pass | Genetico.py:106-113 | a pass followed by the rest of the loop fills exactly the free slots |
| Genetic.Bred | Genetico.py:106-113 | the children the loop yields fill exactly the free slots |
| Genetic.RefillStep | Genetico.py:106-113 | what is left of the loop after a pass is what was left before it |
| Genetic.PassKidsPopulation | Genetico.py:107-112 | the children kept in a pass are valid vectors |
| Genetic.RefillPopulation | Genetico.py:106-113 | every child the loop breeds is a valid vector |
| Genetic.Breed | Genetico.py:107-112 | one pass of the loop body yields exactly `PassKids` |
| Genetic.Reproduce | Genetico.py:106-113 | the `while` loop yields exactly the children and draw position of `Bred` |
| Genetic.Step | Genetico.py:99-114 | one generation keeps the population size and starts with the old population's first fittest member |
| Genetic.StepPopulation | Genetico.py:99-114 | every member of a generation bred from valid vectors is a valid vector |
| Genetic.NextGeneration | Genetico.py:99-114 | the new population has the old size and holds valid vectors, and it is exactly `Step`: the old first fittest member, then what the reproduction loop breeds |
| Genetic.TrailingRun | Genetico.py:129-134 | the run of equal entries at the end of the history is at most its length and at least 1 when it is not empty |
| Genetic.TrailingRunMeaning | Genetico.py:129-134 | that run is the maximal block of copies of the last entry |
| Genetic.TrailingRunSnoc | Genetico.py:129-134 | a repeat extends the run by one; a change restarts it at 1 |
| Genetic.CountStill | Genetico.py:128-136 | the counter is reset on a change and advanced on a repeat, and the loop stops exactly when the run of repeats reaches `patience` |
| Genetic.KeepBest | Genetico.py:121-126 | the best vector seen is replaced exactly when the generation best has fewer bins, or as many and a lower fitness; its bin count never grows |
| Genetic.Record | Genetico.py:116-136 | the generation best's bin count joins the history, the best vector seen stays at or below every history entry, and the stop test is `Stops` |
| Genetic.NoStopStep | Genetico.py:128-136 | appending an entry keeps the prefixes that did not stop, and when the longer history does not stop, none of its prefixes does |
| Genetic.Generation | Genetico.py:99-136 | one round of the loop: the new population is `Step` of the old one, the history gains the new first fittest member's bin count, the best vector seen is replaced exactly when that member improves on it, the stop is exactly `Stops`, and the run so far is extended by this generation |
| Genetic.TraceSnoc | Genetico.py:98-119 | a run extended by the `Step` of its last population, with that population's best bin count recorded, is a run |
| Genetic.StepAtSnoc | Genetico.py:98-119 | a generation of a run stays the same generation when the run grows |
| Genetic.TraceStep | Genetico.py:101-119 | in a run, each generation starts with the first fittest member of the population before it, and the history holds the bin count of its own first fittest member |
| Genetic.BestSeen | Genetico.py:91-126 | the best vector seen over a run, from the first vector on, is a valid vector with at most as many bins as that first vector |
| Genetic.BestSeenSnoc | Genetico.py:121-126 | one more generation updates the best vector seen exactly by the rule of lines 122-126 |
| Genetic.BestSeenBound | Genetico.py:117-126 | the best vector seen has at most as many bins as the first fittest member of every generation |
| Genetic.FittestNeverWorse | Genetico.py:101-117 | over a run the fittest member's fitness never increases, from the start to any generation and from a generation to any later one |
| Genetic.RunSnoc | Genetico.py:98-126 | one more generation with the best vector seen updated keeps the loop state a run, with the current population the last one |
| Genetic.Evolve | Genetico.py:88-136 | the loop's populations, draw positions, history and best vector seen are a run from the start population (each generation `Step` of the one before, with elitism, and each history entry its generation's best bin count); the last population is the last generation; at most `generations` rounds, fewer only when the early stop fired at the last one and at no earlier one; the best vector seen has at most as many bins as every history entry |
| Genetic.FinalResult | Genetico.py:138-141 | the final vector is the first of least fitness in `[best_overall] + population`, so it is at least as fit as the best seen and as every member, and its decoded bins partition the items with one bin per label |
| Genetic.GeneticAlgorithm | Genetico.py:68-141 | `genetic_algorithm_bpp` starts from the random population, runs the generation loop as a run of `Step`s with the best vector seen given by `BestSeen`, and returns the first fittest of `[best_overall] + population`, decoded into a partition of the items with its bin count; the history obeys the early-stop rule, and no items give 0 bins |

## Left out

- Input and output, the `__main__` drivers, console printing and the
  matplotlib plot are not modelled.
- Python's `random` module (the Mersenne Twister seeded with `seed`) is
  replaced by the `Random` oracle: `pick(t, m)` is the draw from `[0, m)` at
  position `t`, and `chance(t)` says whether `random.random()` at position `t`
  falls below the mutation rate.
- `random.sample` is modelled as `k` draws, each from what remains of the
  pool. The exact way CPython maps its bits to sample positions is not
  modelled.
- Genetic.Draw: an oracle value outside `[0, m)` is read as 0. The random
  module never produces one.
- The mutation rate and `random.random()` are floats. They become the
  `chance` oracle, and no floating point is modelled.
- `math.ceil(a / b)` on floats becomes exact integer ceiling division. The
  two agree wherever the float division is exact.
- `float('inf')` as the initial incumbent becomes `None`.
- Every `min(..., key=fitness)` looks up fitness in the table
  `Scores(cap, items, pop)` rather than recomputing it per comparison:
  tournament selection scans the contenders' positions, and the elite
  choice and the generation best (`FirstMin`) scan every position. The
  table holds the same values as the source's `key=` lambda
  (`ScoresAreFitness`).
- Assignment.Decode, Evaluation.DecodeBins and Evaluation.Fitness require
  `|solution| <= |items|`. With a longer vector, `items[i]` raises
  `IndexError` (`Genetico.py:28` and `Genetico.py:40`), and that exception is
  not modelled.
- Genetic.Crossover, Genetic.CanBreed: vectors of length exactly 2 make
  `randint(1, 0)` raise. That case is a precondition instead of a modelled
  exception.
- Genetic.Mutation: a mutation that fires on an empty vector makes
  `randint(0, -1)` raise. This is excluded by precondition. With no items,
  the model therefore covers only the runs in which no mutation fires
  (`CanBreed`), and then it proves the result is 0 bins.
- Genetic.Breedable: a population of two makes `random.sample(pop, 3)`
  raise, and an empty one makes `min` raise. Both are excluded by
  precondition.
- Genetic.Evolve does not model the `generations` and `patience` defaults
  (500 and 50); they are parameters.
- BranchAndBound.OptimalPacking requires a positive capacity and every item
  in `[0, capacity]`. Negative or oversized items are not modelled for the
  exact solver.
- Running time is not modelled: branch and bound is exponential, and the
  genetic algorithm's cost grows with the population size and the number of
  generations.
- Integer widths are not modelled; Python integers are unbounded, as Dafny's
  are.
- The defensive copies `caja[:]` and `elite[:]` have no counterpart, because
  Dafny sequences are values. The in-place append/pop of the branch-and-bound
  search and the in-place mutation of `mutate` are kept.
