/**
 * The genetic algorithm's building blocks: random populations of assignment
 * vectors, tournament selection, one-point crossover and point mutation.
 * The random module is replaced by an explicit stream of draws.
 */
module Genetic {
  import opened Wrappers
  import opened Bins
  import opened Assignment
  import opened Evaluation

  /**
   * The random stream: `pick(t, m)` is the integer the random module draws
   * from [0, m) at position `t`, and `chance(t)` says whether the float drawn
   * at position `t` falls below the mutation rate. Every call into the
   * random module uses one position.
   */
  datatype Random = Random(pick: (nat, nat) -> nat, chance: nat -> bool)

  /**
   * The draw from [0, m) at position `t`. The random module never returns a
   * value outside the range; an oracle value that is outside it is read as 0.
   */
  function Draw(rng: Random, t: nat, m: nat): (r: nat)
    requires m > 0
    ensures r < m
    ensures rng.pick(t, m) < m ==> r == rng.pick(t, m)
  {
    var d := rng.pick(t, m);
    if d < m then d else 0
  }

  /** `random.randint(lo, hi)` at position `t`. */
  function RandInt(rng: Random, t: nat, lo: int, hi: int): (r: int)
    requires lo <= hi
    ensures lo <= r <= hi
  {
    lo + Draw(rng, t, hi - lo + 1)
  }

  /** A vector of `n` labels, each in [0, n - 1]. */
  predicate Chromosome(n: nat, s: seq<int>)
  {
    |s| == n && forall i :: 0 <= i < n ==> 0 <= s[i] < n
  }

  /** Every member is a vector of `n` labels in [0, n - 1]. */
  predicate Population(n: nat, pop: seq<seq<int>>)
  {
    forall p :: 0 <= p < |pop| ==> Chromosome(n, pop[p])
  }

  lemma {:induction false} PopulationSnoc(n: nat, pop: seq<seq<int>>, c: seq<int>)
    requires Population(n, pop) && Chromosome(n, c)
    ensures Population(n, pop + [c])
  {
    forall p | 0 <= p < |pop| + 1 ensures Chromosome(n, (pop + [c])[p]) {
      if p < |pop| {
        assert (pop + [c])[p] == pop[p];
      }
    }
  }

  /**
   * `generate_population`: `size` vectors of `n` labels drawn uniformly from
   * [0, n - 1], vector by vector, from position `t` on (`size * n` draws).
   */
  function GeneratePopulation(rng: Random, t: nat, n: nat, size: nat): (pop: seq<seq<int>>)
    ensures |pop| == size && Population(n, pop)
  {
    seq(size, p requires 0 <= p < size => RandomChromosome(rng, t + p * n, n))
  }

  /** One vector of `n` labels drawn from [0, n - 1], from position `t` on. */
  function RandomChromosome(rng: Random, t: nat, n: nat): (s: seq<int>)
    ensures Chromosome(n, s)
  {
    var s := seq(n, i requires 0 <= i < n => RandInt(rng, t + i, 0, n - 1));
    assert forall i :: 0 <= i < n ==> s[i] == RandInt(rng, t + i, 0, n - 1);
    s
  }

  /** Every member can be scored against `items`. */
  predicate Scorable(items: seq<int>, pop: seq<seq<int>>)
  {
    forall p :: 0 <= p < |pop| ==> |pop[p]| <= |items|
  }

  /**
   * `min(pop, key=fitness)`: the position of the first member of least
   * fitness.
   */
  function FirstMin(cap: int, items: seq<int>, pop: seq<seq<int>>): (k: nat)
    requires pop != [] && Scorable(items, pop)
    ensures k < |pop|
  {
    FirstMinAmong(Scores(cap, items, pop), Indices(|pop|))
  }

  /** `FirstMin` finds a member no other member is fitter than, and the first such one. */
  lemma {:induction false} FirstMinIsMin(cap: int, items: seq<int>, pop: seq<seq<int>>)
    requires pop != [] && Scorable(items, pop)
    ensures var k := FirstMin(cap, items, pop);
      (forall j :: 0 <= j < |pop| ==> FitnessOf(cap, items, pop[k]) <= FitnessOf(cap, items, pop[j])) &&
      (forall j :: 0 <= j < k ==> FitnessOf(cap, items, pop[k]) < FitnessOf(cap, items, pop[j]))
  {
    var scores, c := Scores(cap, items, pop), Indices(|pop|);
    var k := FirstMin(cap, items, pop);
    FirstMinAmongIsMin(scores, c);
    ScoresAreFitness(cap, items, pop);
    assert c[k] == k;
    forall j | 0 <= j < |pop|
      ensures FitnessOf(cap, items, pop[k]) <= FitnessOf(cap, items, pop[j])
    {
      assert c[j] == j && scores[c[k]] <= scores[c[j]];
    }
    forall j | 0 <= j < k
      ensures FitnessOf(cap, items, pop[k]) < FitnessOf(cap, items, pop[j])
    {
      assert c[j] == j && scores[c[k]] < scores[c[j]];
    }
  }

  /** `min(pop, key=fitness)`: the first member of least fitness. */
  function Fittest(cap: int, items: seq<int>, pop: seq<seq<int>>): (best: seq<int>)
    requires pop != [] && Scorable(items, pop)
    ensures best in pop
  {
    pop[FirstMin(cap, items, pop)]
  }

  /** No member of a population is fitter than its fittest member. */
  lemma {:induction false} FittestIsMin(cap: int, items: seq<int>, pop: seq<seq<int>>)
    requires pop != [] && Scorable(items, pop)
    ensures forall j :: 0 <= j < |pop| ==> FitnessOf(cap, items, Fittest(cap, items, pop)) <= FitnessOf(cap, items, pop[j])
  {
    FirstMinIsMin(cap, items, pop);
  }

  /** The positions `0, ..., m - 1`. */
  function Indices(m: nat): (r: seq<nat>)
    ensures |r| == m
    ensures forall i :: 0 <= i < m ==> r[i] == i
  {
    seq(m, i requires 0 <= i < m => i)
  }

  /**
   * `random.sample(pool, k)`: `k` picks without replacement, each drawn
   * from what is left of the pool.
   */
  function Sample(rng: Random, t: nat, pool: seq<nat>, k: nat): (r: seq<nat>)
    requires k <= |pool|
    ensures |r| == k
    decreases k, 1
  {
    if k == 0 then [] else Pick(rng, t, pool, k)
  }

  /**
   * One pick of `random.sample`: the entry at the position drawn at `t`,
   * then the remaining picks from the pool without it.
   */
  function Pick(rng: Random, t: nat, pool: seq<nat>, k: nat): (r: seq<nat>)
    requires 0 < k <= |pool|
    ensures |r| == k
    decreases k, 0
  {
    var j := Draw(rng, t, |pool|);
    [pool[j]] + Sample(rng, t + 1, pool[..j] + pool[j + 1..], k - 1)
  }

  /** Taking position `j` out of a distinct pool leaves a distinct pool without `pool[j]`. */
  lemma {:induction false} RemovedAbsent(pool: seq<nat>, j: nat)
    requires j < |pool|
    ensures forall x :: x in pool[..j] + pool[j + 1..] ==> x in pool
    ensures Distinct(pool) ==> Distinct(pool[..j] + pool[j + 1..]) && pool[j] !in pool[..j] + pool[j + 1..]
  {
    var left := pool[..j] + pool[j + 1..];
    assert forall i :: 0 <= i < |left| ==> left[i] == pool[if i < j then i else i + 1];
  }

  /** Every pick comes from the pool, and a pool without repeats gives picks without repeats. */
  lemma {:induction false} SampleFromPool(rng: Random, t: nat, pool: seq<nat>, k: nat)
    requires k <= |pool|
    ensures forall x :: x in Sample(rng, t, pool, k) ==> x in pool
    ensures Distinct(pool) ==> Distinct(Sample(rng, t, pool, k))
    decreases k
  {
    if k > 0 {
      var j := Draw(rng, t, |pool|);
      var left := pool[..j] + pool[j + 1..];
      var rest := Sample(rng, t + 1, left, k - 1);
      var r := Sample(rng, t, pool, k);
      assert r == Pick(rng, t, pool, k) == [pool[j]] + rest;
      SampleFromPool(rng, t + 1, left, k - 1);
      RemovedAbsent(pool, j);
      if Distinct(pool) {
        forall a, b | 0 <= a < b < |r| ensures r[a] != r[b] {
          assert r[b] == rest[b - 1];
          if a > 0 {
            assert r[a] == rest[a - 1];
          } else {
            assert rest[b - 1] in rest;
          }
        }
      }
    }
  }

  /** The `k` positions `random.sample` picks among `m`, from position `t` on. */
  function Contenders(rng: Random, t: nat, m: nat, k: nat): (c: seq<nat>)
    requires k <= m
    ensures |c| == k
    ensures forall j :: 0 <= j < k ==> c[j] < m
  {
    var c := Sample(rng, t, Indices(m), k);
    SampleFromPool(rng, t, Indices(m), k);
    assert forall j :: 0 <= j < k ==> c[j] in Indices(m);
    c
  }

  /** The contenders are `k` different members: sampling is without replacement. */
  lemma {:induction false} ContendersDistinct(rng: Random, t: nat, m: nat, k: nat)
    requires k <= m
    ensures Distinct(Contenders(rng, t, m, k))
  {
    var pool := Indices(m);
    assert Distinct(pool) by {
      forall a, b | 0 <= a < b < m ensures pool[a] != pool[b] {
      }
    }
    SampleFromPool(rng, t, pool, k);
  }

  /**
   * The fitness of each member, in order: the key by which `min(...,
   * key=fitness)` compares the members of `pop`.
   */
  function Scores(cap: int, items: seq<int>, pop: seq<seq<int>>): (s: seq<nat>)
    requires Scorable(items, pop)
    ensures |s| == |pop|
  {
    seq(|pop|, p requires 0 <= p < |pop| => FitnessOf(cap, items, pop[p]))
  }

  /** Each entry of the table is its member's fitness. */
  lemma ScoresAreFitness(cap: int, items: seq<int>, pop: seq<seq<int>>)
    requires Scorable(items, pop)
    ensures forall p :: 0 <= p < |pop| ==> Scores(cap, items, pop)[p] == FitnessOf(cap, items, pop[p])
  {
  }

  /**
   * The position in `c` of the first member of least fitness among the
   * members that `c` lists, `scores` giving each member's fitness:
   * `min(contenders, key=fitness)`.
   */
  function FirstMinAmong(scores: seq<nat>, c: seq<nat>): (w: nat)
    requires c != []
    requires forall j :: 0 <= j < |c| ==> c[j] < |scores|
    ensures w < |c|
    decreases |c|
  {
    if |c| == 1 then 0
    else
      var w' := FirstMinAmong(scores, c[1..]);
      if scores[c[0]] <= scores[c[1 + w']] then 0 else w' + 1
  }

  /**
   * The chosen contender is as fit as every contender, and fitter than
   * every contender listed before it.
   */
  lemma {:induction false} FirstMinAmongIsMin(scores: seq<nat>, c: seq<nat>)
    requires c != []
    requires forall j :: 0 <= j < |c| ==> c[j] < |scores|
    ensures var w := FirstMinAmong(scores, c);
      (forall j :: 0 <= j < |c| ==> scores[c[w]] <= scores[c[j]]) &&
      (forall j :: 0 <= j < w ==> scores[c[w]] < scores[c[j]])
    decreases |c|
  {
    if |c| > 1 {
      var w' := FirstMinAmong(scores, c[1..]);
      FirstMinAmongIsMin(scores, c[1..]);
      assert forall j :: 1 <= j < |c| ==> c[j] == c[1..][j - 1];
    }
  }

  /**
   * `selection`: sample `k` distinct members (from position `t` on, `k`
   * draws) and return the first of least fitness among them, `scores`
   * giving each member's fitness.
   */
  function Selection(rng: Random, t: nat, pop: seq<seq<int>>, scores: seq<nat>, k: nat): (winner: seq<int>)
    requires 1 <= k <= |pop| == |scores|
    ensures winner in pop
  {
    var c := Contenders(rng, t, |pop|, k);
    pop[c[FirstMinAmong(scores, c)]]
  }

  /** The winner is one of the contenders, and none of them is fitter. */
  lemma {:induction false} SelectionWins(rng: Random, t: nat, pop: seq<seq<int>>, scores: seq<nat>, k: nat)
    requires 1 <= k <= |pop| == |scores|
    ensures
      var c := Contenders(rng, t, |pop|, k);
      exists j :: 0 <= j < k && Selection(rng, t, pop, scores, k) == pop[c[j]] && forall i :: 0 <= i < k ==> scores[c[j]] <= scores[c[i]]
  {
    var c := Contenders(rng, t, |pop|, k);
    var w := FirstMinAmong(scores, c);
    FirstMinAmongIsMin(scores, c);
    assert Selection(rng, t, pop, scores, k) == pop[c[w]];
  }

  /**
   * With the population's own fitness table, the tournament winner is as
   * fit as every contender.
   */
  lemma {:induction false} SelectionFittest(rng: Random, t: nat, cap: int, items: seq<int>, pop: seq<seq<int>>, k: nat)
    requires 1 <= k <= |pop| && Scorable(items, pop)
    ensures
      var c := Contenders(rng, t, |pop|, k);
      var winner := Selection(rng, t, pop, Scores(cap, items, pop), k);
      forall i :: 0 <= i < k ==> FitnessOf(cap, items, winner) <= FitnessOf(cap, items, pop[c[i]])
  {
    var scores := Scores(cap, items, pop);
    var c := Contenders(rng, t, |pop|, k);
    SelectionWins(rng, t, pop, scores, k);
    var j :| 0 <= j < k && Selection(rng, t, pop, scores, k) == pop[c[j]] && forall i :: 0 <= i < k ==> scores[c[j]] <= scores[c[i]];
    ScoresAreFitness(cap, items, pop);
  }

  /**
   * The two children of a one-point crossover at `point`, with Python's
   * slicing (a slice bound beyond the end stops at the end).
   */
  function Cut(p1: seq<int>, p2: seq<int>, point: nat): (seq<int>, seq<int>)
    requires point <= |p1|
  {
    var q := if point <= |p2| then point else |p2|;
    (p1[..point] + p2[q..], p2[..q] + p1[point..])
  }

  /**
   * `crossover`: vectors shorter than 2 come back unchanged and use no
   * draw; otherwise the cut is drawn from [1, len - 2] at position `t`.
   * Returns both children and the next position. A length of 2 leaves
   * `randint(1, 0)` without a value, hence the precondition.
   */
  function Crossover(rng: Random, t: nat, p1: seq<int>, p2: seq<int>): (r: (seq<int>, seq<int>, nat))
    requires |p1| != 2
    ensures |p1| < 2 ==> r == (p1, p2, t)
    ensures |p1| > 2 ==> r.2 == t + 1
    ensures |p1| == |p2| ==> |r.0| == |p1| && |r.1| == |p1|
  {
    if |p1| < 2 then (p1, p2, t)
    else
      var point := RandInt(rng, t, 1, |p1| - 2);
      var (c1, c2) := Cut(p1, p2, point);
      (c1, c2, t + 1)
  }

  /** The cut point `Crossover` uses; short vectors count as cut at their end. */
  function CrossoverPoint(rng: Random, t: nat, len: nat): (k: nat)
    requires len != 2
    ensures len < 2 ==> k == len
    ensures len > 2 ==> 1 <= k <= len - 2
  {
    if len < 2 then len else RandInt(rng, t, 1, len - 2)
  }

  /**
   * Children of equal-length parents take every gene from one parent and
   * the other child the other parent's: the first child from `p1` before
   * the cut and from `p2` after it, the second child the other way round.
   */
  lemma {:induction false} CrossoverGenes(rng: Random, t: nat, p1: seq<int>, p2: seq<int>)
    requires |p1| == |p2| != 2
    ensures
      var r := Crossover(rng, t, p1, p2);
      var k := CrossoverPoint(rng, t, |p1|);
      forall i :: 0 <= i < |p1| ==>
        r.0[i] == (if i < k then p1[i] else p2[i]) && r.1[i] == (if i < k then p2[i] else p1[i])
  {
    var r := Crossover(rng, t, p1, p2);
    var k := CrossoverPoint(rng, t, |p1|);
    if |p1| >= 2 {
      assert (r.0, r.1) == Cut(p1, p2, k);
      forall i | 0 <= i < |p1|
        ensures r.0[i] == (if i < k then p1[i] else p2[i]) && r.1[i] == (if i < k then p2[i] else p1[i])
      {
        if i >= k {
          assert r.0[i] == p2[k..][i - k];
          assert r.1[i] == p1[k..][i - k];
        }
      }
    }
  }

  /** Crossing the children again at the same point gives back the parents. */
  lemma {:induction false} CutTwice(p1: seq<int>, p2: seq<int>, point: nat)
    requires point <= |p1| == |p2|
    ensures Cut(Cut(p1, p2, point).0, Cut(p1, p2, point).1, point) == (p1, p2)
  {
    var (c1, c2) := Cut(p1, p2, point);
    assert c1[..point] == p1[..point] && c1[point..] == p2[point..];
    assert c2[..point] == p2[..point] && c2[point..] == p1[point..];
    assert p1[..point] + p1[point..] == p1;
    assert p2[..point] + p2[point..] == p2;
  }

  /** Crossover of vectors of `n` labels in [0, n - 1] gives such vectors. */
  lemma {:induction false} CrossoverKeepsChromosome(rng: Random, t: nat, n: nat, p1: seq<int>, p2: seq<int>)
    requires n != 2 && Chromosome(n, p1) && Chromosome(n, p2)
    ensures Chromosome(n, Crossover(rng, t, p1, p2).0) && Chromosome(n, Crossover(rng, t, p1, p2).1)
  {
    CrossoverGenes(rng, t, p1, p2);
  }

  /**
   * What `mutate` does to a vector, with the next position: when the chance
   * at `t` fires, the label at a position drawn at `t + 1` becomes a label
   * drawn from [0, len - 1] at `t + 2`. Firing on an empty vector leaves
   * `randint(0, -1)` without a value, hence the precondition.
   */
  function Mutation(rng: Random, t: nat, s: seq<int>): (seq<int>, nat)
    requires |s| > 0 || !rng.chance(t)
  {
    if rng.chance(t) then
      var idx := RandInt(rng, t + 1, 0, |s| - 1);
      (s[idx := RandInt(rng, t + 2, 0, |s| - 1)], t + 3)
    else (s, t + 1)
  }

  /**
   * A mutation keeps the length, changes at most one position, and a
   * changed label lies in [0, len - 1]; so it keeps a chromosome one.
   */
  lemma {:induction false} MutationShape(rng: Random, t: nat, s: seq<int>)
    requires |s| > 0 || !rng.chance(t)
    ensures |Mutation(rng, t, s).0| == |s|
    ensures forall i, j :: 0 <= i < j < |s| ==> Mutation(rng, t, s).0[i] == s[i] || Mutation(rng, t, s).0[j] == s[j]
    ensures forall i :: 0 <= i < |s| && Mutation(rng, t, s).0[i] != s[i] ==> 0 <= Mutation(rng, t, s).0[i] < |s|
    ensures Chromosome(|s|, s) ==> Chromosome(|s|, Mutation(rng, t, s).0)
    ensures Mutation(rng, t, s).1 > t
  {
    var r := Mutation(rng, t, s).0;
    if rng.chance(t) {
      var idx := RandInt(rng, t + 1, 0, |s| - 1);
      assert forall i :: 0 <= i < |s| && i != idx ==> r[i] == s[i];
    }
  }

  /** `mutate`: the point mutation, in place on the vector. */
  method Mutate(solution: array<int>, rng: Random, t: nat) returns (t': nat)
    requires solution.Length > 0 || !rng.chance(t)
    modifies solution
    ensures (solution[..], t') == Mutation(rng, t, old(solution[..]))
  {
    if rng.chance(t) {
      var idx := RandInt(rng, t + 1, 0, solution.Length - 1);
      solution[idx] := RandInt(rng, t + 2, 0, solution.Length - 1);
      t' := t + 3;
    } else {
      t' := t + 1;
    }
  }

  /** Population sizes and instance lengths for which a generation can be bred. */
  ghost predicate Breedable(rng: Random, n: nat, size: nat)
  {
    size == 1 || CanBreed(rng, n, size)
  }

  /**
   * Reproduction needs three distinct tournament contenders, a cut range
   * [1, n - 2] that is not empty when the vectors are long enough to be cut,
   * and a position to mutate whenever a mutation fires.
   */
  ghost predicate CanBreed(rng: Random, n: nat, size: nat)
  {
    size >= 3 && n != 2 && (n >= 1 || forall t :: !rng.chance(t))
  }

  /** A fresh mutated copy of `c`, as `mutate` applies to a crossover child. */
  method MutatedChild(c: seq<int>, rng: Random, t: nat) returns (child: seq<int>, t': nat)
    requires |c| > 0 || !rng.chance(t)
    ensures (child, t') == Mutation(rng, t, c)
  {
    var a := new int[|c|](i requires 0 <= i < |c| => c[i]);
    assert a[..] == c;
    t' := Mutate(a, rng, t);
    child := a[..];
  }

  /**
   * Two tournament winners (positions `t` and `t + 3` on) crossed over at
   * position `t + 6`: the children of one round of reproduction.
   */
  function Offspring(rng: Random, t: nat, population: seq<seq<int>>, scores: seq<nat>, n: nat): (r: (seq<int>, seq<int>, nat))
    requires 3 <= |population| == |scores| && n != 2 && Population(n, population)
    ensures |r.0| == n && |r.1| == n && r.2 >= t + 6
  {
    var p1 := Selection(rng, t, population, scores, 3);
    var p2 := Selection(rng, t + 3, population, scores, 3);
    Crossover(rng, t + 6, p1, p2)
  }

  /** The children of two members of a population are vectors like theirs. */
  lemma {:induction false} OffspringChromosomes(rng: Random, t: nat, population: seq<seq<int>>, scores: seq<nat>, n: nat)
    requires 3 <= |population| == |scores| && n != 2 && Population(n, population)
    ensures Chromosome(n, Offspring(rng, t, population, scores, n).0)
    ensures Chromosome(n, Offspring(rng, t, population, scores, n).1)
  {
    var p1 := Selection(rng, t, population, scores, 3);
    var p2 := Selection(rng, t + 3, population, scores, 3);
    CrossoverKeepsChromosome(rng, t + 6, n, p1, p2);
  }

  /**
   * A population that starts with a copy of the old one's fittest member
   * is at least as fit at its best: the best fitness never worsens.
   */
  lemma {:induction false} ElitismKeepsBest(cap: int, items: seq<int>, pop: seq<seq<int>>, newPop: seq<seq<int>>)
    requires pop != [] && newPop != [] && Scorable(items, pop) && Scorable(items, newPop)
    requires newPop[0] == Fittest(cap, items, pop)
    ensures FitnessOf(cap, items, Fittest(cap, items, newPop)) <= FitnessOf(cap, items, Fittest(cap, items, pop))
  {
    assert FitnessOf(cap, items, Fittest(cap, items, newPop)) <= FitnessOf(cap, items, newPop[0]);
  }

  /** A population of vectors of `n` labels in [0, n - 1], with its fitness table. */
  predicate Parents(n: nat, population: seq<seq<int>>, scores: seq<nat>)
  {
    Population(n, population) && |scores| == |population|
  }

  /**
   * One pass of the reproduction loop from draw position `t` with `room`
   * free slots: two tournament winners are crossed over and the first child
   * is mutated and kept; the second child is mutated and kept too when
   * there is room for it. Returns the kept children and the position after
   * them.
   */
  function PassKids(rng: Random, t: nat, population: seq<seq<int>>, scores: seq<nat>, n: nat, room: nat)
    : (r: (seq<seq<int>>, nat))
    requires Parents(n, population, scores) && CanBreed(rng, n, |population|) && room > 0
    ensures |r.0| == if room == 1 then 1 else 2
  {
    var o := Offspring(rng, t, population, scores, n);
    var m1 := Mutation(rng, o.2, o.0);
    if room == 1 then ([m1.0], m1.1)
    else
      var m2 := Mutation(rng, m1.1, o.1);
      ([m1.0, m2.0], m2.1)
  }

  /**
   * The reproduction loop from draw position `t` on, with the children
   * `acc` already bred and `need` slots still free: passes until no slot is
   * left. Returns all the children and the position after them.
   */
  function Refill(rng: Random, t: nat, population: seq<seq<int>>, scores: seq<nat>, n: nat, acc: seq<seq<int>>, need: nat)
    : (r: (seq<seq<int>>, nat))
    requires Parents(n, population, scores) && (need > 0 ==> CanBreed(rng, n, |population|))
    ensures |r.0| == |acc| + need
    decreases need, 1
  {
    if need == 0 then (acc, t) else Pass(rng, t, population, scores, n, acc, need)
  }

  /** A pass of the reproduction loop, then the rest of the loop. */
  function Pass(rng: Random, t: nat, population: seq<seq<int>>, scores: seq<nat>, n: nat, acc: seq<seq<int>>, need: nat)
    : (r: (seq<seq<int>>, nat))
    requires Parents(n, population, scores) && CanBreed(rng, n, |population|) && need > 0
    ensures |r.0| == |acc| + need
    decreases need, 0
  {
    var k := PassKids(rng, t, population, scores, n, need);
    Refill(rng, k.1, population, scores, n, acc + k.0, need - |k.0|)
  }

  /**
   * The children and the position after them that the reproduction loop
   * yields from draw position `t` on, after `acc`, for `need` free slots.
   */
  function Bred(rng: Random, t: nat, population: seq<seq<int>>, scores: seq<nat>, n: nat, acc: seq<seq<int>>, need: nat)
    : (r: (seq<seq<int>>, nat))
    requires Parents(n, population, scores) && (need > 0 ==> CanBreed(rng, n, |population|))
    ensures |r.0| == |acc| + need
  {
    Refill(rng, t, population, scores, n, acc, need)
  }

  /** What is left of the loop after a pass is what was left before it. */
  lemma {:induction false} RefillStep(rng: Random, t: nat, population: seq<seq<int>>, scores: seq<nat>, n: nat, acc: seq<seq<int>>, need: nat)
    requires Parents(n, population, scores) && CanBreed(rng, n, |population|) && need > 0
    ensures Bred(rng, t, population, scores, n, acc, need)
      == Bred(rng, PassKids(rng, t, population, scores, n, need).1, population, scores, n,
              acc + PassKids(rng, t, population, scores, n, need).0, need - |PassKids(rng, t, population, scores, n, need).0|)
  {
    assert Bred(rng, t, population, scores, n, acc, need) == Pass(rng, t, population, scores, n, acc, need);
  }

  /** A pass bred from vectors of `n` labels in [0, n - 1] yields such vectors. */
  lemma {:induction false} PassKidsPopulation(rng: Random, t: nat, population: seq<seq<int>>, scores: seq<nat>, n: nat, room: nat)
    requires Parents(n, population, scores) && CanBreed(rng, n, |population|) && room > 0
    ensures Population(n, PassKids(rng, t, population, scores, n, room).0)
  {
    var o := Offspring(rng, t, population, scores, n);
    OffspringChromosomes(rng, t, population, scores, n);
    MutationShape(rng, o.2, o.0);
    var m1 := Mutation(rng, o.2, o.0);
    if room > 1 {
      MutationShape(rng, m1.1, o.1);
      PopulationPair(n, m1.0, Mutation(rng, m1.1, o.1).0);
    }
  }

  /** Every child bred from vectors of `n` labels in [0, n - 1] is such a vector. */
  lemma {:induction false} RefillPopulation(rng: Random, t: nat, population: seq<seq<int>>, scores: seq<nat>, n: nat, acc: seq<seq<int>>, need: nat)
    requires Parents(n, population, scores) && (need > 0 ==> CanBreed(rng, n, |population|))
    requires Population(n, acc)
    ensures Population(n, Refill(rng, t, population, scores, n, acc, need).0)
    decreases need
  {
    if need > 0 {
      var k := PassKids(rng, t, population, scores, n, need);
      assert Refill(rng, t, population, scores, n, acc, need) == Pass(rng, t, population, scores, n, acc, need);
      PassKidsPopulation(rng, t, population, scores, n, need);
      PopulationConcat(n, acc, k.0);
      RefillPopulation(rng, k.1, population, scores, n, acc + k.0, need - |k.0|);
    }
  }

  lemma {:induction false} PopulationPair(n: nat, a: seq<int>, b: seq<int>)
    requires Chromosome(n, a) && Chromosome(n, b)
    ensures Population(n, [a, b])
  {
    forall p | 0 <= p < 2 ensures Chromosome(n, [a, b][p]) {
    }
  }

  lemma {:induction false} PopulationConcat(n: nat, a: seq<seq<int>>, b: seq<seq<int>>)
    requires Population(n, a) && Population(n, b)
    ensures Population(n, a + b)
  {
    forall p | 0 <= p < |a + b| ensures Chromosome(n, (a + b)[p]) {
      if p >= |a| {
        assert (a + b)[p] == b[p - |a|];
      }
    }
  }

  /**
   * One generation as a value: a copy of the population's first fittest
   * member, then the children the reproduction loop breeds from draw
   * position `t` on, with the position after them.
   */
  function Step(rng: Random, t: nat, cap: int, items: seq<int>, population: seq<seq<int>>): (r: (seq<seq<int>>, nat))
    requires population != [] && Population(|items|, population) && Breedable(rng, |items|, |population|)
    ensures |r.0| == |population| && r.0[0] == Fittest(cap, items, population)
  {
    var bred := Bred(rng, t, population, Scores(cap, items, population), |items|, [], |population| - 1);
    ([Fittest(cap, items, population)] + bred.0, bred.1)
  }

  /**
   * One generation of `genetic_algorithm_bpp`: a copy of the first fittest
   * member, then children of tournament winners (crossed over, then
   * mutated) until the population is full again.
   */
  method NextGeneration(rng: Random, t: nat, population: seq<seq<int>>, items: seq<int>, cap: int)
    returns (newPop: seq<seq<int>>, t': nat)
    requires population != [] && Population(|items|, population)
    requires Breedable(rng, |items|, |population|)
    ensures |newPop| == |population| && Population(|items|, newPop)
    ensures (newPop, t') == Step(rng, t, cap, items, population)
  {
    PopulationScorable(items, population);
    var elite := population[FirstMin(cap, items, population)];
    var children;
    children, t' := Reproduce(rng, t, population, Scores(cap, items, population), |items|);
    newPop := [elite] + children;
    StepPopulation(rng, t, cap, items, population);
  }

  /** Every member of a generation bred from valid vectors is a valid vector. */
  lemma {:induction false} StepPopulation(rng: Random, t: nat, cap: int, items: seq<int>, population: seq<seq<int>>)
    requires population != [] && Population(|items|, population) && Breedable(rng, |items|, |population|)
    ensures Population(|items|, Step(rng, t, cap, items, population).0)
  {
    var scores := Scores(cap, items, population);
    var elite := Fittest(cap, items, population);
    var kids := Refill(rng, t, population, scores, |items|, [], |population| - 1).0;
    RefillPopulation(rng, t, population, scores, |items|, [], |population| - 1);
    PopulationConcat(|items|, [elite], kids);
    assert Step(rng, t, cap, items, population).0 == [elite] + kids;
  }

  /** The reproduction loop: passes until the members after the elite are bred. */
  method Reproduce(rng: Random, t: nat, population: seq<seq<int>>, scores: seq<nat>, n: nat)
    returns (children: seq<seq<int>>, t': nat)
    requires population != [] && Parents(n, population, scores) && Breedable(rng, n, |population|)
    ensures (children, t') == Bred(rng, t, population, scores, n, [], |population| - 1)
  {
    var size := |population|;
    children := [];
    t' := t;
    while 1 + |children| < size
      invariant |children| < size
      invariant Bred(rng, t', population, scores, n, children, size - 1 - |children|)
        == Bred(rng, t, population, scores, n, [], size - 1)
      decreases size - |children|
    {
      var kids, t2 := Breed(rng, t', population, scores, n, size - 1 - |children|);
      RefillStep(rng, t', population, scores, n, children, size - 1 - |children|);
      children := children + kids;
      t' := t2;
    }
  }

  /** One pass of the reproduction loop with `room` free slots, appending to fresh copies. */
  method Breed(rng: Random, t: nat, population: seq<seq<int>>, scores: seq<nat>, n: nat, room: nat)
    returns (kids: seq<seq<int>>, t': nat)
    requires Parents(n, population, scores) && CanBreed(rng, n, |population|) && room > 0
    ensures (kids, t') == PassKids(rng, t, population, scores, n, room)
  {
    var r := Offspring(rng, t, population, scores, n);
    var c1, t1 := MutatedChild(r.0, rng, r.2);
    if room == 1 {
      kids, t' := [c1], t1;
    } else {
      var c2, t2 := MutatedChild(r.1, rng, t1);
      kids, t' := [c1, c2], t2;
    }
  }

  /** The length of the run of equal entries that ends `h`. */
  function TrailingRun(h: seq<nat>): (r: nat)
    ensures r <= |h| && (h != [] ==> r >= 1)
    decreases |h|
  {
    if |h| <= 1 then |h|
    else if h[|h| - 1] == h[|h| - 2] then TrailingRun(h[..|h| - 1]) + 1
    else 1
  }

  /**
   * The run is exactly the maximal block of copies of the last entry at
   * the end of `h`.
   */
  lemma {:induction false} TrailingRunMeaning(h: seq<nat>)
    requires h != []
    ensures forall i :: |h| - TrailingRun(h) <= i < |h| ==> h[i] == h[|h| - 1]
    ensures TrailingRun(h) < |h| ==> h[|h| - TrailingRun(h) - 1] != h[|h| - 1]
    decreases |h|
  {
    if |h| > 1 && h[|h| - 1] == h[|h| - 2] {
      var pre := h[..|h| - 1];
      TrailingRunMeaning(pre);
      assert forall i :: 0 <= i < |pre| ==> pre[i] == h[i];
    }
  }

  /** One more entry extends the run when it repeats the last one, else starts a new run. */
  lemma {:induction false} TrailingRunSnoc(h: seq<nat>, x: nat)
    ensures TrailingRun(h + [x]) == if h != [] && x == h[|h| - 1] then TrailingRun(h) + 1 else 1
  {
    if h != [] {
      DropSnoc(h, x);
    }
  }

  /**
   * The early-stopping test after a generation whose history is `h`: the
   * generation best's bin count has not changed for `patience` generations
   * in a row (the counter is only compared with `patience` after a repeat).
   */
  predicate Stops(h: seq<nat>, patience: int)
  {
    TrailingRun(h) >= 2 && TrailingRun(h) - 1 >= patience
  }

  lemma {:induction false} PrefixesKept(h: seq<nat>, x: nat)
    ensures forall k :: 0 <= k <= |h| ==> (h + [x])[..k] == h[..k]
    ensures (h + [x])[..|h| + 1] == h + [x]
  {
    forall k | 0 <= k <= |h| ensures (h + [x])[..k] == h[..k] {
      assert forall i :: 0 <= i < k ==> (h + [x])[..k][i] == h[..k][i];
    }
  }

  /** Vectors of `|items|` labels can be scored against `items`. */
  lemma {:induction false} PopulationScorable(items: seq<int>, pop: seq<seq<int>>)
    requires Population(|items|, pop)
    ensures Scorable(items, pop)
  {
  }

  /** The fittest of a non-empty population of vectors is a vector. */
  lemma {:induction false} FittestChromosome(cap: int, items: seq<int>, pop: seq<seq<int>>)
    requires pop != [] && Population(|items|, pop)
    ensures Scorable(items, pop) && Chromosome(|items|, Fittest(cap, items, pop))
  {
    PopulationScorable(items, pop);
    var k := FirstMin(cap, items, pop);
    assert Chromosome(|items|, pop[k]);
  }

  /** The same, for a population with one more vector in front. */
  lemma {:induction false} PoolScorable(items: seq<int>, x: seq<int>, pop: seq<seq<int>>)
    requires Chromosome(|items|, x) && Population(|items|, pop)
    ensures Scorable(items, [x] + pop)
  {
    forall p | 0 <= p < |pop| + 1 ensures |([x] + pop)[p]| <= |items| {
      if p > 0 {
        assert ([x] + pop)[p] == pop[p - 1];
      }
    }
  }

  /** A bound below every history entry stays one when it drops to at most the new entry. */
  lemma {:induction false} BelowAll(h: seq<nat>, b: nat, x: nat, b': nat)
    requires forall k :: 0 <= k < |h| ==> b <= h[k]
    requires b' <= b && b' <= x
    ensures forall k :: 0 <= k < |h| + 1 ==> b' <= (h + [x])[k]
  {
  }

  /**
   * The last lines of `genetic_algorithm_bpp`: the fittest of the best
   * vector seen and the final population, decoded into bins.
   */
  method FinalResult(items: seq<int>, cap: int, overall: seq<int>, population: seq<seq<int>>)
    returns (count: nat, bins: seq<seq<int>>, best: seq<int>)
    requires Chromosome(|items|, overall) && Population(|items|, population)
    ensures Scorable(items, [overall] + population)
    ensures best == ([overall] + population)[FirstMin(cap, items, [overall] + population)]
    ensures Chromosome(|items|, best)
    ensures FitnessOf(cap, items, best) <= FitnessOf(cap, items, overall)
    ensures forall p :: 0 <= p < |population| ==> FitnessOf(cap, items, best) <= FitnessOf(cap, items, population[p])
    ensures bins == Decode(best, items) && count == |bins| == |Labels(best)|
    ensures multiset(Flatten(bins)) == multiset(items)
  {
    var finalPool := [overall] + population;
    PoolScorable(items, overall, population);
    var k := FirstMin(cap, items, finalPool);
    FirstMinIsMin(cap, items, finalPool);
    assert forall p :: 0 <= p < |population| ==> finalPool[p + 1] == population[p];
    best := finalPool[k];
    assert Chromosome(|items|, best) by {
      if k > 0 {
        assert best == population[k - 1];
      }
    }
    bins := DecodeBins(best, items);
    count := |bins|;
    LabelCount(best, items);
    DecodePartitions(best, items);
    assert items[..|best|] == items;
  }

  /**
   * Appending one entry to a history none of whose prefixes triggered the
   * early stop keeps those prefixes, and when the longer history does not
   * trigger it either, none of its prefixes does.
   */
  lemma {:induction false} NoStopStep(h: seq<nat>, x: nat, patience: int)
    requires forall k :: 0 < k <= |h| ==> !Stops(h[..k], patience)
    ensures forall k :: 0 < k <= |h| ==> !Stops((h + [x])[..k], patience)
    ensures !Stops(h + [x], patience) ==> forall k :: 0 < k <= |h| + 1 ==> !Stops((h + [x])[..k], patience)
  {
    PrefixesKept(h, x);
  }

  /** The test for replacing the best vector seen: fewer bins, or as many and a lower fitness. */
  predicate Improves(cap: int, items: seq<int>, cand: seq<int>, incumbent: seq<int>)
    requires |cand| <= |items| && |incumbent| <= |items|
  {
    |Labels(cand)| < |Labels(incumbent)| ||
    (|Labels(cand)| == |Labels(incumbent)| && FitnessOf(cap, items, cand) < FitnessOf(cap, items, incumbent))
  }

  /**
   * The global-best update of `genetic_algorithm_bpp`: the generation best
   * replaces the best vector seen only when it improves on it; the best
   * bin count never grows and is at most the generation best's.
   */
  method KeepBest(cap: int, items: seq<int>, overall: seq<int>, overallBins: nat, gen: seq<int>, genBins: nat)
    returns (overall': seq<int>, overallBins': nat)
    requires |overall| <= |items| && |gen| <= |items|
    requires overallBins == |Labels(overall)| && genBins == |Labels(gen)|
    ensures overall' == if Improves(cap, items, gen, overall) then gen else overall
    ensures overallBins' == |Labels(overall')|
    ensures overallBins' <= overallBins && overallBins' <= genBins
  {
    if genBins < overallBins || (genBins == overallBins && FitnessOf(cap, items, gen) < FitnessOf(cap, items, overall)) {
      overall', overallBins' := gen, genBins;
    } else {
      overall', overallBins' := overall, overallBins;
    }
  }

  /**
   * The early-stopping counter of `genetic_algorithm_bpp` after a
   * generation whose best has `x` bins, the earlier generations' counts
   * being `h`: any change resets the counter, a repeat advances it, and
   * `stop` says whether the loop ends here.
   */
  method CountStill(last: Option<nat>, counter: nat, x: nat, patience: int, ghost h: seq<nat>)
    returns (last': Option<nat>, counter': nat, stop: bool)
    requires last == if h == [] then None else Some(h[|h| - 1])
    requires h != [] ==> counter + 1 == TrailingRun(h)
    ensures last' == Some(x)
    ensures counter' + 1 == TrailingRun(h + [x])
    ensures (h == [] || x != h[|h| - 1]) ==> counter' == 0
    ensures stop <==> Stops(h + [x], patience)
  {
    TrailingRunSnoc(h, x);
    if last.None? || x != last.value {
      counter' := 0;
      last' := Some(x);
      stop := false;
    } else {
      counter' := counter + 1;
      last' := last;
      stop := counter' >= patience;
    }
  }

  /**
   * The bookkeeping after a generation: the bin count of the population's
   * first fittest member joins the history, the best vector seen is updated, and the
   * early-stopping counter moves on.
   */
  method Record(cap: int, items: seq<int>, patience: int, history: seq<nat>, overall: seq<int>, overallBins: nat,
                last: Option<nat>, counter: nat, population: seq<seq<int>>)
    returns (history': seq<nat>, overall': seq<int>, overallBins': nat, last': Option<nat>, counter': nat, stop: bool)
    requires population != [] && Population(|items|, population)
    requires Chromosome(|items|, overall) && overallBins == |Labels(overall)|
    requires forall k :: 0 <= k < |history| ==> overallBins <= history[k]
    requires last == if history == [] then None else Some(history[|history| - 1])
    requires history != [] ==> counter + 1 == TrailingRun(history)
    ensures history' == history + [|Labels(Fittest(cap, items, population))|]
    ensures overall' == if Improves(cap, items, Fittest(cap, items, population), overall)
                        then Fittest(cap, items, population) else overall
    ensures Chromosome(|items|, overall') && overallBins' == |Labels(overall')|
    ensures forall k :: 0 <= k < |history'| ==> overallBins' <= history'[k]
    ensures last' == Some(history'[|history|])
    ensures counter' + 1 == TrailingRun(history')
    ensures stop <==> Stops(history', patience)
  {
    PopulationScorable(items, population);
    var gen := Fittest(cap, items, population);
    var genBins := |Labels(gen)|;
    history' := history + [genBins];
    overall', overallBins' := KeepBest(cap, items, overall, overallBins, gen, genBins);
    BelowAll(history, overallBins, genBins, overallBins');
    last', counter', stop := CountStill(last, counter, genBins, patience, history);
  }

  /**
   * One round of the generation loop of `genetic_algorithm_bpp`: the next
   * population, its best member's bin count appended to the history, the
   * best vector seen and the count of generations without change updated,
   * and whether the loop stops early here. The ghost parameters are the run
   * so far, from `start` at draw position `t0`, whose last population is
   * `population`; this round extends it by one generation.
   */
  method Generation(items: seq<int>, cap: int, rng: Random, patience: int, population: seq<seq<int>>, t: nat,
                    history: seq<nat>, overall: seq<int>, overallBins: nat, last: Option<nat>, counter: nat,
                    ghost start: seq<seq<int>>, ghost t0: nat, ghost gens: seq<seq<seq<int>>>, ghost ts: seq<nat>, ghost first: seq<int>)
    returns (population': seq<seq<int>>, t': nat, history': seq<nat>, overall': seq<int>, overallBins': nat,
             last': Option<nat>, counter': nat, stop: bool)
    requires population != [] && Population(|items|, population) && Breedable(rng, |items|, |population|)
    requires Run(rng, cap, items, start, t0, gens, ts, history, population, t, first, overall)
    requires Chromosome(|items|, overall) && overallBins == |Labels(overall)|
    requires forall k :: 0 <= k < |history| ==> overallBins <= history[k]
    requires last == if history == [] then None else Some(history[|history| - 1])
    requires history != [] ==> counter + 1 == TrailingRun(history)
    requires forall k :: 0 < k <= |history| ==> !Stops(history[..k], patience)
    ensures |population'| == |population| && Population(|items|, population')
    ensures (population', t') == Step(rng, t, cap, items, population)
    ensures history' == history + [|Labels(Fittest(cap, items, population'))|]
    ensures overall' == if Improves(cap, items, Fittest(cap, items, population'), overall)
                        then Fittest(cap, items, population') else overall
    ensures Chromosome(|items|, overall') && overallBins' == |Labels(overall')|
    ensures forall k :: 0 <= k < |history'| ==> overallBins' <= history'[k]
    ensures last' == Some(history'[|history|])
    ensures counter' + 1 == TrailingRun(history')
    ensures stop <==> Stops(history', patience)
    ensures forall k :: 0 < k <= |history| ==> !Stops(history'[..k], patience)
    ensures !stop ==> forall k :: 0 < k <= |history'| ==> !Stops(history'[..k], patience)
    ensures Run(rng, cap, items, start, t0, gens + [population'], ts + [t'], history', population', t', first, overall')
  {
    population', t' := NextGeneration(rng, t, population, items, cap);
    history', overall', overallBins', last', counter', stop :=
      Record(cap, items, patience, history, overall, overallBins, last, counter, population');
    NoStopStep(history, history'[|history|], patience);
    PopulationScorable(items, population');
    RunSnoc(rng, cap, items, start, t0, gens, ts, history, population, t, first, overall, population', t', overall');
  }

  /** The population generation `g` of a run starts from: `start` for the first, else the one before. */
  function Before(start: seq<seq<int>>, gens: seq<seq<seq<int>>>, g: nat): seq<seq<int>>
    requires g <= |gens|
  {
    if g == 0 then start else gens[g - 1]
  }

  /** Generation `g` of `gens` is a non-empty population of vectors of `|items|` labels. */
  ghost predicate Ranked(items: seq<int>, gens: seq<seq<seq<int>>>, g: nat)
  {
    g < |gens| && gens[g] != [] && Population(|items|, gens[g]) && Scorable(items, gens[g])
  }

  /**
   * Generation `g` of a run from `start`: bred by `Step` from the population
   * before it at draw position `ts[g]`, leaving the position `ts[g + 1]`;
   * `history[g]` is the bin count of its first fittest member.
   */
  ghost predicate StepAt(rng: Random, cap: int, items: seq<int>, start: seq<seq<int>>,
                         gens: seq<seq<seq<int>>>, ts: seq<nat>, history: seq<nat>, g: nat)
  {
    g < |gens| && |ts| == |gens| + 1 && |history| == |gens| &&
    Before(start, gens, g) != [] && Population(|items|, Before(start, gens, g)) &&
    Breedable(rng, |items|, |Before(start, gens, g)|) &&
    (gens[g], ts[g + 1]) == Step(rng, ts[g], cap, items, Before(start, gens, g)) &&
    Ranked(items, gens, g) && history[g] == |Labels(Fittest(cap, items, gens[g]))|
  }

  /**
   * A run of the generation loop from the population `start` at draw
   * position `t`: `gens` are the populations it produces, each one `Step`
   * of the one before; `ts` the draw positions before each generation and
   * after the last; `history` the bin counts of the generations' first
   * fittest members.
   */
  ghost predicate Trace(rng: Random, cap: int, items: seq<int>, start: seq<seq<int>>, t: nat,
                        gens: seq<seq<seq<int>>>, ts: seq<nat>, history: seq<nat>)
  {
    start != [] && Population(|items|, start) && Breedable(rng, |items|, |start|) &&
    |gens| == |history| && |ts| == |gens| + 1 && ts[0] == t &&
    (forall g :: 0 <= g < |gens| ==> StepAt(rng, cap, items, start, gens, ts, history, g)) &&
    (forall g :: 0 <= g < |gens| ==> Ranked(items, gens, g))
  }

  /** A run extended by one more generation is a run. */
  lemma {:induction false} TraceSnoc(rng: Random, cap: int, items: seq<int>, start: seq<seq<int>>, t: nat,
                                     gens: seq<seq<seq<int>>>, ts: seq<nat>, history: seq<nat>, next: seq<seq<int>>, t': nat)
    requires Trace(rng, cap, items, start, t, gens, ts, history)
    requires Before(start, gens, |gens|) != [] && Population(|items|, Before(start, gens, |gens|))
    requires Breedable(rng, |items|, |Before(start, gens, |gens|)|)
    requires (next, t') == Step(rng, ts[|gens|], cap, items, Before(start, gens, |gens|))
    requires Population(|items|, next)
    ensures Trace(rng, cap, items, start, t, gens + [next], ts + [t'], history + [|Labels(Fittest(cap, items, next))|])
  {
    PopulationScorable(items, next);
    var gens', ts', history' := gens + [next], ts + [t'], history + [|Labels(Fittest(cap, items, next))|];
    forall g | 0 <= g < |gens'|
      ensures Ranked(items, gens', g) && StepAt(rng, cap, items, start, gens', ts', history', g)
    {
      if g < |gens| {
        assert Ranked(items, gens, g) && StepAt(rng, cap, items, start, gens, ts, history, g);
        StepAtSnoc(rng, cap, items, start, gens, ts, history, next, t', |Labels(Fittest(cap, items, next))|, g);
      } else {
        assert Before(start, gens', g) == Before(start, gens, g);
      }
    }
  }

  /** A generation of a run is still one after the run grows by another generation. */
  lemma {:induction false} StepAtSnoc(rng: Random, cap: int, items: seq<int>, start: seq<seq<int>>,
                                      gens: seq<seq<seq<int>>>, ts: seq<nat>, history: seq<nat>,
                                      next: seq<seq<int>>, t': nat, bins: nat, g: nat)
    requires Ranked(items, gens, g) && StepAt(rng, cap, items, start, gens, ts, history, g)
    ensures Ranked(items, gens + [next], g)
    ensures StepAt(rng, cap, items, start, gens + [next], ts + [t'], history + [bins], g)
  {
    var gens', ts', history' := gens + [next], ts + [t'], history + [bins];
    assert Before(start, gens', g) == Before(start, gens, g);
    assert gens'[g] == gens[g] && ts'[g + 1] == ts[g + 1] && ts'[g] == ts[g] && history'[g] == history[g];
  }

  /** Each generation of a run starts with the fittest member of the one before. */
  lemma {:induction false} TraceStep(rng: Random, cap: int, items: seq<int>, start: seq<seq<int>>, t: nat,
                                     gens: seq<seq<seq<int>>>, ts: seq<nat>, history: seq<nat>, g: nat)
    requires Trace(rng, cap, items, start, t, gens, ts, history) && g < |gens|
    ensures Before(start, gens, g) != [] && Scorable(items, Before(start, gens, g))
    ensures Ranked(items, gens, g) && gens[g][0] == Fittest(cap, items, Before(start, gens, g))
    ensures history[g] == |Labels(Fittest(cap, items, gens[g]))|
  {
    assert StepAt(rng, cap, items, start, gens, ts, history, g);
    PopulationScorable(items, Before(start, gens, g));
  }

  /**
   * The best vector seen after the generations `gens`, from `first` on:
   * each generation's first fittest member replaces it when it improves on
   * it. Its bin count is at most the first vector's.
   */
  function BestSeen(cap: int, items: seq<int>, first: seq<int>, gens: seq<seq<seq<int>>>): (best: seq<int>)
    requires Chromosome(|items|, first)
    requires forall g :: 0 <= g < |gens| ==> Ranked(items, gens, g)
    ensures Chromosome(|items|, best)
    ensures |Labels(best)| <= |Labels(first)|
    decreases |gens|
  {
    if gens == [] then first
    else
      var init, last := gens[..|gens| - 1], gens[|gens| - 1];
      assert Ranked(items, gens, |gens| - 1);
      assert forall g :: 0 <= g < |init| ==> Ranked(items, gens, g) && init[g] == gens[g];
      var prev := BestSeen(cap, items, first, init);
      FittestChromosome(cap, items, last);
      var cand := Fittest(cap, items, last);
      if Improves(cap, items, cand, prev) then cand else prev
  }

  /** One more generation updates the best vector seen by the rule of `KeepBest`. */
  lemma {:induction false} BestSeenSnoc(cap: int, items: seq<int>, first: seq<int>, gens: seq<seq<seq<int>>>, next: seq<seq<int>>)
    requires Chromosome(|items|, first)
    requires next != [] && Scorable(items, next)
    requires forall g :: 0 <= g < |gens| + 1 ==> Ranked(items, gens + [next], g)
    ensures forall g :: 0 <= g < |gens| ==> Ranked(items, gens, g)
    ensures BestSeen(cap, items, first, gens + [next])
      == if Improves(cap, items, Fittest(cap, items, next), BestSeen(cap, items, first, gens))
         then Fittest(cap, items, next) else BestSeen(cap, items, first, gens)
  {
    var gens' := gens + [next];
    forall g | 0 <= g < |gens| ensures Ranked(items, gens, g) {
      assert Ranked(items, gens', g) && gens'[g] == gens[g];
    }
    assert Ranked(items, gens', |gens|);
    assert gens'[..|gens|] == gens;
  }

  /** The best vector seen uses at most as many bins as the best of any generation of the run. */
  lemma {:induction false} BestSeenBound(cap: int, items: seq<int>, first: seq<int>, gens: seq<seq<seq<int>>>, g: nat)
    requires Chromosome(|items|, first)
    requires forall g :: 0 <= g < |gens| ==> Ranked(items, gens, g)
    requires g < |gens|
    ensures Ranked(items, gens, g)
    ensures |Labels(BestSeen(cap, items, first, gens))| <= |Labels(Fittest(cap, items, gens[g]))|
    decreases |gens|
  {
    var init := gens[..|gens| - 1];
    assert Ranked(items, gens, |gens| - 1);
    assert forall k :: 0 <= k < |init| ==> Ranked(items, gens, k) && init[k] == gens[k];
    if g < |gens| - 1 {
      BestSeenBound(cap, items, first, init, g);
    }
  }

  /**
   * Elitism over a whole run: the fittest member's fitness never increases,
   * from the starting population to any generation, nor from a generation
   * to a later one.
   */
  lemma {:induction false} FittestNeverWorse(rng: Random, cap: int, items: seq<int>, start: seq<seq<int>>, t: nat,
                                             gens: seq<seq<seq<int>>>, ts: seq<nat>, history: seq<nat>, i: nat, j: nat)
    requires Trace(rng, cap, items, start, t, gens, ts, history) && i <= j < |gens|
    ensures Ranked(items, gens, i) && Ranked(items, gens, j) && Scorable(items, start)
    ensures FitnessOf(cap, items, Fittest(cap, items, gens[j])) <= FitnessOf(cap, items, Fittest(cap, items, gens[i]))
    ensures FitnessOf(cap, items, Fittest(cap, items, gens[j])) <= FitnessOf(cap, items, Fittest(cap, items, start))
    decreases j
  {
    var before := Before(start, gens, j);
    TraceStep(rng, cap, items, start, t, gens, ts, history, j);
    ElitismKeepsBest(cap, items, before, gens[j]);
    if j > 0 {
      FittestNeverWorse(rng, cap, items, start, t, gens, ts, history, if i < j then i else j - 1, j - 1);
    }
  }

  /**
   * The state of the generation loop after the generations `gens` of a run
   * from `start`: the current population is the last one, `t'` the next draw
   * position, and `overall` the best vector seen from `first` on.
   */
  ghost predicate Run(rng: Random, cap: int, items: seq<int>, start: seq<seq<int>>, t: nat, gens: seq<seq<seq<int>>>,
                      ts: seq<nat>, history: seq<nat>, current: seq<seq<int>>, t': nat, first: seq<int>, overall: seq<int>)
  {
    Trace(rng, cap, items, start, t, gens, ts, history) &&
    current == Before(start, gens, |gens|) && t' == ts[|gens|] &&
    Chromosome(|items|, first) && overall == BestSeen(cap, items, first, gens)
  }

  /** One more generation, with the best vector seen updated by the rule of `KeepBest`, keeps the loop state. */
  lemma {:induction false} RunSnoc(rng: Random, cap: int, items: seq<int>, start: seq<seq<int>>, t: nat, gens: seq<seq<seq<int>>>,
                                   ts: seq<nat>, history: seq<nat>, current: seq<seq<int>>, t': nat, first: seq<int>, overall: seq<int>,
                                   next: seq<seq<int>>, t2: nat, overall': seq<int>)
    requires Run(rng, cap, items, start, t, gens, ts, history, current, t', first, overall)
    requires current != [] && Population(|items|, current) && Breedable(rng, |items|, |current|)
    requires (next, t2) == Step(rng, t', cap, items, current)
    requires Population(|items|, next) && Scorable(items, next)
    requires overall' == if Improves(cap, items, Fittest(cap, items, next), overall) then Fittest(cap, items, next) else overall
    ensures Run(rng, cap, items, start, t, gens + [next], ts + [t2], history + [|Labels(Fittest(cap, items, next))|],
                next, t2, first, overall')
  {
    TraceSnoc(rng, cap, items, start, t, gens, ts, history, next, t2);
    BestSeenSnoc(cap, items, first, gens, next);
  }

  /**
   * The generation loop of `genetic_algorithm_bpp`, from `population` and
   * draw position `t` on: up to `generations` generations with elitism,
   * tracking the best vector seen (fewer bins, or as many bins and lower
   * fitness) and stopping early once the generation best's bin count has
   * stood still for `patience` generations. Returns the last population,
   * the generation bests' bin counts and the best vector seen; `gens` and
   * `ts` are the run's populations and draw positions.
   */
  method Evolve(items: seq<int>, cap: int, generations: nat, rng: Random, patience: int, population: seq<seq<int>>, t: nat)
    returns (population': seq<seq<int>>, t': nat, history: seq<nat>, overall: seq<int>,
             ghost gens: seq<seq<seq<int>>>, ghost ts: seq<nat>)
    requires population != [] && Population(|items|, population) && Breedable(rng, |items|, |population|)
    ensures Scorable(items, population)
    ensures Run(rng, cap, items, population, t, gens, ts, history, population', t', Fittest(cap, items, population), overall)
    ensures |population'| == |population| && Population(|items|, population')
    ensures |history| <= generations
    ensures |history| < generations ==> Stops(history, patience)
    ensures forall g :: 0 < g < |history| ==> !Stops(history[..g], patience)
    ensures forall g :: 0 <= g < |history| ==> |Labels(overall)| <= history[g]
  {
    var n := |items|;
    population', t' := population, t;
    history, gens, ts := [], [], [t];
    PopulationScorable(items, population);
    overall := Fittest(cap, items, population);
    var bestBinsOverall := |Labels(overall)|;
    var lastBestBins: Option<nat> := None;
    var gensWithoutChange: nat := 0;
    for g := 0 to generations
      invariant |history| == g
      invariant Run(rng, cap, items, population, t, gens, ts, history, population', t', Fittest(cap, items, population), overall)
      invariant |population'| == |population| && Population(n, population')
      invariant bestBinsOverall == |Labels(overall)|
      invariant forall k :: 0 <= k < g ==> bestBinsOverall <= history[k]
      invariant lastBestBins == if g == 0 then None else Some(history[g - 1])
      invariant g > 0 ==> gensWithoutChange + 1 == TrailingRun(history)
      invariant forall k :: 0 < k <= g ==> !Stops(history[..k], patience)
    {
      var stop, next, t2;
      next, t2, history, overall, bestBinsOverall, lastBestBins, gensWithoutChange, stop :=
        Generation(items, cap, rng, patience, population', t', history, overall, bestBinsOverall, lastBestBins, gensWithoutChange,
                   population, t, gens, ts, Fittest(cap, items, population));
      gens, ts := gens + [next], ts + [t2];
      population', t' := next, t2;
      if stop {
        break;
      }
    }
  }

  /**
   * `genetic_algorithm_bpp`, drawing from `rng` from position 0 on: a random
   * population, the generation loop, and finally the fittest of the best
   * vector seen and the last population, decoded. `initial` is the random
   * population, `gens` and `ts` the run's populations and draw positions,
   * and `overall` the best vector seen, as the loop leaves it.
   */
  method GeneticAlgorithm(items: seq<int>, cap: int, size: nat, generations: nat, rng: Random, patience: int)
    returns (count: nat, bins: seq<seq<int>>, best: seq<int>, history: seq<nat>,
             ghost initial: seq<seq<int>>, ghost gens: seq<seq<seq<int>>>, ghost ts: seq<nat>, ghost overall: seq<int>)
    requires size >= 1 && Breedable(rng, |items|, size)
    ensures initial == GeneratePopulation(rng, 0, |items|, size)
    ensures Trace(rng, cap, items, initial, size * |items|, gens, ts, history)
    ensures overall == BestSeen(cap, items, Fittest(cap, items, initial), gens)
    ensures Scorable(items, [overall] + Before(initial, gens, |gens|))
    ensures best == ([overall] + Before(initial, gens, |gens|))[FirstMin(cap, items, [overall] + Before(initial, gens, |gens|))]
    ensures Chromosome(|items|, best)
    ensures bins == Decode(best, items) && count == |bins| == |Labels(best)|
    ensures multiset(Flatten(bins)) == multiset(items)
    ensures items == [] ==> count == 0 && bins == []
    ensures |history| <= generations
    ensures |history| < generations ==> Stops(history, patience)
    ensures forall g :: 0 < g < |history| ==> !Stops(history[..g], patience)
    ensures FitnessOf(cap, items, best) <= FitnessOf(cap, items, overall)
    ensures forall g :: 0 <= g < |history| ==> |Labels(overall)| <= history[g]
  {
    var n := |items|;
    var start := GeneratePopulation(rng, 0, n, size);
    initial := start;
    var population, t', bestOverall;
    population, t', history, bestOverall, gens, ts := Evolve(items, cap, generations, rng, patience, start, size * n);
    count, bins, best := FinalResult(items, cap, bestOverall, population);
    overall := bestOverall;
  }
}
