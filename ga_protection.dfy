/**
 * The genetic search (`GAProtection.cpp`): fixed pools of individuals
 * (parents, mating pair, offspring, clones), selection, crossover, mutation,
 * replacement, the termination rule, the scheduling of remote solver runs
 * in `evaluate_fitness`, and the generation that `protect` runs, together
 * with the seeding and first evaluations its two constructors share.
 *
 * Every `random()` draw is a parameter (a `Generation` for one run of
 * `protect`, a `Start` for a constructor), the replies of the remote solver
 * service come from an `Oracle` parameter, and the loops that need not end
 * carry fuel.
 */
module GAProtections {
  import opened Common
  import opened Evaluations
  import opened EvaluationCaches
  import opened Genomes
  import opened DistancePreserving
  import opened Selections
  import opened Scheduling
  import opened Individuals
  import opened Replacements
  import opened PoolGrowth
  import opened FitnessEvaluation
  import opened FitnessLoops

  const TruncationSelection: int := 0
  const TournamentSelection: int := 1
  const ProportionateSelection: int := 2

  const PartiallyMappedCrossover: int := 0
  const EdgeCrossover: int := 1
  const OrderedCrossover: int := 2
  const CycleCrossover: int := 3
  const DistancePreservingCrossover: int := 4

  const SwapMutationType: int := 0
  const InsertMutationType: int := 1
  const InversionMutationType: int := 2
  const ScrambleMutationType: int := 3
  const AssortedMutationType: int := 4


  /**
   * The evaluation cap of `allocate_pools`: the running product 2 * 3 * ...
   * stops as soon as it passes MAX_EVALUATIONS, and the cap is the smaller
   * of the product and MAX_EVALUATIONS, that is min(N!, 1000).
   */
  method EvaluationCap(n: nat) returns (m: int)
    ensures m == MaxEvaluations(n)
  {
    var p := 1;
    var i := 2;
    while i <= n
      invariant 2 <= i <= Max(n + 1, 2)
      invariant p == Factorial(i - 1) && p <= MaxEvaluationsLimit
    {
      p := p * i;
      if p > MaxEvaluationsLimit {
        FactorialMonotone(i, n);
        assert Factorial(n) > MaxEvaluationsLimit;
        break;
      }
      i := i + 1;
    }
    m := Min(p, MaxEvaluationsLimit);
  }

  /** Every gene names a cell of the table: `valid_mating`'s test. */
  predicate GenesIn(g: seq<int>, ncells: int)
  {
    forall k :: 0 <= k < |g| ==> 0 <= g[k] < ncells
  }

  /** How `crossover_partially_mapped` ends for the search. */
  function PmxEnded(p: PmxOutcome): (outcome: Outcome)
    ensures outcome.Finished? <==> p.Offspring?
  {
    match p
    case Offspring(_) => Finished
    case PmxGeneMissing => Failed(1)
    case PmxUnfinished => FuelExhausted
  }

  /**
   * What `apply_crossover` makes of two valid mating parents: the outcome
   * and, when it is Finished, the genome of the single offspring. A draw of
   * at least RECOMBINATION_PROBABILITY clones parent 1; otherwise the
   * configured crossover runs on the cut points lo < hi. Edge and cycle
   * crossover are fatal errors.
   */
  function Recombined(algorithm: int, p1: seq<int>, p2: seq<int>, recombine: real, lo: int, hi: int, fuel: nat): (r: (Outcome, seq<int>))
    requires |p1| == |p2| && 0 <= lo < hi < |p1|
    ensures r.0.Finished? ==> |r.1| == |p1|
  {
    if recombine >= RecombinationProbability then (Finished, p1)
    else if algorithm == PartiallyMappedCrossover then
      var p := Pmx(p1, p2, lo, hi, fuel);
      (PmxEnded(p), if p.Offspring? then p.genes else p1)
    else if algorithm == OrderedCrossover then
      var r := OrderCrossover(p1, p2, lo, hi);
      (if -1 in r then Failed(1) else Finished, r)
    else if algorithm == DistancePreservingCrossover then
      var d := Dpx(p1, p2);
      (if d.Ok? then Finished else Failed(1), if d.Ok? then d.value else p1)
    else (Failed(1), p1)
  }

  /**
   * With the crossover the search is configured with (order crossover), two
   * parents that are orderings of the same distinct genes always recombine
   * into a further ordering of those genes that keeps parent 1's segment.
   */
  lemma OrderRecombinationKeepsGenes(p1: seq<int>, p2: seq<int>, recombine: real, lo: int, hi: int, fuel: nat)
    requires |p1| == |p2| && 0 <= lo < hi < |p1|
    requires Distinct(p1) && multiset(p1) == multiset(p2) && -1 !in p1
    ensures var r := Recombined(OrderedCrossover, p1, p2, recombine, lo, hi, fuel);
            r.0 == Finished && multiset(r.1) == multiset(p1) &&
            forall k :: lo <= k <= hi ==> r.1[k] == p1[k]
  {
    if recombine < RecombinationProbability {
      OrderCrossoverTheorem(p1, p2, lo, hi);
    }
  }

  /**
   * A pool of `size` fresh individuals of n genes. The source leaves their
   * genes uninitialised; the model starts them at 0, with no costs and a
   * fitness of 0.
   */
  method BlankPool(size: nat, n: nat) returns (pool: array<Individual>)
    ensures fresh(pool) && pool.Length == size && Shaped(pool[..], n)
    ensures forall k :: 0 <= k < size ==> pool[k] == Individual(seq(n, _ => 0), [], 0.0)
  {
    var blank := Individual(seq(n, _ => 0), [], 0.0);
    pool := new Individual[size](_ => blank);
    assert forall k :: 0 <= k < size ==> pool[..][k] == blank;
  }

  /**
   * The mutation of kind `kind` applied to a whole genome at rate `rate`:
   * swap, insert, inversion or scramble. Any other kind leaves the genome
   * alone (`apply_mutation`'s default case).
   */
  function Mutated(kind: int, g: seq<int>, d: seq<GeneDraw>, rate: real): (r: seq<int>)
    requires ScrambleDrawn(d, |g|)
    ensures |r| == |g| && multiset(r) == multiset(g)
  {
    if kind == SwapMutationType then SwapMutation(g, d, rate, |g|)
    else if kind == InsertMutationType then InsertMutation(g, d, rate, |g|)
    else if kind == InversionMutationType then InversionMutation(g, d, rate, |g|)
    else if kind == ScrambleMutationType then ScrambleMutation(g, d, rate, |g|)
    else g
  }

  /** `mutation_type` after `apply_mutation` has advanced it s times from m, one step of `(m + 1) % 4` at a time. */
  function CycleAt(m: int, s: nat): (c: int)
    requires 0 <= m < 4
    ensures 0 <= c < 4
  {
    if s == 0 then m else (CycleAt(m, s - 1) + 1) % 4
  }

  /** Advancing the cycle s times from m is adding s modulo 4. */
  lemma {:induction false} CycleAtMod(m: int, s: nat)
    requires 0 <= m < 4
    ensures CycleAt(m, s) == (m + s) % 4
  {
    if s > 0 {
      CycleAtMod(m, s - 1);
      CycleStep(m + s - 1);
    }
  }

  /**
   * The kind of mutation the `step`-th rate-limited clone receives: the
   * configured one, or with assorted mutation the cycle swap, insert,
   * inversion, scramble continued from `mutationType`.
   */
  function KindFor(algorithm: int, mutationType: int, step: int): (kind: int)
    requires 0 <= mutationType < 4 && 0 <= step
    ensures algorithm == AssortedMutationType ==> 0 <= kind < 4
    ensures 0 <= algorithm < AssortedMutationType ==> kind == algorithm
  {
    if algorithm == AssortedMutationType then CycleAt(mutationType, step)
    else if 0 <= algorithm < AssortedMutationType then algorithm
    else -1
  }

  /**
   * What `apply_mutation` makes of the genome g of clone c, one of the
   * default clones: the first `randomClones` clones are swap-mutated at
   * rate 1, the others receive their kind of mutation at `rate`.
   */
  function MutatedClone(algorithm: int, mutationType: int, randomClones: int, c: int, g: seq<int>, d: seq<GeneDraw>, rate: real): (r: seq<int>)
    requires 0 <= mutationType < 4 && 0 <= c && ScrambleDrawn(d, |g|)
    ensures |r| == |g| && multiset(r) == multiset(g)
    ensures c < randomClones ==> r == SwapMutation(g, d, 1.0, |g|)
  {
    if c < randomClones then SwapMutation(g, d, 1.0, |g|)
    else Mutated(KindFor(algorithm, mutationType, c - randomClones), g, d, rate)
  }

  /** Scramble draws for each of the first k clones' genomes of n genes. */
  predicate DrawnFor(draws: seq<seq<GeneDraw>>, k: int, n: int)
    decreases k
  {
    0 <= k <= |draws| && (k == 0 || (DrawnFor(draws, k - 1, n) && ScrambleDrawn(draws[k - 1], n)))
  }

  /** Draws for k clones are draws for any fewer, and clone c below k has its own. */
  lemma {:induction false} DrawnPrefix(draws: seq<seq<GeneDraw>>, c: int, k: int, n: int)
    requires DrawnFor(draws, k, n) && 0 <= c <= k
    ensures DrawnFor(draws, c, n) && (c < k ==> ScrambleDrawn(draws[c], n))
    decreases k
  {
    if c < k {
      DrawnPrefix(draws, c, k - 1, n);
    }
  }

  /**
   * The clone pool after `apply_mutation` has mutated its first k clones,
   * each of n genes, with the draws `draws`.
   */
  function MutatedPool(before: seq<Individual>, n: nat, algorithm: int, m0: int, randomClones: int, k: int, draws: seq<seq<GeneDraw>>, rate: real): (pool: seq<Individual>)
    requires Shaped(before, n) && 0 <= m0 < 4 && 0 <= k <= |before| && DrawnFor(draws, k, n)
    ensures |pool| == |before|
    decreases k
  {
    if k == 0 then before
    else
      var pool := MutatedPool(before, n, algorithm, m0, randomClones, k - 1, draws, rate);
      pool[k - 1 := before[k - 1].(genes := MutatedClone(algorithm, m0, randomClones, k - 1, before[k - 1].genes, draws[k - 1], rate))]
  }

  /**
   * After k clones are mutated, clone c below k holds its mutated genome
   * (a reordering of its genes, with its costs and fitness kept) and every
   * other clone is as it was.
   */
  lemma {:induction false} MutatedPoolAt(before: seq<Individual>, n: nat, algorithm: int, m0: int, randomClones: int, k: int, draws: seq<seq<GeneDraw>>, rate: real, c: int)
    requires Shaped(before, n) && 0 <= m0 < 4 && 0 <= k <= |before| && DrawnFor(draws, k, n)
    requires 0 <= c < |before| && (c < k ==> ScrambleDrawn(draws[c], n))
    ensures var pool := MutatedPool(before, n, algorithm, m0, randomClones, k, draws, rate);
            pool[c] == if c < k then before[c].(genes := MutatedClone(algorithm, m0, randomClones, c, before[c].genes, draws[c], rate)) else before[c]
    ensures var pool := MutatedPool(before, n, algorithm, m0, randomClones, k, draws, rate);
            multiset(pool[c].genes) == multiset(before[c].genes) && |pool[c].genes| == n
    decreases k
  {
    if k > 0 {
      MutatedPoolAt(before, n, algorithm, m0, randomClones, k - 1, draws, rate, c);
    }
  }

  /** Mutation keeps every clone's genome at n genes and leaves its costs alone. */
  lemma MutatedPoolShaped(before: seq<Individual>, n: nat, algorithm: int, m0: int, randomClones: int, k: int, draws: seq<seq<GeneDraw>>, rate: real)
    requires Shaped(before, n) && 0 <= m0 < 4 && 0 <= k <= |before| && DrawnFor(draws, k, n)
    ensures Shaped(MutatedPool(before, n, algorithm, m0, randomClones, k, draws, rate), n)
  {
    var pool := MutatedPool(before, n, algorithm, m0, randomClones, k, draws, rate);
    forall c | 0 <= c < |pool|
      ensures |pool[c].genes| == n && |pool[c].costs| <= n
    {
      if c < k {
        DrawnPrefix(draws, c, k, n);
      }
      MutatedPoolAt(before, n, algorithm, m0, randomClones, k, draws, rate, c);
    }
  }

  /** Clone k is still as it was once the clones before it are mutated. */
  lemma MutatedPoolPending(before: seq<Individual>, n: nat, algorithm: int, m0: int, randomClones: int, k: int, draws: seq<seq<GeneDraw>>, rate: real)
    requires Shaped(before, n) && 0 <= m0 < 4 && 0 <= k < |before| && DrawnFor(draws, k + 1, n)
    ensures MutatedPool(before, n, algorithm, m0, randomClones, k, draws, rate)[k] == before[k]
  {
    MutatedPoolAt(before, n, algorithm, m0, randomClones, k, draws, rate, k);
  }

  /** Advancing the assorted cycle by one from step x gives step x + 1. */
  lemma CycleStep(x: int)
    requires 0 <= x
    ensures (x % 4 + 1) % 4 == (x + 1) % 4
  {
    var q := x / 4;
    assert x == 4 * q + x % 4;
    if x % 4 == 3 {
      assert x + 1 == 4 * (q + 1);
    } else {
      assert x + 1 == 4 * q + (x % 4 + 1);
    }
  }

  /** A mutation of a genome whose genes all differ keeps them all different. */
  lemma MutationKeepsDistinct(kind: int, g: seq<int>, d: seq<GeneDraw>, rate: real)
    requires ScrambleDrawn(d, |g|) && Distinct(g)
    ensures Distinct(Mutated(kind, g, d, rate))
  {
    PermutationDistinct(g, Mutated(kind, g, d, rate));
  }

  /**
   * `mutation_insert`'s shifting loops at gene i with partner j: the gene
   * at j is moved beside i and the genes between shift by one place.
   */
  method InsertShift(g: seq<int>, i: int, j: int) returns (r: seq<int>)
    requires 0 <= i < |g| && 0 <= j < |g| && i != j
    ensures r == InsertMove(g, i, j)
  {
    InsertMoveProperties(g, i, j);
    var gene := g[j];
    r := g;
    if i < j {
      var k := j;
      while k > i + 1
        invariant i + 1 <= k <= j && |r| == |g|
        invariant forall p :: k < p <= j ==> r[p] == g[p - 1]
        invariant forall p :: 0 <= p < |g| && (p <= k || j < p) ==> r[p] == g[p]
      {
        r := r[k := r[k - 1]];
        k := k - 1;
      }
      r := r[i + 1 := gene];
    } else {
      var k := j;
      while k < i - 1
        invariant j <= k <= i - 1 && |r| == |g|
        invariant forall p :: j <= p < k ==> r[p] == g[p + 1]
        invariant forall p :: 0 <= p < |g| && (k <= p || p < j) ==> r[p] == g[p]
      {
        r := r[k := r[k + 1]];
        k := k + 1;
      }
      r := r[i - 1 := gene];
    }
    assert forall p :: 0 <= p < |g| ==> r[p] == InsertMove(g, i, j)[p];
  }

  /**
   * `mutation_scramble`'s inner loop: one exchange per pair of draws, of
   * the positions `lo + (int)(r * width)` the pair picks.
   */
  method ScrambleRange(g: seq<int>, lo: int, width: nat, pairs: seq<(real, real)>) returns (r: seq<int>)
    requires 0 <= lo && lo + width <= |g| && 0 < width && PairsIn(pairs)
    ensures r == ScrambleSwaps(g, lo, width, Offsets(pairs, width), |pairs|)
  {
    r := g;
    var k := 0;
    while k < |pairs|
      invariant 0 <= k <= |pairs| && r == ScrambleSwaps(g, lo, width, Offsets(pairs, width), k)
    {
      ScrambleStep(g, lo, width, pairs, k);
      r := Swap(r, lo + Index(pairs[k].0, width), lo + Index(pairs[k].1, width));
      k := k + 1;
    }
  }

  /**
   * The three loops of `get_fittest_clone` over the clones' fitnesses f:
   * the first least fitness, how many clones share it, and the pick among
   * them by the draw r.
   */
  method FittestIn(f: seq<real>, r: real) returns (res: Result<int>)
    requires 1 <= |f| && 0.0 <= r <= 1.0
    ensures res == FittestClone(f, r)
  {
    var fittest := LeastFitnessAt(f);
    var bestFitness := f[fittest];
    var fittestClones := CountFitness(f, bestFitness);
    if fittestClones == 1 {
      return Ok(fittest);
    }
    res := PickFitness(f, bestFitness, Index(r, fittestClones));
  }

  /** `get_fittest_clone`'s first loop: the first position of least fitness. */
  method LeastFitnessAt(f: seq<real>) returns (fittest: nat)
    requires 1 <= |f|
    ensures fittest == FirstMinimum(f, |f|)
  {
    var bestFitness := f[0];
    fittest := 0;
    var i := 1;
    while i < |f|
      invariant 1 <= i <= |f|
      invariant fittest == FirstMinimum(f, i) && bestFitness == f[fittest]
    {
      if f[i] < bestFitness {
        bestFitness := f[i];
        fittest := i;
      }
      i := i + 1;
    }
  }

  /** `get_fittest_clone`'s second loop: how many clones have fitness best. */
  method CountFitness(f: seq<real>, best: real) returns (n: nat)
    ensures n == Count(f, best)
  {
    n := 0;
    var i := 0;
    while i < |f|
      invariant 0 <= i <= |f|
      invariant n == Count(f[..i], best)
    {
      CountPrefix(f, i + 1, best);
      if f[i] == best {
        n := n + 1;
      }
      i := i + 1;
    }
    assert f[..|f|] == f;
  }

  /**
   * `get_fittest_clone`'s last loop: the position of the clone of fitness
   * best numbered `selection` (from 0); running out of them is the fatal
   * error 1.
   */
  method PickFitness(f: seq<real>, best: real, selection: nat) returns (res: Result<int>)
    ensures res == if selection < Count(f, best) then Ok(IndicesOf(f, best)[selection]) else Err(1)
  {
    var n := 0;
    var i := 0;
    while i < |f|
      invariant 0 <= i <= |f|
      invariant n == Count(f[..i], best) && n <= selection
    {
      CountPrefix(f, i + 1, best);
      if f[i] == best {
        if n == selection {
          IndicesOfExtends(f, i + 1, best);
          return Ok(i);
        }
        n := n + 1;
      }
      i := i + 1;
    }
    assert f[..|f|] == f;
    return Err(1);
  }

  /** `mutation_inversion`'s inner loop: (hi - lo) / 2 exchanges of lo + k with hi - k. */
  method InvertRange(g: seq<int>, lo: int, hi: int) returns (r: seq<int>)
    requires 0 <= lo < hi < |g|
    ensures r == InversionSwaps(g, lo, hi, (hi - lo) / 2)
  {
    r := g;
    var k := 0;
    while k < (hi - lo) / 2
      invariant 0 <= k <= (hi - lo) / 2 && r == InversionSwaps(g, lo, hi, k)
    {
      r := Swap(r, lo + k, hi - k);
      k := k + 1;
    }
  }

  /** The loop of `mutation_swap` over a genome. */
  method SwapGenes(g: seq<int>, rate: real, d: seq<GeneDraw>) returns (r: seq<int>)
    requires PartnersIn(d, |g|)
    ensures r == SwapMutation(g, d, rate, |g|)
  {
    r := g;
    var i := 0;
    while i < |g|
      invariant 0 <= i <= |g| && r == SwapMutation(g, d, rate, i)
    {
      if d[i].test <= rate {
        var j := d[i].partner;
        var gene := r[i];
        r := r[i := r[j]][j := gene];
      }
      i := i + 1;
    }
  }

  /** The loop of `mutation_insert` over a genome. */
  method InsertGenes(g: seq<int>, rate: real, d: seq<GeneDraw>) returns (r: seq<int>)
    requires PartnersIn(d, |g|)
    ensures r == InsertMutation(g, d, rate, |g|)
  {
    r := g;
    var i := 0;
    while i < |g|
      invariant 0 <= i <= |g| && r == InsertMutation(g, d, rate, i)
    {
      if d[i].test <= rate {
        r := InsertShift(r, i, d[i].partner);
      }
      i := i + 1;
    }
  }

  /** The loop of `mutation_scramble` over a genome. */
  method ScrambleGenes(g: seq<int>, rate: real, d: seq<GeneDraw>) returns (r: seq<int>)
    requires ScrambleDrawn(d, |g|)
    ensures r == ScrambleMutation(g, d, rate, |g|)
  {
    r := g;
    var i := 0;
    while i < |g|
      invariant 0 <= i <= |g| && r == ScrambleMutation(g, d, rate, i)
    {
      ScrambleMutationStep(g, d, rate, i);
      if d[i].test <= rate {
        var j := d[i].partner;
        var lo, hi := Min(i, j), Max(i, j);
        r := ScrambleRange(r, lo, hi - lo, d[i].pairs);
      }
      i := i + 1;
    }
  }

  /** The loop of `mutation_inversion` over a genome. */
  method InvertGenes(g: seq<int>, rate: real, d: seq<GeneDraw>) returns (r: seq<int>)
    requires PartnersIn(d, |g|)
    ensures r == InversionMutation(g, d, rate, |g|)
  {
    r := g;
    var i := 0;
    while i < |g|
      invariant 0 <= i <= |g| && r == InversionMutation(g, d, rate, i)
    {
      if d[i].test <= rate {
        var j := d[i].partner;
        r := InvertRange(r, Min(i, j), Max(i, j));
      }
      i := i + 1;
    }
  }

  /** `apply_mutation`'s switch on the kind of mutation, for one genome. */
  method MutateGenes(kind: int, g: seq<int>, rate: real, d: seq<GeneDraw>) returns (r: seq<int>)
    requires ScrambleDrawn(d, |g|)
    ensures r == Mutated(kind, g, d, rate)
  {
    if kind == SwapMutationType {
      r := SwapGenes(g, rate, d);
    } else if kind == InsertMutationType {
      r := InsertGenes(g, rate, d);
    } else if kind == InversionMutationType {
      r := InvertGenes(g, rate, d);
    } else if kind == ScrambleMutationType {
      r := ScrambleGenes(g, rate, d);
    } else {
      r := g;
    }
  }

  /**
   * The duplicate marking of `solvers_required` and `evaluate_fitness`:
   * every uncached individual equal to an earlier uncached one loses its
   * mark, so exactly the individuals needing a solver stay marked.
   */
  method MarkDuplicates(keys: seq<Key>, uncached: seq<bool>, ghost cached: set<Key>) returns (marked: seq<bool>)
    requires |uncached| == |keys| && forall j :: 0 <= j < |keys| ==> uncached[j] == (keys[j] !in cached)
    ensures |marked| == |keys| && forall j :: 0 <= j < |keys| ==> marked[j] == NeedsSolver(keys, cached, j)
  {
    var n := |keys|;
    marked := uncached;
    var i := 0;
    while i < n
      invariant 0 <= i <= n && |marked| == n
      invariant forall q :: 0 <= q < n ==> marked[q] == (uncached[q] && FreshUpTo(keys, q, i))
    {
      if uncached[i] {
        var j := i + 1;
        while j < n
          invariant i + 1 <= j <= n && |marked| == n
          invariant forall q :: 0 <= q < n ==> marked[q] == (uncached[q] && FreshUpTo(keys, q, if q < j then i + 1 else i))
        {
          if uncached[j] && marked[j] && keys[j] == keys[i] {
            marked := marked[j := false];
          }
          j := j + 1;
        }
      }
      i := i + 1;
    }
    forall q | 0 <= q < n
      ensures marked[q] == NeedsSolver(keys, cached, q)
    {
      if keys[q] in keys[..q] {
        var p :| 0 <= p < q && keys[..q][p] == keys[q];
        assert !FreshUpTo(keys, q, n);
      }
    }
  }

  /** The count of `solvers_required`: how many members stay marked. */
  method CountMarked(keys: seq<Key>, marked: seq<bool>, ghost cached: set<Key>) returns (count: int)
    requires |marked| == |keys| && forall j :: 0 <= j < |keys| ==> marked[j] == NeedsSolver(keys, cached, j)
    ensures count == Required(keys, cached)
  {
    count := 0;
    var i := 0;
    while i < |keys|
      invariant 0 <= i <= |keys| && count == Required(keys[..i], cached)
    {
      RequiredOfPrefix(keys, cached, i + 1);
      if marked[i] {
        count := count + 1;
      }
      i := i + 1;
    }
    assert keys[..|keys|] == keys;
  }

  /** `fill_parent_pool`'s shuffle of one genome, gene by gene. */
  method ShuffleGenes(g: seq<int>, ks: seq<int>) returns (r: seq<int>)
    requires PositionsIn(ks, |g|)
    ensures r == Shuffled(g, ks, |g|)
  {
    r := g;
    var j := 0;
    while j < |g|
      invariant 0 <= j <= |g| && r == Shuffled(g, ks, j)
    {
      r := Swap(r, j, ks[j]);
      j := j + 1;
    }
  }

  /** The reversed seed of parent 1, gene by gene. */
  method ReverseGenes(g: seq<int>) returns (r: seq<int>)
    ensures r == Reversed(g)
  {
    r := [];
    var i := 0;
    while i < |g|
      invariant 0 <= i <= |g| && |r| == i
      invariant forall k :: 0 <= k < i ==> r[k] == g[|g| - 1 - k]
    {
      r := r + [g[|g| - i - 1]];
      i := i + 1;
    }
  }

  /**
   * The draws and server replies of one offspring of `protect`: the
   * mutation draws, the draws of `grow_clones_pool`, the replies to the
   * clones' evaluation and the replacement draw.
   */
  datatype Brood = Brood(mutation: seq<seq<GeneDraw>>, growth: seq<seq<GeneDraw>>, replies: Oracle, replace: real)

  /**
   * The draws and server replies of one call of `protect`: the tournament
   * draws and the two draws of proportionate selection, the recombination
   * draw and cut points of `apply_crossover` with the fuel of PMX, one brood
   * per offspring, the replies to the best parent's evaluation, and the
   * passes each evaluation loop may make.
   */
  datatype Generation = Generation(selection: seq<(real, real)>, r0: real, r1: real,
                                   recombine: real, cut1: int, cut2: int, fuel: nat,
                                   broods: seq<Brood>, best: Oracle, rounds: nat)

  /** Draws in range for a genome of n genes and `clones` default clones, and replies of the service. */
  ghost predicate DrawnGeneration(d: Generation, n: nat, clones: int)
  {
    |d.selection| == PoolMatingSize &&
    (forall i :: 0 <= i < |d.selection| ==> 0.0 <= d.selection[i].0 <= 1.0 && 0.0 <= d.selection[i].1 <= 1.0) &&
    0 <= d.cut1 < n && 0 <= d.cut2 < n && d.cut1 != d.cut2 &&
    |d.broods| == PoolOffspringSize && Answers(d.best, n) &&
    forall i :: 0 <= i < |d.broods| ==> DrawnBrood(d.broods[i], n, clones)
  }

  ghost predicate DrawnBrood(b: Brood, n: nat, clones: int)
  {
    DrawnFor(b.mutation, clones, n) && AllPartners(b.growth, n) && Answers(b.replies, n) && 0.0 <= b.replace <= 1.0
  }

  /**
   * What a constructor draws and hears once the pools are allocated: the
   * shuffles of `fill_parent_pool`, the server's replies to the parents'
   * evaluation and to the best parent's, and the polling rounds allowed to
   * each.
   */
  datatype Start = Start(fill: seq<seq<int>>, replies: Oracle, best: Oracle, rounds: nat)

  /** The draws are positions of an n-gene genome and every completed solver reports at most n costs. */
  ghost predicate Drawn(s: Start, n: nat)
  {
    AllPositions(s.fill, n) && Answers(s.replies, n) && Answers(s.best, n)
  }

  /**
   * A seed of distinct genes and its reverse, under an empty cache: each
   * needs a solver of its own, unless the single gene makes them equal.
   */
  lemma SeedsRequired(seed: seq<int>, model: int)
    requires Distinct(seed) && 1 <= |seed|
    ensures Required([Key(model, seed), Key(model, Reversed(seed))], {}) == if |seed| == 1 then 1 else 2
  {
    var keys := [Key(model, seed), Key(model, Reversed(seed))];
    assert keys[..1] == [keys[0]] && keys[..1][..0] == [];
    if |seed| >= 2 {
      assert Reversed(seed)[0] != seed[0];
    } else {
      assert Reversed(seed) == seed;
    }
  }

  /**
   * Filling a pool seeded with a seed and its reverse, under an empty
   * cache: there is room for every solver the fill may need, the two
   * seeds stay, and every live member remains an ordering of the seed.
   */
  lemma SeededFill(pool: seq<Individual>, draws: seq<seq<int>>, model: int, seed: seq<int>, target: int)
    requires Shaped(pool, |seed|) && |pool| == PoolParentSize && 1 <= |seed| && Distinct(seed)
    requires AllPositions(draws, |seed|) && 1 <= target <= |pool| && (|seed| == 1 ==> target == 1)
    requires pool[0].genes == seed && pool[1].genes == Reversed(seed) && AllOrderings(pool[..target], seed)
    ensures var s0 := Required(PoolKeys(pool[..2], model, |seed|), {});
            s0 < target ==> target + (2 - s0) <= |pool|
    ensures var r := ParentsFilled(Begun(pool, 2, model, |seed|, {}), draws, model, |seed|, {}, target);
            r.pool[0] == pool[0] && r.pool[1] == pool[1] && AllOrderings(r.pool[..target], seed)
    ensures var r := ParentsFilled(Begun(pool, 2, model, |seed|, {}), draws, model, |seed|, {}, target);
            r.solvers >= target ==> Required(PoolKeys(r.pool[..target], model, |seed|), {}) == target
  {
    var n := |seed|;
    assert PoolKeys(pool[..2], model, n) == [Key(model, seed), Key(model, Reversed(seed))] by {
      assert pool[0].genes[..n] == seed && pool[1].genes[..n] == Reversed(seed);
    }
    SeedsRequired(seed, model);
    var g := Begun(pool, 2, model, n, {});
    ParentsFilledKeeps(g, draws, model, n, {}, target);
    var r := ParentsFilled(g, draws, model, n, {}, target);
    forall k | 0 <= k < target ensures multiset(r.pool[..target][k].genes) == multiset(seed) {
      assert r.pool[..target][k] == r.pool[k] && pool[..target][k] == pool[k];
    }
    if r.solvers >= target {
      if target == 1 {
        var keys := PoolKeys(r.pool[..1], model, n);
        assert keys[..0] == [];
      } else {
        FilledParentsDistinct(g, draws, model, n, {}, target);
        assert r.pool[..r.used] == r.pool[..target];
      }
    }
  }

  /** What a call keeps of its individuals, what it counts, and what it asks of the server. */
  lemma EvaluatedCounts(o: Oracle, c: Call, pool: seq<Individual>, entries: map<Key, Entry>, removed: seq<string>,
                        evals: int, counted: int, rounds: nat)
    requires Answers(o, c.genomeSize) && Shaped(pool, c.genomeSize) && CostsWithin(entries, c.genomeSize)
    ensures var p := Evaluated(o, c, pool, entries, removed, evals, counted, rounds);
            var required := Required(PoolKeys(pool, c.model, c.genomeSize), entries.Keys);
            p.outcome.Finished? ==>
              (forall i :: 0 <= i < |pool| ==> p.run.pool[i].genes == pool[i].genes) &&
              p.run.evals == evals + required &&
              p.run.counted == counted + (if c.countEvals then required else 0) &&
              forall j :: 0 <= j < |p.run.issued| ==>
                p.run.issued[j].protection == c.protection && p.run.issued[j].model == c.model &&
                p.run.issued[j].maxCost == c.maxCost
  {
    EvaluatedSound(o, c, pool, entries, removed, evals, counted, rounds);
  }

  /**
   * What evaluating a single individual x leaves: its fitness is the one
   * the cache holds for its key, a cached key is not evaluated again, and
   * every run requested is for x's genes with the call's settings.
   */
  lemma EvaluatedFacts(o: Oracle, c: Call, x: Individual, entries: map<Key, Entry>, removed: seq<string>,
                       evals: int, counted: int, rounds: nat)
    requires Answers(o, c.genomeSize) && |x.genes| == c.genomeSize && |x.costs| <= c.genomeSize && CostsWithin(entries, c.genomeSize)
    ensures var p := Evaluated(o, c, [x], entries, removed, evals, counted, rounds);
            var key := Key(c.model, x.genes);
            p.outcome.Finished? ==>
              key in p.run.entries && p.run.pool[0].fitness == p.run.entries[key].fitness &&
              (key in entries ==> p.run.entries == entries && p.run.issued == []) &&
              p.run.evals == evals + (if key in entries then 0 else 1) &&
              p.run.counted == counted + (if c.countEvals && key !in entries then 1 else 0) &&
              forall j :: 0 <= j < |p.run.issued| ==>
                p.run.issued[j].genes == x.genes && p.run.issued[j].model == c.model &&
                p.run.issued[j].protection == c.protection && p.run.issued[j].maxCost == c.maxCost
  {
    var pool := [x];
    var keys := PoolKeys(pool, c.model, c.genomeSize);
    var key := Key(c.model, x.genes);
    assert x.genes[..c.genomeSize] == x.genes && keys == [key];
    EvaluatedSound(o, c, pool, entries, removed, evals, counted, rounds);
    var p := Evaluated(o, c, pool, entries, removed, evals, counted, rounds);
    assert keys[..0] == [];
    assert Required(keys, entries.Keys) == if key in entries then 0 else 1 by {
      assert NeedsSolver(keys, entries.Keys, 0) <==> key !in entries;
    }
    if key in entries {
      NothingToSolve(o, c, pool, entries, removed, evals, counted, rounds);
    }
    if p.outcome.Finished? {
      assert GenesOf(pool) == [x.genes];
    }
  }

  class GAProtection {
    /** `number_of_genes`: the genome length. */
    const numberOfGenes: nat
    /** `jjData->ncells`: genes must be below it for a mating to be valid. */
    const ncells: int
    const cores: int
    const runElimination: bool
    /** `injjfilename`: the table's JJ file, the input of every YPLUS_MODEL run. */
    const inJJFileName: string
    /** `max_seconds` and `start_seconds`: the time limit and when the search started. */
    const maxSeconds: int
    const startSeconds: int

    const algorithmForSelection: int
    const algorithmForCrossover: int
    const algorithmForMutation: int
    const algorithmForReplacement: int

    const maxEvaluations: int
    const defaultNumberOfClones: int
    const poolClonesSize: int

    const poolParent: array<Individual>
    const poolMating: array<Individual>
    const poolOffspring: array<Individual>
    const poolClones: array<Individual>

    const cache: EvaluationCache

    var poolParentSize: int
    var numberOfOffspring: int
    var mutationType: int
    var replaceNext: int
    /** `number_of_evals`: every solver run; `number_of_counted_evals`: those counted against the cap. */
    var numberOfEvals: int
    var numberOfCountedEvals: int
    var stableFitness: real
    var stableGenerations: int
    var terminated: bool

    ghost predicate Valid()
      reads this, poolParent, poolMating, poolOffspring, poolClones, cache, cache.requests, cache.hits, cache.misses
    {
      Pooled() && Counting() && CostsWithin(cache.entries, numberOfGenes)
    }

    /** The cache can be queried for this genome length. */
    ghost predicate Counting()
      reads this, cache, cache.requests, cache.hits, cache.misses
    {
      cache.Valid() && cache.genomeSize == numberOfGenes
    }

    /** The pools have their sizes and every individual in them has the genome length. */
    ghost predicate Pooled()
      reads this, poolParent, poolMating, poolOffspring, poolClones
    {
      Settled() &&
      Shaped(poolParent[..], numberOfGenes) && Shaped(poolMating[..], numberOfGenes) &&
      Shaped(poolOffspring[..], numberOfGenes) && Shaped(poolClones[..], numberOfGenes)
    }

    /** The pools' sizes and the bounds on the counters, which read no pool contents. */
    ghost predicate Settled()
      reads this
    {
      poolParent != poolMating && poolParent != poolOffspring && poolParent != poolClones &&
      poolMating != poolOffspring && poolMating != poolClones && poolOffspring != poolClones &&
      poolParent.Length == (if numberOfGenes > 0 then PoolParentSize else 0) &&
      poolMating.Length == (if numberOfGenes > 0 then PoolMatingSize else 0) &&
      poolOffspring.Length == (if numberOfGenes > 0 then PoolOffspringSize else 0) &&
      poolClones.Length == poolClonesSize &&
      0 <= poolParentSize <= poolParent.Length && (numberOfGenes > 0 ==> 1 <= poolParentSize) &&
      0 <= defaultNumberOfClones && poolClonesSize == 2 * defaultNumberOfClones &&
      0 <= replaceNext && (replaceNext < poolParentSize || replaceNext == 0) &&
      0 <= numberOfOffspring <= PoolOffspringSize &&
      0 <= mutationType < 4 &&
      0 <= algorithmForCrossover <= DistancePreservingCrossover
    }

    /**
     * The constructor followed by `allocate_pools`, for a genome of
     * `numberOfGenes` genes and the number of cores the handshake with the
     * server settled on (`CoresToUse`). With no genes every pool is empty.
     * The genes of a fresh individual are not initialised by the source;
     * the model starts them at 0.
     */
    constructor (numberOfGenes: nat, ncells: int, cores: int, maxSeconds: int, startSeconds: int, runElimination: bool,
                 inJJFileName: string)
      requires numberOfGenes > 0 ==> 2 <= cores <= PoolParentSize
      ensures Valid()
      ensures fresh(poolParent) && fresh(poolMating) && fresh(poolOffspring) && fresh(poolClones)
      ensures fresh(cache) && fresh(cache.requests) && fresh(cache.hits) && fresh(cache.misses)
      ensures this.numberOfGenes == numberOfGenes && this.ncells == ncells && this.cores == cores
      ensures this.runElimination == runElimination && this.inJJFileName == inJJFileName
      ensures numberOfGenes == 0 ==> maxEvaluations == 0 && poolParentSize == 0 && defaultNumberOfClones == 0
      ensures numberOfGenes > 0 ==>
                var sizes := SizesFor(numberOfGenes, cores);
                maxEvaluations == sizes.maxEvaluations && poolParentSize == sizes.parents &&
                defaultNumberOfClones == sizes.defaultClones && poolClonesSize == sizes.clones
      ensures algorithmForSelection == TournamentSelection && algorithmForCrossover == OrderedCrossover
      ensures algorithmForMutation == AssortedMutationType && algorithmForReplacement == TournamentReplacement
      ensures mutationType == SwapMutationType && replaceNext == 0 && numberOfOffspring == 0
      ensures numberOfEvals == 0 && numberOfCountedEvals == 0
      ensures stableFitness == DblMax && stableGenerations == 0 && !terminated
      ensures cache.entries == map[] && cache.removedFiles == []
      ensures Configured()
    {
      this.numberOfGenes := numberOfGenes;
      this.ncells := ncells;
      this.cores := cores;
      this.maxSeconds := maxSeconds;
      this.startSeconds := startSeconds;
      this.runElimination := runElimination;
      this.inJJFileName := inJJFileName;
      algorithmForSelection := TournamentSelection;
      algorithmForCrossover := OrderedCrossover;
      algorithmForMutation := AssortedMutationType;
      algorithmForReplacement := TournamentReplacement;
      mutationType := SwapMutationType;
      replaceNext := 0;
      numberOfOffspring := 0;
      numberOfEvals := 0;
      numberOfCountedEvals := 0;
      stableFitness := DblMax;
      stableGenerations := 0;
      terminated := false;
      var parents, mating, offspring, clones;
      if numberOfGenes == 0 {
        maxEvaluations := 0;
        poolParentSize := 0;
        defaultNumberOfClones := 0;
        poolClonesSize := 0;
        parents := BlankPool(0, 0);
        mating := BlankPool(0, 0);
        offspring := BlankPool(0, 0);
        clones := BlankPool(0, 0);
      } else {
        var m := EvaluationCap(numberOfGenes);
        maxEvaluations := m;
        SizesFit(numberOfGenes, cores);
        poolParentSize := Min(cores, m);
        defaultNumberOfClones := Min(cores, m - Min(cores, m));
        poolClonesSize := 2 * Min(cores, m - Min(cores, m));
        parents := BlankPool(PoolParentSize, numberOfGenes);
        mating := BlankPool(PoolMatingSize, numberOfGenes);
        offspring := BlankPool(PoolOffspringSize, numberOfGenes);
        clones := BlankPool(2 * Min(cores, m - Min(cores, m)), numberOfGenes);
      }
      poolParent, poolMating, poolOffspring, poolClones := parents, mating, offspring, clones;
      cache := new EvaluationCache(numberOfGenes);
    }

    // -------------------------------------------------------------------
    // Fitness evaluation
    // -------------------------------------------------------------------

    /**
     * `evaluate_fitness(n, pool, protection_type, model_type, _, count_evals,
     * max_cost)` with the server's replies given by `o`: the first n
     * individuals of `pool` end as `Evaluated` leaves them, with the cache
     * and both evaluation counters, and `issued` holds the runs requested
     * of the server. A solver's JJ file is kept in the cache under
     * YPLUS_MODEL or when elimination runs.
     */
    method EvaluateFitness(n: int, pool: array<Individual>, protection: int, model: int, countEvals: bool,
                           maxCost: real, o: Oracle, rounds: nat)
      returns (outcome: Outcome, issued: seq<SolverRun>)
      requires Valid() && 0 <= model < NumberOfModels && 0 <= n <= pool.Length && Shaped(pool[..], numberOfGenes)
      requires Answers(o, numberOfGenes)
      modifies pool, cache, cache.requests, cache.hits, cache.misses, this`numberOfEvals, this`numberOfCountedEvals
      ensures Valid() && Shaped(pool[..], numberOfGenes) && pool[n..] == old(pool[n..])
      ensures cache.Counters() ==
                Tallied(old(cache.Counters()), model, n, Hits(PoolKeys(old(pool[..n]), model, numberOfGenes), old(cache.entries).Keys))
      ensures var p := Evaluated(o, CallFor(protection, model, countEvals, maxCost), old(pool[..n]), old(cache.entries), old(cache.removedFiles),
                                 old(numberOfEvals), old(numberOfCountedEvals), rounds);
              outcome == p.outcome &&
              (outcome.Finished? ==>
                 pool[..n] == p.run.pool && cache.entries == p.run.entries && cache.removedFiles == p.run.removed &&
                 numberOfEvals == p.run.evals && numberOfCountedEvals == p.run.counted && issued == p.run.issued)
      ensures outcome.Finished? ==>
                var required := Required(PoolKeys(old(pool[..n]), model, numberOfGenes), old(cache.entries).Keys);
                (forall i :: 0 <= i < n ==> pool[i].genes == old(pool[i].genes)) &&
                numberOfEvals == old(numberOfEvals) + required &&
                numberOfCountedEvals == old(numberOfCountedEvals) + (if countEvals then required else 0) &&
                forall j :: 0 <= j < |issued| ==>
                  issued[j].protection == protection && issued[j].model == model && issued[j].maxCost == maxCost
    {
      var c := CallFor(protection, model, countEvals, maxCost);
      outcome, issued := EvaluateCall(n, pool, c, o, rounds);
      EvaluatedCounts(o, c, old(pool[..n]), old(cache.entries), old(cache.removedFiles), old(numberOfEvals), old(numberOfCountedEvals), rounds);
    }

    /**
     * The parameters of an `evaluate_fitness` call; a solver's JJ file is
     * kept in the cache under YPLUS_MODEL or when elimination runs.
     */
    function CallFor(protection: int, model: int, countEvals: bool, maxCost: real): (c: Call)
      ensures c.genomeSize == numberOfGenes && c.protection == protection && c.model == model
      ensures c.countEvals == countEvals && c.maxCost == maxCost && c.inJJFile == inJJFileName
      ensures c.keepJJFile <==> model == YPlusModel || runElimination
    {
      Call(numberOfGenes, protection, model, countEvals, maxCost, model == YPlusModel || runElimination, inJJFileName)
    }

    /** `evaluate_fitness` with its parameters gathered in c. */
    method EvaluateCall(n: int, pool: array<Individual>, c: Call, o: Oracle, rounds: nat)
      returns (outcome: Outcome, issued: seq<SolverRun>)
      requires Valid() && 0 <= c.model < NumberOfModels && 0 <= n <= pool.Length && Shaped(pool[..], numberOfGenes)
      requires Answers(o, numberOfGenes) && c.genomeSize == numberOfGenes
      modifies pool, cache, cache.requests, cache.hits, cache.misses, this`numberOfEvals, this`numberOfCountedEvals
      ensures Valid() && Shaped(pool[..], numberOfGenes) && pool[n..] == old(pool[n..])
      ensures cache.Counters() ==
                Tallied(old(cache.Counters()), c.model, n, Hits(PoolKeys(old(pool[..n]), c.model, numberOfGenes), old(cache.entries).Keys))
      ensures var p := Evaluated(o, c, old(pool[..n]), old(cache.entries), old(cache.removedFiles),
                                 old(numberOfEvals), old(numberOfCountedEvals), rounds);
              outcome == p.outcome &&
              (outcome.Finished? ==>
                 pool[..n] == p.run.pool && cache.entries == p.run.entries && cache.removedFiles == p.run.removed &&
                 numberOfEvals == p.run.evals && numberOfCountedEvals == p.run.counted && issued == p.run.issued)
    {
      var l;
      outcome, l := EvaluatePool(o, c, pool, n, cache, numberOfEvals, numberOfCountedEvals, rounds);
      numberOfEvals, numberOfCountedEvals, issued := l.evals, l.counted, l.issued;
    }

    /**
     * `evaluate_best_parent`: a copy of the first parent of least fitness is
     * evaluated under YMINUS_MODEL with no cost ceiling and without counting
     * the evaluation, and its fitness is returned. The parent pool itself is
     * untouched; the fitness is the one the cache now holds for the genome.
     */
    method EvaluateBestParent(protection: int, o: Oracle, rounds: nat) returns (outcome: Outcome, fitness: real, issued: seq<SolverRun>)
      requires Valid() && numberOfGenes > 0 && Answers(o, numberOfGenes)
      modifies cache, cache.requests, cache.hits, cache.misses, this`numberOfEvals, this`numberOfCountedEvals
      ensures Valid()
      ensures outcome.Finished? ==>
                var best := poolParent[FirstMinimum(Fitnesses(poolParent[..]), poolParentSize)];
                var key := Key(YMinusModel, best.genes[..numberOfGenes]);
                key in cache.entries && fitness == cache.entries[key].fitness &&
                (key in old(cache.entries) ==> cache.entries == old(cache.entries) && issued == []) &&
                numberOfCountedEvals == old(numberOfCountedEvals) &&
                numberOfEvals == old(numberOfEvals) + (if key in old(cache.entries) then 0 else 1) &&
                forall j :: 0 <= j < |issued| ==>
                  issued[j].genes == best.genes && issued[j].model == YMinusModel &&
                  issued[j].protection == protection && issued[j].maxCost == 0.0
    {
      var b := GetBestParent();
      var best := poolParent[b];
      assert best.genes[..numberOfGenes] == best.genes;
      outcome, fitness, issued := EvaluateCopy(best, protection, o, rounds);
    }

    /** The evaluation of a copy of x under YMINUS_MODEL, uncounted and with no ceiling. */
    method EvaluateCopy(x: Individual, protection: int, o: Oracle, rounds: nat) returns (outcome: Outcome, fitness: real, issued: seq<SolverRun>)
      requires Valid() && |x.genes| == numberOfGenes && |x.costs| <= numberOfGenes && Answers(o, numberOfGenes)
      modifies cache, cache.requests, cache.hits, cache.misses, this`numberOfEvals, this`numberOfCountedEvals
      ensures Valid()
      ensures outcome.Finished? ==>
                var key := Key(YMinusModel, x.genes);
                key in cache.entries && fitness == cache.entries[key].fitness &&
                (key in old(cache.entries) ==> cache.entries == old(cache.entries) && issued == []) &&
                numberOfCountedEvals == old(numberOfCountedEvals) &&
                numberOfEvals == old(numberOfEvals) + (if key in old(cache.entries) then 0 else 1) &&
                forall j :: 0 <= j < |issued| ==>
                  issued[j].genes == x.genes && issued[j].model == YMinusModel &&
                  issued[j].protection == protection && issued[j].maxCost == 0.0
    {
      var copy := new Individual[1](_ => x);
      assert copy[..] == [x] && copy[..1] == [x];
      ghost var c := Call(numberOfGenes, protection, YMinusModel, false, 0.0, runElimination, inJJFileName);
      ghost var e0, removed0, evals0, counted0 := cache.entries, cache.removedFiles, numberOfEvals, numberOfCountedEvals;
      outcome, issued := EvaluateFitness(1, copy, protection, YMinusModel, false, 0.0, o, rounds);
      fitness := copy[0].fitness;
      EvaluatedFacts(o, c, x, e0, removed0, evals0, counted0, rounds);
    }

    // -------------------------------------------------------------------
    // Pool helpers
    // -------------------------------------------------------------------

    /**
     * `copy_individual`: the destination becomes a copy of the source
     * individual (genes, costs and fitness). Individuals are values here, so
     * the deep copy is an assignment. A source with more costs than genes is
     * the fatal error 1.
     */
    method CopyIndividual(to: array<Individual>, index: int, from: Individual) returns (outcome: Outcome)
      requires 0 <= index < to.Length
      modifies to
      ensures outcome == if |from.costs| > numberOfGenes then Failed(1) else Finished
      ensures outcome.Finished? ==> to[..] == old(to[..])[index := from]
    {
      if |from.costs| > numberOfGenes {
        return Failed(1);
      }
      to[index] := from;
      outcome := Finished;
    }

    /**
     * `copy_individual` from parent `parent` into mating slot `slot`. A
     * parent never has more costs than genes, so the copy succeeds.
     */
    method CopyToMating(slot: int, parent: int)
      requires Valid() && 0 <= slot < poolMating.Length && 0 <= parent < poolParent.Length
      modifies poolMating
      ensures Valid()
      ensures poolMating[..] == old(poolMating[..])[slot := poolParent[parent]]
    {
      assert poolParent[..][parent] == poolParent[parent];
      var copied := CopyIndividual(poolMating, slot, poolParent[parent]);
    }

    /**
     * `sort_pool_by_fitness`: the exchange sort of the first n individuals
     * by fitness, exchanging whole individuals; the rest of the pool is left
     * alone.
     */
    method SortPoolByFitness(n: int, pool: array<Individual>)
      requires 0 <= n <= pool.Length
      modifies pool
      ensures pool[..n] == ExchangeSort(old(pool[..n]), FitnessKey, 0)
      ensures pool[n..] == old(pool[n..])
      ensures multiset(pool[..n]) == multiset(old(pool[..n]))
    {
      ExchangeSortKeeps(pool[..n], FitnessKey, 0);
      ghost var target := ExchangeSort(pool[..n], FitnessKey, 0);
      var i := 0;
      while i < n
        invariant 0 <= i <= n
        invariant pool[n..] == old(pool[n..])
        invariant ExchangeSort(pool[..n], FitnessKey, i) == target
      {
        ghost var before := pool[..n];
        SortPoolRow(n, pool, i);
        ExchangeSortTurn(before, pool[..n], FitnessKey, i, target);
        i := i + 1;
      }
      ExchangeSortDone(pool[..n], FitnessKey, target);
    }

    /** The inner loop of `sort_pool_by_fitness` for position i. */
    method SortPoolRow(n: int, pool: array<Individual>, i: int)
      requires 0 <= i < n <= pool.Length
      modifies pool
      ensures pool[..n] == SortRow(old(pool[..n]), FitnessKey, i, i)
      ensures forall k :: n <= k < pool.Length ==> pool[k] == old(pool[k])
    {
      ghost var target := SortRow(pool[..n], FitnessKey, i, i);
      var j := i;
      while j < n
        invariant i <= j <= n
        invariant forall k :: n <= k < pool.Length ==> pool[k] == old(pool[k])
        invariant SortRow(pool[..n], FitnessKey, i, j) == target
      {
        ExchangeIfFitter(n, pool, i, j);
        j := j + 1;
      }
      SortRowDone(pool[..n], FitnessKey, i, target);
    }

    /** Individuals i and j change places when i's fitness is greater than j's. */
    method ExchangeIfFitter(n: int, pool: array<Individual>, i: int, j: int)
      requires 0 <= i <= j < n <= pool.Length
      modifies pool
      ensures SortRow(old(pool[..n]), FitnessKey, i, j) == SortRow(pool[..n], FitnessKey, i, j + 1)
      ensures forall k :: n <= k < pool.Length ==> pool[k] == old(pool[k])
    {
      ghost var before := pool[..n];
      if pool[i].fitness > pool[j].fitness {
        pool[i], pool[j] := pool[j], pool[i];
        assert pool[..n] == Swap(before, i, j);
      } else {
        assert pool[..n] == before;
      }
    }

    /** The fittest parent: the first of least fitness among the first `pool_parent_size`. */
    method GetBestParent() returns (best: int)
      requires Valid() && numberOfGenes > 0
      ensures best == FirstMinimum(Fitnesses(poolParent[..]), poolParentSize)
      ensures 0 <= best < poolParentSize
    {
      ghost var f := Fitnesses(poolParent[..]);
      var bestFitness := poolParent[0].fitness;
      best := 0;
      var i := 1;
      while i < poolParentSize
        invariant 1 <= i <= poolParentSize
        invariant best == FirstMinimum(f, i) && bestFitness == f[best]
      {
        var fitness := poolParent[i].fitness;
        if fitness < bestFitness {
          bestFitness := fitness;
          best := i;
        }
        i := i + 1;
      }
    }

    /** `get_worst_fitness`: the greatest fitness among the parents. */
    method GetWorstFitness() returns (worst: real)
      requires Valid() && numberOfGenes > 0
      ensures IsWorst(Fitnesses(poolParent[..poolParentSize]), worst)
    {
      worst := poolParent[0].fitness;
      var i := 1;
      while i < poolParentSize
        invariant 1 <= i <= poolParentSize
        invariant exists k :: 0 <= k < i && worst == poolParent[k].fitness
        invariant forall k :: 0 <= k < i ==> poolParent[k].fitness <= worst
      {
        var fitness := poolParent[i].fitness;
        if fitness > worst {
          worst := fitness;
        }
        i := i + 1;
      }
      ghost var f := Fitnesses(poolParent[..poolParentSize]);
      assert forall k :: 0 <= k < poolParentSize ==> f[k] == poolParent[k].fitness;
    }

    /**
     * `invalid_offspring`: counts every gene of the offspring in a work
     * array of NUMBER_OF_GENES counters, then reports whether some value
     * from 1 to N is missing or repeated.
     */
    method InvalidOffspring(offspring: int) returns (rc: bool)
      requires Valid() && 0 <= offspring < poolOffspring.Length
      requires numberOfGenes < NumberOfGenesLimit
      requires forall k :: 0 <= k < numberOfGenes ==> 0 <= poolOffspring[offspring].genes[k] < NumberOfGenesLimit
      ensures rc == Genomes.InvalidOffspring(poolOffspring[offspring].genes)
    {
      var g := poolOffspring[offspring].genes;
      assert |g| == numberOfGenes by {
        assert poolOffspring[..][offspring] == poolOffspring[offspring];
      }
      var geneCount := CountGenes(g);
      rc := false;
      var i := 1;
      while i <= numberOfGenes
        invariant 1 <= i <= numberOfGenes + 1
        invariant forall v :: 0 <= v < NumberOfGenesLimit ==> geneCount[v] == Count(g, v)
        invariant rc <==> exists v :: 1 <= v < i && Count(g, v) != 1
      {
        if geneCount[i] == 0 {
          rc := true;
        } else if geneCount[i] > 1 {
          rc := true;
        }
        assert rc <==> exists v :: 1 <= v < i + 1 && Count(g, v) != 1 by {
          if Count(g, i) != 1 {
            assert 1 <= i < i + 1 && Count(g, i) != 1;
          }
        }
        i := i + 1;
      }
    }

    /** The counting loop of `invalid_offspring`. */
    method CountGenes(g: seq<int>) returns (geneCount: array<int>)
      requires forall k :: 0 <= k < |g| ==> 0 <= g[k] < NumberOfGenesLimit
      ensures fresh(geneCount) && geneCount.Length == NumberOfGenesLimit
      ensures forall v :: 0 <= v < NumberOfGenesLimit ==> geneCount[v] == Count(g, v)
    {
      geneCount := new int[NumberOfGenesLimit](_ => 0);
      var i := 0;
      while i < |g|
        invariant 0 <= i <= |g|
        invariant forall v :: 0 <= v < NumberOfGenesLimit ==> geneCount[v] == Count(g[..i], v)
      {
        var j := g[i];
        forall v | 0 <= v < NumberOfGenesLimit
          ensures Count(g[..i + 1], v) == Count(g[..i], v) + (if g[i] == v then 1 else 0)
        {
          CountPrefix(g, i + 1, v);
        }
        geneCount[j] := geneCount[j] + 1;
        i := i + 1;
      }
      assert g[..i] == g;
    }

    // -------------------------------------------------------------------
    // Selection
    // -------------------------------------------------------------------

    /**
     * `selection_truncation`: sorts the parents by fitness and copies the
     * first two into the mating pool, which then holds the two fittest.
     */
    method SelectionTruncation()
      requires Valid() && numberOfGenes > 0
      modifies poolParent, poolMating
      ensures Valid()
      ensures poolParent[..poolParentSize] == ExchangeSort(old(poolParent[..poolParentSize]), FitnessKey, 0)
      ensures poolParent[poolParentSize..] == old(poolParent[poolParentSize..])
      ensures poolMating[..] == [poolParent[0], poolParent[1]]
      ensures forall k :: 0 <= k < poolParentSize ==> poolMating[0].fitness <= poolParent[k].fitness
      ensures forall k :: 1 <= k < poolParentSize ==> poolMating[1].fitness <= poolParent[k].fitness
    {
      ghost var before := poolParent[..];
      SortPoolByFitness(poolParentSize, poolParent);
      ShapedPermuted(before, poolParent[..], poolParentSize, numberOfGenes);
      ExchangeSortSorts(old(poolParent[..poolParentSize]), FitnessKey);
      CopyFirstParents();
      SortedFittestFirst(poolParent[..poolParentSize], 0);
      if poolParentSize > 1 {
        SortedFittestFirst(poolParent[..poolParentSize], 1);
      }
    }

    /** The copying loop of `selection_truncation`: parents 0 and 1 fill the mating pool. */
    method CopyFirstParents()
      requires Valid() && numberOfGenes > 0
      modifies poolMating
      ensures Valid()
      ensures poolMating[..] == [poolParent[0], poolParent[1]]
    {
      var i := 0;
      while i < PoolMatingSize
        invariant 0 <= i <= PoolMatingSize
        invariant Valid()
        invariant forall k :: 0 <= k < i ==> poolMating[k] == poolParent[k]
      {
        CopyToMating(i, i);
        i := i + 1;
      }
      assert poolMating[..] == [poolParent[0], poolParent[1]];
    }

    /**
     * `selection_tournament`: each mating slot i holds the fitter of the two
     * parents its pair of draws picks (the second on a tie).
     */
    method SelectionTournament(draws: seq<(real, real)>)
      requires Valid() && numberOfGenes > 0
      requires |draws| == PoolMatingSize
      requires forall i :: 0 <= i < |draws| ==> 0.0 <= draws[i].0 <= 1.0 && 0.0 <= draws[i].1 <= 1.0
      modifies poolMating
      ensures Valid()
      ensures forall i :: 0 <= i < PoolMatingSize ==>
                var f := Fitnesses(poolParent[..poolParentSize]);
                poolMating[i] ==
                  poolParent[TournamentWinner(f, TournamentIndex(draws[i].0, poolParentSize),
                                              TournamentIndex(draws[i].1, poolParentSize))]
    {
      ghost var f := Fitnesses(poolParent[..poolParentSize]);
      var i := 0;
      while i < PoolMatingSize
        invariant 0 <= i <= PoolMatingSize && Valid()
        invariant forall q :: 0 <= q < i ==>
                    poolMating[q] ==
                      poolParent[TournamentWinner(f, TournamentIndex(draws[q].0, poolParentSize),
                                                  TournamentIndex(draws[q].1, poolParentSize))]
      {
        var l := TournamentIndex(draws[i].0, poolParentSize);
        var k := TournamentIndex(draws[i].1, poolParentSize);
        if 0 <= l < poolParentSize && 0 <= k < poolParentSize {
          if poolParent[l].fitness < poolParent[k].fitness {
            CopyToMating(i, l);
          } else {
            CopyToMating(i, k);
          }
        }
        i := i + 1;
      }
    }

    /**
     * `selection_proportionate`: the cumulative fitness fractions of the
     * parents, then for each mating slot the last parent whose fraction its
     * draw exceeds (the previous slot's pick when there is none). A total
     * fitness of 0 makes every fraction NaN and parent 0 fills both slots.
     */
    method SelectionProportionate(r0: real, r1: real)
      requires Valid() && numberOfGenes > 0
      modifies poolMating
      ensures Valid()
      ensures var picks := ProportionatePicks(Fitnesses(poolParent[..poolParentSize]), r0, r1);
              0 <= picks.0 < poolParentSize && 0 <= picks.1 < poolParentSize &&
              poolMating[..] == [poolParent[picks.0], poolParent[picks.1]]
    {
      var first, second := ProportionateScan(r0, r1);
      CopyToMating(0, first);
      CopyToMating(1, second);
      assert poolMating[..] == [poolParent[first], poolParent[second]];
    }

    /**
     * The fractions and the two scans of `selection_proportionate`, which
     * pick the parents copied into mating slots 0 and 1.
     */
    method ProportionateScan(r0: real, r1: real) returns (first: int, second: int)
      requires Valid() && numberOfGenes > 0
      ensures (first, second) == ProportionatePicks(Fitnesses(poolParent[..poolParentSize]), r0, r1)
      ensures 0 <= first < poolParentSize && 0 <= second < poolParentSize
    {
      ghost var f := Fitnesses(poolParent[..poolParentSize]);
      var l := 0;
      var total := TotalFitness();
      if total != 0.0 {
        var cum := CumulativeFractions(total);
        assert cum[..] == Cumulative(f).value;
        first := ScanFractions(cum, r0, l);
        second := ScanFractions(cum, r1, first);
      } else {
        first, second := l, l;
      }
    }

    /** The total fitness of the parents. */
    method TotalFitness() returns (total: real)
      requires 0 <= poolParentSize <= poolParent.Length
      ensures total == SumReal(Fitnesses(poolParent[..poolParentSize]))
    {
      ghost var f := Fitnesses(poolParent[..poolParentSize]);
      total := 0.0;
      var i := 0;
      while i < poolParentSize
        invariant 0 <= i <= poolParentSize
        invariant total == SumReal(f[..i])
      {
        assert f[..i + 1] == f[..i] + [poolParent[i].fitness];
        SumRealAppend(f[..i], poolParent[i].fitness);
        total := total + poolParent[i].fitness;
        i := i + 1;
      }
      assert f[..poolParentSize] == f;
    }

    /** The cumulative fractions, each one the previous plus this parent's share of the total. */
    method CumulativeFractions(total: real) returns (cum: array<real>)
      requires 0 < poolParentSize <= poolParent.Length
      requires total == SumReal(Fitnesses(poolParent[..poolParentSize])) && total != 0.0
      ensures fresh(cum)
      ensures Cumulative(Fitnesses(poolParent[..poolParentSize])) == Some(cum[..])
    {
      ghost var f := Fitnesses(poolParent[..poolParentSize]);
      cum := new real[poolParentSize];
      cum[0] := poolParent[0].fitness / total;
      assert f[..1] == [] + [f[0]];
      SumRealAppend([], f[0]);
      var i := 1;
      while i < poolParentSize
        invariant 1 <= i <= poolParentSize
        invariant forall k :: 0 <= k < i ==> cum[k] == PrefixSum(f, k + 1) / total
      {
        assert f[..i + 1] == f[..i] + [f[i]];
        SumRealAppend(f[..i], f[i]);
        SplitFraction(PrefixSum(f, i), f[i], total);
        cum[i] := cum[i - 1] + poolParent[i].fitness / total;
        i := i + 1;
      }
      assert cum[..] == Cumulative(f).value;
    }

    /** One mating slot's scan: the last k whose fraction the draw exceeds, else l. */
    method ScanFractions(cum: array<real>, r: real, l: int) returns (pick: int)
      ensures pick == Selections.Scan(cum[..], r, l, cum.Length)
    {
      pick := l;
      var k := 0;
      while k < cum.Length
        invariant 0 <= k <= cum.Length
        invariant pick == Selections.Scan(cum[..], r, l, k)
      {
        if r > cum[k] {
          pick := k;
        }
        k := k + 1;
      }
    }

    /** `select_for_pool_mating`: the selection the search was configured with. */
    method SelectForPoolMating(draws: seq<(real, real)>, r0: real, r1: real)
      requires Valid() && numberOfGenes > 0
      requires |draws| == PoolMatingSize
      requires forall i :: 0 <= i < |draws| ==> 0.0 <= draws[i].0 <= 1.0 && 0.0 <= draws[i].1 <= 1.0
      modifies poolParent, poolMating
      ensures Valid()
      ensures algorithmForSelection != TruncationSelection ==> poolParent[..] == old(poolParent[..])
      ensures algorithmForSelection == TruncationSelection ==>
                poolParent[..poolParentSize] == ExchangeSort(old(poolParent[..poolParentSize]), FitnessKey, 0) &&
                poolMating[..] == [poolParent[0], poolParent[1]]
      ensures algorithmForSelection == TournamentSelection ==>
                forall i :: 0 <= i < PoolMatingSize ==>
                  var f := Fitnesses(poolParent[..poolParentSize]);
                  poolMating[i] ==
                    poolParent[TournamentWinner(f, TournamentIndex(draws[i].0, poolParentSize),
                                                TournamentIndex(draws[i].1, poolParentSize))]
      ensures algorithmForSelection == ProportionateSelection ==>
                var picks := ProportionatePicks(Fitnesses(poolParent[..poolParentSize]), r0, r1);
                poolMating[..] == [poolParent[picks.0], poolParent[picks.1]]
      ensures !(0 <= algorithmForSelection <= ProportionateSelection) ==> poolMating[..] == old(poolMating[..])
    {
      if algorithmForSelection == TruncationSelection {
        SelectionTruncation();
      } else if algorithmForSelection == TournamentSelection {
        SelectionTournament(draws);
      } else if algorithmForSelection == ProportionateSelection {
        SelectionProportionate(r0, r1);
      }
    }


    // -------------------------------------------------------------------
    // Crossover
    // -------------------------------------------------------------------

    /** The genes of mating parent k. */
    function MatingGenes(k: int): (g: seq<int>)
      requires Shaped(poolMating[..], numberOfGenes) && 0 <= k < poolMating.Length
      reads this, poolMating
      ensures |g| == numberOfGenes && g == poolMating[k].genes
    {
      assert poolMating[..][k] == poolMating[k];
      poolMating[k].genes
    }

    /** Offspring `index` takes the genome `genes`; its costs and fitness stay as they were. */
    method SetOffspringGenes(index: int, genes: seq<int>)
      requires Shaped(poolOffspring[..], numberOfGenes) && 0 <= index < poolOffspring.Length
      requires |genes| == numberOfGenes
      modifies poolOffspring
      ensures poolOffspring[..] == old(poolOffspring[..])[index := old(poolOffspring[index]).(genes := genes)]
      ensures Shaped(poolOffspring[..], numberOfGenes)
    {
      assert poolOffspring[..][index] == poolOffspring[index];
      poolOffspring[index] := poolOffspring[index].(genes := genes);
    }

    /** Offspring slot `slot` takes the genome `genes`; the pools stay well formed. */
    method PlaceOffspring(slot: int, genes: seq<int>)
      requires Valid() && 0 <= slot < poolOffspring.Length && |genes| == numberOfGenes
      modifies poolOffspring
      ensures Valid()
      ensures poolOffspring[..] == old(poolOffspring[..])[slot := old(poolOffspring[slot]).(genes := genes)]
    {
      SetOffspringGenes(slot, genes);
    }

    /**
     * `find_gene_location` in mating parent `parent`: the last position
     * holding the gene. A gene the parent does not hold is the fatal error 1.
     */
    method FindGeneLocation(parent: int, gene: int) returns (r: Result<int>)
      requires Shaped(poolMating[..], numberOfGenes) && 0 <= parent < poolMating.Length
      ensures gene !in MatingGenes(parent) ==> r == Err(1)
      ensures gene in MatingGenes(parent) ==>
                r.Ok? && 0 <= r.value < numberOfGenes && MatingGenes(parent)[r.value] == gene &&
                forall k :: r.value < k < numberOfGenes ==> MatingGenes(parent)[k] != gene
      ensures r.Ok? ==> r.value == Locate(MatingGenes(parent), gene)
    {
      var genes := MatingGenes(parent);
      var rc := -1;
      var i := 0;
      while i < numberOfGenes
        invariant 0 <= i <= numberOfGenes
        invariant rc == Locate(genes[..i], gene)
      {
        assert genes[..i + 1][..i] == genes[..i];
        if gene == genes[i] {
          rc := i;
        }
        i := i + 1;
      }
      assert genes[..i] == genes;
      if rc == -1 {
        return Err(1);
      }
      r := Ok(rc);
    }

    /**
     * `map_gene` on the offspring under construction `off`: chases g1 from
     * parent 2 to parent 1 until the offspring holds 0 at the position found
     * and writes g2 there. `fuel` bounds the recursion, which the source
     * does not bound.
     */
    method MapGene(parent1: int, g1: int, parent2: int, g2: int, off: seq<int>, fuel: nat) returns (r: MapOutcome)
      requires Shaped(poolMating[..], numberOfGenes)
      requires 0 <= parent1 < poolMating.Length && 0 <= parent2 < poolMating.Length
      requires |off| == numberOfGenes
      ensures r == Genomes.MapGene(MatingGenes(parent1), MatingGenes(parent2), off, g1, g2, fuel)
      decreases fuel
    {
      var found := FindGeneLocation(parent2, g1);
      if found.Err? {
        return GeneMissing;
      }
      var j := found.value;
      if off[j] == 0 {
        return Placed(off[j := g2]);
      }
      if fuel == 0 {
        return Unfinished;
      }
      var g := MatingGenes(parent1)[j];
      r := MapGene(parent1, g, parent2, g2, off, fuel - 1);
    }

    /**
     * The first two loops of both crossovers on the offspring's genome
     * `genes`: every gene becomes -1, then parent 1's genes are copied on
     * [lo, hi].
     */
    method StartSegment(parent1: int, lo: int, hi: int, genes: seq<int>) returns (off: seq<int>)
      requires Shaped(poolMating[..], numberOfGenes) && 0 <= parent1 < poolMating.Length
      requires 0 <= lo < hi < numberOfGenes && |genes| == numberOfGenes
      ensures off == OrderStart(MatingGenes(parent1), lo, hi)
    {
      var p1 := MatingGenes(parent1);
      off := genes;
      var k := 0;
      while k < numberOfGenes
        invariant 0 <= k <= numberOfGenes && |off| == numberOfGenes
        invariant forall q :: 0 <= q < k ==> off[q] == -1
      {
        off := off[k := -1];
        k := k + 1;
      }
      k := lo;
      while k <= hi
        invariant lo <= k <= hi + 1 && |off| == numberOfGenes
        invariant forall q :: 0 <= q < numberOfGenes ==> off[q] == if lo <= q < k then p1[q] else -1
      {
        off := off[k := p1[k]];
        k := k + 1;
      }
      assert off == OrderStart(p1, lo, hi);
    }

    /**
     * `crossover_partially_mapped(parent1, parent2)` with the cut points
     * drawn as cut1 != cut2: when the offspring pool has room, the offspring
     * is the partially mapped recombination of the two parents, and a gene
     * missing from a parent is the fatal error 1.
     */
    method CrossoverPartiallyMapped(parent1: int, parent2: int, cut1: int, cut2: int, fuel: nat) returns (outcome: Outcome)
      requires Valid() && numberOfGenes > 0
      requires 0 <= parent1 < PoolMatingSize && 0 <= parent2 < PoolMatingSize
      requires 0 <= cut1 < numberOfGenes && 0 <= cut2 < numberOfGenes && cut1 != cut2
      modifies this`numberOfOffspring, poolOffspring
      ensures Valid()
      ensures old(numberOfOffspring) >= PoolOffspringSize ==>
                outcome == Finished && numberOfOffspring == old(numberOfOffspring) &&
                poolOffspring[..] == old(poolOffspring[..])
      ensures old(numberOfOffspring) < PoolOffspringSize ==>
                var p := Pmx(MatingGenes(parent1), MatingGenes(parent2), Min(cut1, cut2), Max(cut1, cut2), fuel);
                outcome == PmxEnded(p) &&
                (p.Offspring? ==>
                   numberOfOffspring == old(numberOfOffspring) + 1 &&
                   poolOffspring[..] ==
                     old(poolOffspring[..])[old(numberOfOffspring) := old(poolOffspring[numberOfOffspring]).(genes := p.genes)])
    {
      if numberOfOffspring >= PoolOffspringSize {
        return Finished;
      }
      assert poolOffspring[..][numberOfOffspring] == poolOffspring[numberOfOffspring];
      var p := PartiallyMapped(parent1, parent2, Min(cut1, cut2), Max(cut1, cut2), poolOffspring[numberOfOffspring].genes, fuel);
      outcome := PmxEnded(p);
      if p.Offspring? {
        SetOffspringGenes(numberOfOffspring, p.genes);
        numberOfOffspring := numberOfOffspring + 1;
      }
    }

    /**
     * The loops of `crossover_partially_mapped` on the offspring's genome
     * `genes` and the cut points lo < hi: the segment, the mapping of parent
     * 2's genes that lie outside it in parent 1, and the fill from parent 2.
     */
    method PartiallyMapped(parent1: int, parent2: int, lo: int, hi: int, genes: seq<int>, fuel: nat) returns (r: PmxOutcome)
      requires Shaped(poolMating[..], numberOfGenes)
      requires 0 <= parent1 < poolMating.Length && 0 <= parent2 < poolMating.Length
      requires 0 <= lo < hi < numberOfGenes && |genes| == numberOfGenes
      ensures r == Pmx(MatingGenes(parent1), MatingGenes(parent2), lo, hi, fuel)
    {
      var p2 := MatingGenes(parent2);
      var m := MapSegment(parent1, parent2, lo, hi, genes, fuel);
      if !m.Offspring? {
        return m;
      }
      var off := FillFromParent(m.genes, p2);
      r := Offspring(off);
    }

    /** The segment of parent 1 and the mapping loop of `crossover_partially_mapped`. */
    method MapSegment(parent1: int, parent2: int, lo: int, hi: int, genes: seq<int>, fuel: nat) returns (r: PmxOutcome)
      requires Shaped(poolMating[..], numberOfGenes)
      requires 0 <= parent1 < poolMating.Length && 0 <= parent2 < poolMating.Length
      requires 0 <= lo < hi < numberOfGenes && |genes| == numberOfGenes
      ensures r == PmxMapping(MatingGenes(parent1), MatingGenes(parent2), lo, hi, lo, OrderStart(MatingGenes(parent1), lo, hi), fuel)
    {
      var p1, p2 := MatingGenes(parent1), MatingGenes(parent2);
      var off := StartSegment(parent1, lo, hi, genes);
      ghost var target := PmxMapping(p1, p2, lo, hi, lo, off, fuel);
      var k := lo;
      while k <= hi
        invariant lo <= k <= hi + 1 && |off| == numberOfGenes
        invariant PmxMapping(p1, p2, lo, hi, k, off, fuel) == target
      {
        var turn := MapTurn(parent1, parent2, lo, hi, k, off, fuel);
        if !turn.Offspring? {
          return turn;
        }
        off := turn.genes;
        k := k + 1;
      }
      r := Offspring(off);
    }

    /** One turn k of the mapping loop: parent 2's gene at k is mapped when parent 1 holds it outside [lo, hi]. */
    method MapTurn(parent1: int, parent2: int, lo: int, hi: int, k: int, off: seq<int>, fuel: nat) returns (r: PmxOutcome)
      requires Shaped(poolMating[..], numberOfGenes)
      requires 0 <= parent1 < poolMating.Length && 0 <= parent2 < poolMating.Length
      requires 0 <= k < numberOfGenes && |off| == numberOfGenes
      ensures r == PmxTurn(MatingGenes(parent1), MatingGenes(parent2), lo, hi, k, off, fuel)
    {
      var p1, p2 := MatingGenes(parent1), MatingGenes(parent2);
      var g2 := p2[k];
      var found := FindGeneLocation(parent1, g2);
      if found.Err? {
        return PmxGeneMissing;
      }
      var j := found.value;
      if lo <= j <= hi {
        return Offspring(off);
      }
      var m := MapGene(parent1, p1[k], parent2, g2, off, fuel);
      r := match m
        case Placed(o) => Offspring(o)
        case GeneMissing => PmxGeneMissing
        case Unfinished => PmxUnfinished;
    }

    /** The last loop of `crossover_partially_mapped`: every gene still -1 takes parent 2's gene. */
    method FillFromParent(mapped: seq<int>, p2: seq<int>) returns (off: seq<int>)
      requires |mapped| == |p2|
      ensures off == PmxFill(mapped, p2)
    {
      off := mapped;
      var k := 0;
      while k < |off|
        invariant 0 <= k <= |off| && |off| == |mapped|
        invariant forall q :: 0 <= q < k ==> off[q] == if mapped[q] == -1 then p2[q] else mapped[q]
        invariant forall q :: k <= q < |off| ==> off[q] == mapped[q]
      {
        if off[k] == -1 {
          off := off[k := p2[k]];
        }
        k := k + 1;
      }
    }

    /** `not_in_genes`: whether g is absent from the genome. */
    method NotInGenes(g: int, genes: seq<int>) returns (absent: bool)
      requires |genes| == numberOfGenes
      ensures absent <==> g !in genes
    {
      var i := 0;
      while i < numberOfGenes
        invariant 0 <= i <= numberOfGenes
        invariant g !in genes[..i]
      {
        if g == genes[i] {
          return false;
        }
        assert genes[..i + 1] == genes[..i] + [genes[i]];
        i := i + 1;
      }
      assert genes[..i] == genes;
      return true;
    }

    /**
     * `crossover_order(parent1, parent2)` with the cut points drawn as
     * cut1 != cut2: when the offspring pool has room, the offspring holds
     * parent 1's genes between the cut points and the rest is filled from
     * parent 2, read cyclically after the segment. A -1 left over is the
     * fatal error 1; parents that are orderings of the same distinct genes
     * never leave one.
     */
    method CrossoverOrder(parent1: int, parent2: int, cut1: int, cut2: int) returns (outcome: Outcome)
      requires Valid() && numberOfGenes > 0
      requires 0 <= parent1 < PoolMatingSize && 0 <= parent2 < PoolMatingSize
      requires 0 <= cut1 < numberOfGenes && 0 <= cut2 < numberOfGenes && cut1 != cut2
      modifies this`numberOfOffspring, poolOffspring
      ensures Valid()
      ensures old(numberOfOffspring) >= PoolOffspringSize ==>
                outcome == Finished && numberOfOffspring == old(numberOfOffspring) &&
                poolOffspring[..] == old(poolOffspring[..])
      ensures old(numberOfOffspring) < PoolOffspringSize ==>
                var r := OrderCrossover(MatingGenes(parent1), MatingGenes(parent2), Min(cut1, cut2), Max(cut1, cut2));
                poolOffspring[..] ==
                  old(poolOffspring[..])[old(numberOfOffspring) := old(poolOffspring[numberOfOffspring]).(genes := r)] &&
                outcome == (if -1 in r then Failed(1) else Finished) &&
                numberOfOffspring == old(numberOfOffspring) + (if -1 in r then 0 else 1)
      ensures var p1, p2 := MatingGenes(parent1), MatingGenes(parent2);
              old(numberOfOffspring) < PoolOffspringSize &&
              Distinct(p1) && multiset(p1) == multiset(p2) && -1 !in p1 ==>
                outcome == Finished &&
                multiset(poolOffspring[old(numberOfOffspring)].genes) == multiset(p1) &&
                forall k :: Min(cut1, cut2) <= k <= Max(cut1, cut2) ==> poolOffspring[old(numberOfOffspring)].genes[k] == p1[k]
    {
      if numberOfOffspring >= PoolOffspringSize {
        return Finished;
      }
      var lo, hi := Min(cut1, cut2), Max(cut1, cut2);
      var p1, p2 := MatingGenes(parent1), MatingGenes(parent2);
      assert poolOffspring[..][numberOfOffspring] == poolOffspring[numberOfOffspring];
      var off := OrderedOffspring(parent1, parent2, lo, hi, poolOffspring[numberOfOffspring].genes);
      PlaceOffspring(numberOfOffspring, off);
      assert Distinct(p1) && multiset(p1) == multiset(p2) && -1 !in p1 ==>
               -1 !in off && multiset(off) == multiset(p1) && forall k :: lo <= k <= hi ==> off[k] == p1[k] by {
        if Distinct(p1) && multiset(p1) == multiset(p2) && -1 !in p1 {
          OrderCrossoverTheorem(p1, p2, lo, hi);
        }
      }
      outcome := CountOffspring(off);
    }

    /** The end of `crossover_order`: an offspring with a gene still -1 is the fatal error 1, any other is counted. */
    method CountOffspring(off: seq<int>) returns (outcome: Outcome)
      requires Valid() && numberOfOffspring < PoolOffspringSize && |off| == numberOfGenes
      modifies this`numberOfOffspring
      ensures Valid()
      ensures outcome == (if -1 in off then Failed(1) else Finished)
      ensures numberOfOffspring == old(numberOfOffspring) + (if -1 in off then 0 else 1)
    {
      var unfilled := HasUnfilled(off);
      if unfilled {
        return Failed(1);
      }
      numberOfOffspring := numberOfOffspring + 1;
      outcome := Finished;
    }

    /**
     * The loops of `crossover_order` that build the offspring from its
     * genome `genes` and the cut points lo < hi.
     */
    method OrderedOffspring(parent1: int, parent2: int, lo: int, hi: int, genes: seq<int>) returns (off: seq<int>)
      requires Shaped(poolMating[..], numberOfGenes)
      requires 0 <= parent1 < poolMating.Length && 0 <= parent2 < poolMating.Length
      requires 0 <= lo < hi < numberOfGenes && |genes| == numberOfGenes
      ensures off == OrderCrossover(MatingGenes(parent1), MatingGenes(parent2), lo, hi)
    {
      var n := numberOfGenes;
      var p2 := MatingGenes(parent2);
      off := StartSegment(parent1, lo, hi, genes);
      ghost var start := off;
      var i := (hi + 1) % n;
      ghost var s := i;
      var k := 0;
      while k < n
        invariant 0 <= k <= n
        invariant (off, i) == OrderFill(p2, s, start, k)
      {
        var j := (hi + k + 1) % n;
        CyclicOffset(hi, k, n);
        var g := p2[j];
        var absent := NotInGenes(g, off);
        if absent {
          off := off[i := g];
          i := (i + 1) % n;
        }
        k := k + 1;
      }
    }

    /** The last loop of `crossover_order`: whether some gene is still -1. */
    method HasUnfilled(off: seq<int>) returns (unfilled: bool)
      requires |off| == numberOfGenes
      ensures unfilled <==> -1 in off
    {
      var k := 0;
      while k < numberOfGenes
        invariant 0 <= k <= numberOfGenes
        invariant forall q :: 0 <= q < k ==> off[q] != -1
      {
        if off[k] == -1 {
          return true;
        }
        k := k + 1;
      }
      unfilled := false;
    }

    /**
     * `crossover_distance_preserving(parent1, parent2)`: the offspring keeps
     * the fragments the two parents share, ordered by their mean position.
     * It writes offspring `number_of_offspring` without checking for room,
     * so the caller must leave room. A gene of parent 1 missing from parent
     * 2, or an offspring that is not an ordering of 1..N, is the fatal error 1.
     */
    method CrossoverDistancePreserving(parent1: int, parent2: int) returns (outcome: Outcome)
      requires Valid() && numberOfGenes > 0 && numberOfOffspring < PoolOffspringSize
      requires 0 <= parent1 < PoolMatingSize && 0 <= parent2 < PoolMatingSize
      modifies this`numberOfOffspring, poolOffspring
      ensures Valid()
      ensures var d := Dpx(MatingGenes(parent1), MatingGenes(parent2));
              outcome == (if d.Ok? then Finished else Failed(1)) &&
              (d.Ok? ==>
                 numberOfOffspring == old(numberOfOffspring) + 1 &&
                 poolOffspring[..] ==
                   old(poolOffspring[..])[old(numberOfOffspring) := old(poolOffspring[numberOfOffspring]).(genes := d.value)])
      ensures outcome.Finished? ==> !Genomes.InvalidOffspring(poolOffspring[old(numberOfOffspring)].genes)
    {
      match Dpx(MatingGenes(parent1), MatingGenes(parent2))
      case Err(e) =>
        return Failed(e);
      case Ok(g) =>
        SetOffspringGenes(numberOfOffspring, g);
        numberOfOffspring := numberOfOffspring + 1;
        outcome := Finished;
    }

    /** `crossover_edge` is not implemented: the fatal error 1. */
    method CrossoverEdge(parent1: int, parent2: int) returns (outcome: Outcome)
      ensures outcome == Failed(1)
    {
      outcome := Failed(1);
    }

    /** `crossover_cycle` is not implemented: the fatal error 1. */
    method CrossoverCycle(parent1: int, parent2: int) returns (outcome: Outcome)
      ensures outcome == Failed(1)
    {
      outcome := Failed(1);
    }

    /** `valid_mating`: a gene outside the table's cells is the fatal error 1. */
    method ValidMating(parent: int) returns (outcome: Outcome)
      requires Shaped(poolMating[..], numberOfGenes) && 0 <= parent < poolMating.Length
      ensures outcome == if GenesIn(MatingGenes(parent), ncells) then Finished else Failed(1)
    {
      var genes := MatingGenes(parent);
      var i := 0;
      while i < numberOfGenes
        invariant 0 <= i <= numberOfGenes
        invariant forall k :: 0 <= k < i ==> 0 <= genes[k] < ncells
      {
        if genes[i] < 0 || genes[i] >= ncells {
          return Failed(1);
        }
        i := i + 1;
      }
      outcome := Finished;
    }

    /**
     * What `apply_crossover` makes of the mating pool: the fatal error 1
     * when a parent holds a gene outside the table, otherwise the
     * recombination of parents 0 and 1.
     */
    ghost function Crossing(recombine: real, cut1: int, cut2: int, fuel: nat): (Outcome, seq<int>)
      requires Shaped(poolMating[..], numberOfGenes) && poolMating.Length == PoolMatingSize
      requires 0 <= cut1 < numberOfGenes && 0 <= cut2 < numberOfGenes && cut1 != cut2
      reads this, poolMating
    {
      var p1, p2 := MatingGenes(0), MatingGenes(1);
      if !(GenesIn(p1, ncells) && GenesIn(p2, ncells)) then (Failed(1), p1)
      else Recombined(algorithmForCrossover, p1, p2, recombine, Min(cut1, cut2), Max(cut1, cut2), fuel)
    }

    /**
     * `apply_crossover`: with the mating pool of two, parents 0 and 1 are
     * checked and recombined until the offspring pool is full. `recombine`
     * is the draw compared with RECOMBINATION_PROBABILITY and cut1 != cut2
     * the crossover's cut points.
     */
    method ApplyCrossover(recombine: real, cut1: int, cut2: int, fuel: nat) returns (outcome: Outcome)
      requires Valid() && numberOfGenes > 0
      requires 0 <= cut1 < numberOfGenes && 0 <= cut2 < numberOfGenes && cut1 != cut2
      modifies this`numberOfOffspring, poolOffspring
      ensures Valid()
      ensures outcome == Crossing(recombine, cut1, cut2, fuel).0
      ensures outcome.Finished? ==>
                numberOfOffspring == PoolOffspringSize &&
                poolOffspring[..] ==
                  old(poolOffspring[..])[0 := old(poolOffspring[0]).(genes := Crossing(recombine, cut1, cut2, fuel).1)]
    {
      numberOfOffspring := 0;
      ghost var before := poolOffspring[..];
      ghost var crossing := Crossing(recombine, cut1, cut2, fuel);
      while numberOfOffspring < PoolOffspringSize
        invariant Valid() && 0 <= numberOfOffspring <= PoolOffspringSize
        invariant numberOfOffspring == 0 ==> poolOffspring[..] == before
        invariant numberOfOffspring == PoolOffspringSize ==>
                    crossing.0 == Finished && poolOffspring[..] == before[0 := before[0].(genes := crossing.1)]
        decreases PoolOffspringSize - numberOfOffspring
      {
        var parent1, parent2 := 0, 1;
        var valid := ValidMating(parent1);
        if valid.Failed? {
          return valid;
        }
        valid := ValidMating(parent2);
        if valid.Failed? {
          return valid;
        }
        outcome := Recombine(parent1, parent2, recombine, cut1, cut2, fuel);
        if !outcome.Finished? {
          return;
        }
      }
      outcome := Finished;
    }

    /**
     * The body of `apply_crossover`'s loop once both parents are valid:
     * below RECOMBINATION_PROBABILITY the configured crossover, otherwise
     * offspring 0 becomes a copy of parent 1 (there is no room for the copy
     * of parent 2).
     */
    method Recombine(parent1: int, parent2: int, recombine: real, cut1: int, cut2: int, fuel: nat) returns (outcome: Outcome)
      requires Valid() && numberOfGenes > 0 && numberOfOffspring == 0
      requires parent1 == 0 && parent2 == 1
      requires 0 <= cut1 < numberOfGenes && 0 <= cut2 < numberOfGenes && cut1 != cut2
      modifies this`numberOfOffspring, poolOffspring
      ensures Valid()
      ensures var r := Recombined(algorithmForCrossover, MatingGenes(parent1), MatingGenes(parent2),
                                  recombine, Min(cut1, cut2), Max(cut1, cut2), fuel);
              outcome == r.0 &&
              (r.0.Finished? ==>
                 numberOfOffspring == PoolOffspringSize &&
                 poolOffspring[..] == old(poolOffspring[..])[0 := old(poolOffspring[0]).(genes := r.1)])
    {
      if recombine < RecombinationProbability {
        if algorithmForCrossover == PartiallyMappedCrossover {
          outcome := CrossoverPartiallyMapped(parent1, parent2, cut1, cut2, fuel);
        } else if algorithmForCrossover == EdgeCrossover {
          outcome := CrossoverEdge(parent1, parent2);
        } else if algorithmForCrossover == OrderedCrossover {
          outcome := CrossoverOrder(parent1, parent2, cut1, cut2);
        } else if algorithmForCrossover == CycleCrossover {
          outcome := CrossoverCycle(parent1, parent2);
        } else {
          outcome := CrossoverDistancePreserving(parent1, parent2);
        }
      } else {
        var offspring1, offspring2 := numberOfOffspring, numberOfOffspring + 1;
        CopyToOffspring(offspring1, parent1);
        CopyToOffspring(offspring2, parent2);
        outcome := Finished;
      }
    }

    /**
     * Offspring slot `slot`, when the pool has room for it, becomes a copy
     * of mating parent `parent` and the offspring count grows; a slot past
     * the pool is skipped.
     */
    method CopyToOffspring(slot: int, parent: int)
      requires Valid() && numberOfGenes > 0 && 0 <= parent < PoolMatingSize && numberOfOffspring <= slot
      modifies this`numberOfOffspring, poolOffspring
      ensures Valid()
      ensures slot < PoolOffspringSize ==>
                numberOfOffspring == old(numberOfOffspring) + 1 &&
                poolOffspring[..] == old(poolOffspring[..])[slot := old(poolOffspring[slot]).(genes := MatingGenes(parent))]
      ensures slot >= PoolOffspringSize ==> numberOfOffspring == old(numberOfOffspring) && poolOffspring[..] == old(poolOffspring[..])
    {
      if slot < PoolOffspringSize {
        SetOffspringGenes(slot, MatingGenes(parent));
        numberOfOffspring := numberOfOffspring + 1;
      }
    }

    // -------------------------------------------------------------------
    // Mutation
    // -------------------------------------------------------------------

    /** The genes of clone k. */
    function CloneGenes(k: int): (g: seq<int>)
      requires Shaped(poolClones[..], numberOfGenes) && 0 <= k < poolClones.Length
      reads this, poolClones
      ensures |g| == numberOfGenes && g == poolClones[k].genes
    {
      assert poolClones[..][k] == poolClones[k];
      poolClones[k].genes
    }

    /** Clone `index` takes the genome `genes`; its costs and fitness stay as they were. */
    method SetCloneGenes(index: int, genes: seq<int>)
      requires Shaped(poolClones[..], numberOfGenes) && 0 <= index < poolClones.Length
      requires |genes| == numberOfGenes
      modifies poolClones
      ensures poolClones[..] == old(poolClones[..])[index := old(poolClones[index]).(genes := genes)]
      ensures Shaped(poolClones[..], numberOfGenes)
    {
      assert poolClones[..][index] == poolClones[index];
      poolClones[index] := poolClones[index].(genes := genes);
    }

    /** `duplicate_clones`: every clone becomes a copy of offspring `offspring`. */
    method DuplicateClones(offspring: int)
      requires Valid() && 0 <= offspring < poolOffspring.Length
      modifies poolClones
      ensures Valid()
      ensures forall k :: 0 <= k < poolClones.Length ==> poolClones[k] == poolOffspring[offspring]
    {
      assert poolOffspring[..][offspring] == poolOffspring[offspring];
      var i := 0;
      while i < poolClonesSize
        invariant 0 <= i <= poolClonesSize && Valid()
        invariant forall k :: 0 <= k < i ==> poolClones[k] == poolOffspring[offspring]
      {
        var copied := CopyIndividual(poolClones, i, poolOffspring[offspring]);
        assert poolClones[..][i] == poolOffspring[offspring];
        i := i + 1;
      }
    }

    /**
     * `mutation_swap` on clone `offspring`: every gene whose test draw is at
     * most the rate is exchanged with its partner.
     */
    method MutationSwap(offspring: int, rate: real, d: seq<GeneDraw>)
      requires Shaped(poolClones[..], numberOfGenes) && 0 <= offspring < poolClones.Length
      requires PartnersIn(d, numberOfGenes)
      modifies poolClones
      ensures Shaped(poolClones[..], numberOfGenes)
      ensures poolClones[..] == old(poolClones[..])[offspring := old(poolClones[offspring]).(genes := SwapMutation(old(CloneGenes(offspring)), d, rate, numberOfGenes))]
    {
      var g := SwapGenes(CloneGenes(offspring), rate, d);
      SetCloneGenes(offspring, g);
    }

    /** `randomise_clone`: a swap mutation of every gene. */
    method RandomiseClone(offspring: int, d: seq<GeneDraw>)
      requires Shaped(poolClones[..], numberOfGenes) && 0 <= offspring < poolClones.Length
      requires PartnersIn(d, numberOfGenes)
      modifies poolClones
      ensures Shaped(poolClones[..], numberOfGenes)
      ensures poolClones[..] == old(poolClones[..])[offspring := old(poolClones[offspring]).(genes := SwapMutation(old(CloneGenes(offspring)), d, 1.0, numberOfGenes))]
    {
      MutationSwap(offspring, 1.0, d);
    }

    /**
     * `mutation_insert` on clone `offspring`: every gene whose test draw is
     * at most the rate has its partner's gene moved next to it.
     */
    method MutationInsert(offspring: int, rate: real, d: seq<GeneDraw>)
      requires Shaped(poolClones[..], numberOfGenes) && 0 <= offspring < poolClones.Length
      requires PartnersIn(d, numberOfGenes)
      modifies poolClones
      ensures Shaped(poolClones[..], numberOfGenes)
      ensures poolClones[..] == old(poolClones[..])[offspring := old(poolClones[offspring]).(genes := InsertMutation(old(CloneGenes(offspring)), d, rate, numberOfGenes))]
    {
      var g := InsertGenes(CloneGenes(offspring), rate, d);
      SetCloneGenes(offspring, g);
    }

    /**
     * `mutation_scramble` on clone `offspring`: every gene whose test draw
     * is at most the rate scrambles the range between it and its partner.
     */
    method MutationScramble(offspring: int, rate: real, d: seq<GeneDraw>)
      requires Shaped(poolClones[..], numberOfGenes) && 0 <= offspring < poolClones.Length
      requires ScrambleDrawn(d, numberOfGenes)
      modifies poolClones
      ensures Shaped(poolClones[..], numberOfGenes)
      ensures poolClones[..] == old(poolClones[..])[offspring := old(poolClones[offspring]).(genes := ScrambleMutation(old(CloneGenes(offspring)), d, rate, numberOfGenes))]
    {
      var g := ScrambleGenes(CloneGenes(offspring), rate, d);
      SetCloneGenes(offspring, g);
    }

    /**
     * `mutation_inversion` on clone `offspring`: every gene whose test draw
     * is at most the rate inverts the range between it and its partner.
     */
    method MutationInversion(offspring: int, rate: real, d: seq<GeneDraw>)
      requires Shaped(poolClones[..], numberOfGenes) && 0 <= offspring < poolClones.Length
      requires PartnersIn(d, numberOfGenes)
      modifies poolClones
      ensures Shaped(poolClones[..], numberOfGenes)
      ensures poolClones[..] == old(poolClones[..])[offspring := old(poolClones[offspring]).(genes := InversionMutation(old(CloneGenes(offspring)), d, rate, numberOfGenes))]
    {
      var g := InvertGenes(CloneGenes(offspring), rate, d);
      SetCloneGenes(offspring, g);
    }

    /**
     * `apply_mutation`: while the parent pool is below its full size the
     * first clone is swap-mutated at rate 1; the other default clones are
     * mutated at rate 1/N with the configured mutation, cycling through the
     * four kinds under assorted mutation. Clones beyond the default number
     * are left alone.
     */
    method ApplyMutation(draws: seq<seq<GeneDraw>>)
      requires Valid() && numberOfGenes >= 2 && DrawnFor(draws, defaultNumberOfClones, numberOfGenes)
      requires poolParentSize < PoolParentSize ==> 1 <= defaultNumberOfClones
      modifies this`mutationType, poolClones
      ensures Valid()
      ensures var randomClones := if old(poolParentSize) < PoolParentSize then 1 else 0;
              poolClones[..] == MutatedPool(old(poolClones[..]), numberOfGenes, algorithmForMutation, old(mutationType), randomClones, defaultNumberOfClones, draws, 1.0 / numberOfGenes as real)
      ensures var randomClones := if old(poolParentSize) < PoolParentSize then 1 else 0;
              mutationType == if algorithmForMutation == AssortedMutationType then CycleAt(old(mutationType), defaultNumberOfClones - randomClones) else old(mutationType)
    {
      var randomClones := if poolParentSize < PoolParentSize then 1 else 0;
      var rate := 1.0 / numberOfGenes as real;
      DrawnPrefix(draws, randomClones, defaultNumberOfClones, numberOfGenes);
      var clones := SwapRandomClones(poolClones[..], randomClones, draws, rate);
      var cycle;
      clones, cycle := MutateDefaultClones(poolClones[..], clones, randomClones, draws, rate);
      MutatedPoolShaped(poolClones[..], numberOfGenes, algorithmForMutation, mutationType, randomClones, defaultNumberOfClones, draws, rate);
      StoreClones(clones);
      AdvanceMutationType(cycle);
    }

    /** `mutation_type` takes the value the assorted cycle reached. */
    method AdvanceMutationType(cycle: int)
      requires Valid() && 0 <= cycle < 4
      modifies this`mutationType
      ensures Valid() && mutationType == cycle
    {
      mutationType := cycle;
    }

    /** `apply_mutation`'s first loop, on the clones' genomes: clones below `randomClones` are swap-mutated at rate 1. */
    method SwapRandomClones(before: seq<Individual>, randomClones: int, draws: seq<seq<GeneDraw>>, ghost rate: real) returns (clones: seq<Individual>)
      requires Settled() && Shaped(before, numberOfGenes) && |before| == poolClones.Length
      requires 0 <= randomClones <= defaultNumberOfClones && DrawnFor(draws, defaultNumberOfClones, numberOfGenes)
      requires DrawnFor(draws, randomClones, numberOfGenes)
      ensures clones == MutatedPool(before, numberOfGenes, algorithmForMutation, mutationType, randomClones, randomClones, draws, rate)
    {
      clones := before;
      var offspring := 0;
      while offspring < randomClones
        invariant 0 <= offspring <= randomClones && DrawnFor(draws, offspring, numberOfGenes)
        invariant clones == MutatedPool(before, numberOfGenes, algorithmForMutation, mutationType, randomClones, offspring, draws, rate)
      {
        DrawnPrefix(draws, offspring + 1, defaultNumberOfClones, numberOfGenes);
        MutatedPoolPending(before, numberOfGenes, algorithmForMutation, mutationType, randomClones, offspring, draws, rate);
        var g := SwapGenes(clones[offspring].genes, 1.0, draws[offspring]);
        clones := clones[offspring := clones[offspring].(genes := g)];
        offspring := offspring + 1;
      }
    }

    /**
     * `apply_mutation`'s second loop, on the clones' genomes: the default
     * clones from `randomClones` on receive their kind of mutation, and the
     * assorted cycle advances once per clone.
     */
    method MutateDefaultClones(ghost before: seq<Individual>, from: seq<Individual>, randomClones: int, draws: seq<seq<GeneDraw>>, rate: real) returns (clones: seq<Individual>, cycle: int)
      requires Settled() && Shaped(before, numberOfGenes) && |before| == poolClones.Length
      requires 0 <= randomClones <= defaultNumberOfClones && DrawnFor(draws, defaultNumberOfClones, numberOfGenes)
      requires DrawnFor(draws, randomClones, numberOfGenes)
      requires from == MutatedPool(before, numberOfGenes, algorithmForMutation, mutationType, randomClones, randomClones, draws, rate)
      ensures clones == MutatedPool(before, numberOfGenes, algorithmForMutation, mutationType, randomClones, defaultNumberOfClones, draws, rate)
      ensures cycle == if algorithmForMutation == AssortedMutationType then CycleAt(mutationType, defaultNumberOfClones - randomClones) else mutationType
    {
      ghost var m0 := mutationType;
      clones, cycle := from, mutationType;
      var offspring := randomClones;
      while offspring < defaultNumberOfClones
        invariant randomClones <= offspring <= defaultNumberOfClones && DrawnFor(draws, offspring, numberOfGenes)
        invariant cycle == if algorithmForMutation == AssortedMutationType then CycleAt(m0, offspring - randomClones) else m0
        invariant clones == MutatedPool(before, numberOfGenes, algorithmForMutation, m0, randomClones, offspring, draws, rate)
      {
        DrawnPrefix(draws, offspring + 1, defaultNumberOfClones, numberOfGenes);
        clones, cycle := MutateNextClone(before, clones, randomClones, offspring, cycle, draws, rate);
        offspring := offspring + 1;
      }
    }

    /** One turn of `apply_mutation`'s second loop: clone `offspring` receives the kind of mutation the cycle stands at. */
    method MutateNextClone(ghost before: seq<Individual>, clones: seq<Individual>, randomClones: int, offspring: int, cycle: int, draws: seq<seq<GeneDraw>>, rate: real)
      returns (next: seq<Individual>, nextCycle: int)
      requires Settled() && Shaped(before, numberOfGenes) && |before| == poolClones.Length
      requires 0 <= randomClones <= offspring < defaultNumberOfClones && DrawnFor(draws, offspring + 1, numberOfGenes)
      requires cycle == if algorithmForMutation == AssortedMutationType then CycleAt(mutationType, offspring - randomClones) else mutationType
      requires clones == MutatedPool(before, numberOfGenes, algorithmForMutation, mutationType, randomClones, offspring, draws, rate)
      ensures next == MutatedPool(before, numberOfGenes, algorithmForMutation, mutationType, randomClones, offspring + 1, draws, rate)
      ensures nextCycle == if algorithmForMutation == AssortedMutationType then CycleAt(mutationType, offspring + 1 - randomClones) else mutationType
    {
      var kind := if algorithmForMutation == AssortedMutationType then cycle
                  else if 0 <= algorithmForMutation < AssortedMutationType then algorithmForMutation
                  else -1;
      assert kind == KindFor(algorithmForMutation, mutationType, offspring - randomClones);
      MutatedPoolPending(before, numberOfGenes, algorithmForMutation, mutationType, randomClones, offspring, draws, rate);
      var g := MutateGenes(kind, clones[offspring].genes, rate, draws[offspring]);
      next := clones[offspring := clones[offspring].(genes := g)];
      nextCycle := cycle;
      if algorithmForMutation == AssortedMutationType {
        nextCycle := (cycle + 1) % 4;
      }
    }

    /** The clone pool takes the individuals `clones`. */
    method StoreClones(clones: seq<Individual>)
      requires Valid() && Shaped(clones, numberOfGenes) && |clones| == poolClones.Length
      modifies poolClones
      ensures Valid() && poolClones[..] == clones
    {
      forall k | 0 <= k < poolClones.Length {
        poolClones[k] := clones[k];
      }
    }

    // -------------------------------------------------------------------
    // Replacement
    // -------------------------------------------------------------------

    /** The parent pool with `pool_parent_size` and `replace_next`. */
    ghost function State(): Parents
      reads this, poolParent
    {
      Parents(poolParent[..], poolParentSize, replaceNext)
    }

    /**
     * `get_fittest_clone` over the first poolSize clones, with the draw r
     * standing for `random()`: the first scan finds the least fitness, the
     * second counts the clones that have it, the third walks to the chosen one.
     */
    method GetFittestClone(poolSize: int, r: real) returns (res: Result<int>)
      requires Valid() && 1 <= poolSize <= poolClones.Length && 0.0 <= r <= 1.0
      ensures res == FittestClone(Fitnesses(poolClones[..poolSize]), r)
    {
      res := FittestIn(Fitnesses(poolClones[..poolSize]), r);
    }

    /** `copy_individual` of clone `fittest` into parent slot `slot`; a clone always fits. */
    method PutClone(slot: int, fittest: int)
      requires Valid() && 0 <= slot < poolParent.Length && 0 <= fittest < poolClones.Length
      modifies poolParent
      ensures Valid()
      ensures poolParent[..] == old(poolParent[..])[slot := poolClones[fittest]]
    {
      assert poolClones[..][fittest] == poolClones[fittest];
      var copied := CopyIndividual(poolParent, slot, poolClones[fittest]);
    }

    /** `replace_nothing`: the fittest clone is appended to the parents. */
    method ReplaceNothing(poolSize: int, r: real) returns (outcome: Outcome)
      requires Valid() && numberOfGenes > 0 && poolParentSize < PoolParentSize
      requires 1 <= poolSize <= poolClones.Length && 0.0 <= r <= 1.0
      modifies this`poolParentSize, poolParent
      ensures Valid()
      ensures var res := FittestClone(Fitnesses(poolClones[..poolSize]), r);
              if res.Err? then outcome == Failed(1) && State() == old(State())
              else outcome == Finished && State() == Grown(old(State()), poolClones[res.value])
    {
      var res := GetFittestClone(poolSize, r);
      FittestCloneIsFittest(Fitnesses(poolClones[..poolSize]), r);
      if res.Err? {
        return Failed(1);
      }
      PutClone(poolParentSize, res.value);
      poolParentSize := poolParentSize + 1;
      outcome := Finished;
    }

    /** `replace_oldest`: the fittest clone overwrites the parent at `replace_next`, which moves on. */
    method ReplaceOldest(poolSize: int, r: real) returns (outcome: Outcome)
      requires Valid() && numberOfGenes > 0
      requires 1 <= poolSize <= poolClones.Length && 0.0 <= r <= 1.0
      modifies this`replaceNext, poolParent
      ensures Valid()
      ensures var res := FittestClone(Fitnesses(poolClones[..poolSize]), r);
              if res.Err? then outcome == Failed(1) && State() == old(State())
              else outcome == Finished && State() == OldestReplaced(old(State()), poolClones[res.value])
    {
      var res := GetFittestClone(poolSize, r);
      FittestCloneIsFittest(Fitnesses(poolClones[..poolSize]), r);
      if res.Err? {
        return Failed(1);
      }
      PutClone(replaceNext, res.value);
      replaceNext := replaceNext + 1;
      if replaceNext >= poolParentSize {
        replaceNext := 0;
      }
      outcome := Finished;
    }

    /**
     * `replace_worst`: the live parents are sorted fittest first and the
     * fittest clone overwrites the last of them.
     */
    method ReplaceWorst(poolSize: int, r: real) returns (outcome: Outcome)
      requires Valid() && numberOfGenes > 0
      requires 1 <= poolSize <= poolClones.Length && 0.0 <= r <= 1.0
      modifies this`replaceNext, poolParent
      ensures Valid()
      ensures var res := FittestClone(Fitnesses(poolClones[..poolSize]), r);
              if res.Err? then outcome == Failed(1) && State() == old(State())
              else outcome == Finished && State() == WorstReplaced(old(State()), poolClones[res.value])
    {
      var res := GetFittestClone(poolSize, r);
      FittestCloneIsFittest(Fitnesses(poolClones[..poolSize]), r);
      if res.Err? {
        return Failed(1);
      }
      SortParents();
      replaceNext := poolParentSize - 1;
      PutClone(replaceNext, res.value);
      replaceNext := replaceNext - 1;
      if replaceNext < 0 {
        replaceNext := poolParentSize - 1;
      }
      outcome := Finished;
    }

    /** `sort_pool_by_fitness` over the live parents, which keeps every parent's shape. */
    method SortParents()
      requires Valid()
      modifies poolParent
      ensures Valid()
      ensures poolParent[..] == ExchangeSort(old(poolParent[..poolParentSize]), FitnessKey, 0) + old(poolParent[poolParentSize..])
    {
      ghost var before := poolParent[..];
      SortPoolByFitness(poolParentSize, poolParent);
      assert poolParent[..] == poolParent[..poolParentSize] + poolParent[poolParentSize..];
      ShapedPermuted(before, poolParent[..], poolParentSize, numberOfGenes);
    }

    /** `replace_tournament`: the fittest clone challenges the parent at `replace_next`, which moves on. */
    method ReplaceTournament(poolSize: int, r: real) returns (outcome: Outcome)
      requires Valid() && numberOfGenes > 0
      requires 1 <= poolSize <= poolClones.Length && 0.0 <= r <= 1.0
      modifies this`replaceNext, poolParent
      ensures Valid()
      ensures var res := FittestClone(Fitnesses(poolClones[..poolSize]), r);
              if res.Err? then outcome == Failed(1) && State() == old(State())
              else outcome == Finished && State() == TournamentReplaced(old(State()), poolClones[res.value])
    {
      var res := GetFittestClone(poolSize, r);
      FittestCloneIsFittest(Fitnesses(poolClones[..poolSize]), r);
      if res.Err? {
        return Failed(1);
      }
      if poolParent[replaceNext].fitness > poolClones[res.value].fitness {
        PutClone(replaceNext, res.value);
      }
      replaceNext := replaceNext + 1;
      if replaceNext >= poolParentSize {
        replaceNext := 0;
      }
      outcome := Finished;
    }

    /**
     * `replace_worst_by_tournament`: `replace_next` becomes the first least
     * fit parent, which the fittest clone then challenges.
     */
    method ReplaceWorstByTournament(poolSize: int, r: real) returns (outcome: Outcome)
      requires Valid() && numberOfGenes > 0
      requires 1 <= poolSize <= poolClones.Length && 0.0 <= r <= 1.0
      modifies this`replaceNext, poolParent
      ensures Valid()
      ensures var res := FittestClone(Fitnesses(poolClones[..poolSize]), r);
              if res.Err? then outcome == Failed(1) && State() == old(State())
              else outcome == Finished && State() == WorstByTournamentReplaced(old(State()), poolClones[res.value])
    {
      var res := GetFittestClone(poolSize, r);
      FittestCloneIsFittest(Fitnesses(poolClones[..poolSize]), r);
      if res.Err? {
        return Failed(1);
      }
      var worst := LeastFitParent();
      replaceNext := worst;
      if poolParent[replaceNext].fitness > poolClones[res.value].fitness {
        PutClone(replaceNext, res.value);
      }
      outcome := Finished;
    }

    /** The scan of `replace_worst_by_tournament` for the first parent of greatest fitness. */
    method LeastFitParent() returns (worst: int)
      requires Valid() && numberOfGenes > 0
      ensures worst == FirstMaximum(Fitnesses(poolParent[..]), poolParentSize)
    {
      ghost var f := Fitnesses(poolParent[..]);
      worst := 0;
      var i := 1;
      while i < poolParentSize
        invariant 1 <= i <= poolParentSize
        invariant worst == FirstMaximum(f, i)
      {
        if poolParent[i].fitness > poolParent[worst].fitness {
          worst := i;
        }
        i := i + 1;
      }
    }

    /**
     * `replacement`: a parent pool that is not yet full grows by the fittest
     * clone; a full one is replaced into by the configured policy, and an
     * unknown policy does nothing (and draws no clone).
     */
    method Replacement(poolSize: int, r: real) returns (outcome: Outcome)
      requires Valid() && numberOfGenes > 0
      requires 1 <= poolSize <= poolClones.Length && 0.0 <= r <= 1.0
      modifies this`poolParentSize, this`replaceNext, poolParent
      ensures Valid()
      ensures var res := FittestClone(Fitnesses(poolClones[..poolSize]), r);
              if old(poolParentSize) == PoolParentSize && !(0 <= algorithmForReplacement <= WorstByTournamentReplacement) then
                outcome == Finished && State() == old(State())
              else if res.Err? then outcome == Failed(1) && State() == old(State())
              else outcome == Finished && State() == Replaced(algorithmForReplacement, old(State()), poolClones[res.value])
    {
      if poolParentSize < PoolParentSize {
        outcome := ReplaceNothing(poolSize, r);
      } else if algorithmForReplacement == OldestReplacement {
        outcome := ReplaceOldest(poolSize, r);
      } else if algorithmForReplacement == WorstReplacement {
        outcome := ReplaceWorst(poolSize, r);
      } else if algorithmForReplacement == TournamentReplacement {
        outcome := ReplaceTournament(poolSize, r);
      } else if algorithmForReplacement == WorstByTournamentReplacement {
        outcome := ReplaceWorstByTournament(poolSize, r);
      } else {
        outcome := Finished;
      }
    }

    // -------------------------------------------------------------------
    // Termination
    // -------------------------------------------------------------------

    // -------------------------------------------------------------------
    // Solver demand and the growth of the pools
    // -------------------------------------------------------------------

    /** The cache keys of the first n members of a pool under a model. */
    ghost function KeysOf(pool: array<Individual>, n: int, model: int): (keys: seq<Key>)
      requires Shaped(pool[..], numberOfGenes) && 0 <= n <= pool.Length
      reads this, pool
      ensures |keys| == n && forall j :: 0 <= j < n ==> keys[j] == Key(model, pool[j].genes[..numberOfGenes])
    {
      assert forall j :: 0 <= j < n ==> pool[..n][j] == pool[..][j];
      PoolKeys(pool[..n], model, numberOfGenes)
    }

    /**
     * `solvers_required`: the number of the first n members that need a
     * solver under the model (not cached, and no earlier equal member).
     * Every member is looked up in the cache once.
     */
    method SolversRequired(n: int, pool: array<Individual>, model: int) returns (count: int)
      requires Counting() && Shaped(pool[..], numberOfGenes) && 0 <= n <= pool.Length && 0 <= model < NumberOfModels
      modifies cache.requests, cache.hits, cache.misses
      ensures Counting()
      ensures count == Required(KeysOf(pool, n, model), cache.entries.Keys)
      ensures cache.Counters() == Tallied(old(cache.Counters()), model, n, Hits(KeysOf(pool, n, model), cache.entries.Keys))
    {
      assert Shaped(pool[..n], numberOfGenes) by {
        assert forall j :: 0 <= j < n ==> pool[..n][j] == pool[..][j];
      }
      var keys := PoolKeys(pool[..n], model, numberOfGenes);
      var uncached := cache.CachedAll(keys, model);
      var marked := MarkDuplicates(keys, uncached, cache.entries.Keys);
      count := CountMarked(keys, marked, cache.entries.Keys);
    }

    function ParentGenes(k: int): (g: seq<int>)
      requires Shaped(poolParent[..], numberOfGenes) && 0 <= k < poolParent.Length
      reads this, poolParent
      ensures |g| == numberOfGenes && g == poolParent[k].genes
    {
      assert poolParent[..][k] == poolParent[k];
      poolParent[k].genes
    }

    /** Parent `index` takes the genome `genes`; its costs and fitness stay as they were. */
    method SetParentGenes(index: int, genes: seq<int>)
      requires Shaped(poolParent[..], numberOfGenes) && 0 <= index < poolParent.Length && |genes| == numberOfGenes
      modifies poolParent
      ensures Shaped(poolParent[..], numberOfGenes)
      ensures poolParent[..] == old(poolParent[..])[index := old(poolParent[index]).(genes := genes)]
    {
      assert poolParent[..][index] == poolParent[index];
      poolParent[index] := poolParent[index].(genes := genes);
    }

    /** The shuffle of parent `index` in `fill_parent_pool`: gene j swaps with gene `ks[j]`, in turn. */
    method ShuffleParent(index: int, ks: seq<int>)
      requires Shaped(poolParent[..], numberOfGenes) && 0 <= index < poolParent.Length && PositionsIn(ks, numberOfGenes)
      modifies poolParent
      ensures Shaped(poolParent[..], numberOfGenes)
      ensures poolParent[..] == old(poolParent[..])[index := old(poolParent[index]).(genes := Shuffled(old(ParentGenes(index)), ks, numberOfGenes))]
    {
      var genes := ShuffleGenes(ParentGenes(index), ks);
      SetParentGenes(index, genes);
    }

    /**
     * The seeding of the parent pool by the constructors of the incremental
     * and the grouped search: every parent in use takes the genome `seed`,
     * then parent 1 takes it read back to front. Costs and fitness stay.
     */
    method SeedParents(seed: seq<int>)
      requires Valid() && numberOfGenes > 0 && |seed| == numberOfGenes
      modifies poolParent
      ensures Valid()
      ensures forall k :: 0 <= k < poolParent.Length ==>
                poolParent[k] == old(poolParent[k]).(genes := if k == 1 then Reversed(seed)
                                                             else if k < poolParentSize then seed
                                                             else old(poolParent[k]).genes)
    {
      var i := 0;
      while i < poolParentSize
        invariant 0 <= i <= poolParentSize && Valid()
        invariant forall k :: 0 <= k < poolParent.Length ==>
                    poolParent[k] == old(poolParent[k]).(genes := if k < i then seed else old(poolParent[k]).genes)
      {
        SetParentGenes(i, seed);
        i := i + 1;
      }
      var back := ReverseGenes(seed);
      SetParentGenes(1, back);
    }

    /**
     * The seeding of a fresh search followed by `fill_parent_pool(YPLUS_MODEL)`,
     * as both constructors do them: parent 0 holds the seed, parent 1 the
     * seed reversed, and every parent in use some ordering of the seed.
     */
    method SeedAndFill(seed: seq<int>, draws: seq<seq<int>>) returns (outcome: Outcome)
      requires Valid() && Configured() && numberOfGenes > 0 && |seed| == numberOfGenes && Distinct(seed)
      requires AllPositions(draws, numberOfGenes) && cache.entries == map[]
      requires poolParentSize == SizesFor(numberOfGenes, cores).parents
      modifies poolParent, cache.requests, cache.hits, cache.misses
      ensures Valid() && Permuting(seed) && cache.entries == map[]
      ensures poolParent[0].genes == seed && poolParent[1].genes == Reversed(seed)
      ensures outcome == Finished || outcome == FuelExhausted
      ensures outcome.Finished? ==> Required(KeysOf(poolParent, poolParentSize, YPlusModel), {}) == poolParentSize
    {
      SeedParents(seed);
      ReversedPermutes(seed);
      FewGenesNoClones(numberOfGenes, cores);
      outcome := FillSeeded(seed, draws);
    }

    /** `fill_parent_pool(YPLUS_MODEL)` after the seeding of `SeedAndFill`. */
    method FillSeeded(seed: seq<int>, draws: seq<seq<int>>) returns (outcome: Outcome)
      requires Valid() && numberOfGenes > 0 && |seed| == numberOfGenes && Distinct(seed)
      requires AllPositions(draws, numberOfGenes) && cache.entries == map[]
      requires numberOfGenes == 1 ==> poolParentSize == 1
      requires poolParent[0].genes == seed && poolParent[1].genes == Reversed(seed) && Permuting(seed)
      modifies poolParent, cache.requests, cache.hits, cache.misses
      ensures Valid() && Permuting(seed) && cache.entries == map[]
      ensures poolParent[0].genes == seed && poolParent[1].genes == Reversed(seed)
      ensures outcome == Finished || outcome == FuelExhausted
      ensures outcome.Finished? ==> Required(KeysOf(poolParent, poolParentSize, YPlusModel), {}) == poolParentSize
    {
      assert cache.entries.Keys == {};
      assert AllOrderings(poolParent[..][..poolParentSize], seed) by {
        forall k | 0 <= k < poolParentSize ensures multiset(poolParent[..][..poolParentSize][k].genes) == multiset(seed) {
          assert poolParent[..][..poolParentSize][k] == poolParent[k];
        }
      }
      SeededFill(poolParent[..], draws, YPlusModel, seed, poolParentSize);
      assert KeysOf(poolParent, 2, YPlusModel) == PoolKeys(poolParent[..][..2], YPlusModel, numberOfGenes);
      outcome := FillParentPool(YPlusModel, draws);
      assert AllOrderings(poolParent[..][..poolParentSize], seed);
      forall k | 0 <= k < poolParentSize
        ensures multiset(poolParent[k].genes) == multiset(seed)
      {
        assert poolParent[k] == poolParent[..][..poolParentSize][k];
      }
      assert poolParent[0] == poolParent[..][0] && poolParent[1] == poolParent[..][1];
    }

    /**
     * The part both constructors share once the pools are allocated for a
     * seed: seeding, `fill_parent_pool(YPLUS_MODEL)`, and the parents' and
     * the best parent's evaluations, stopping at the first step that does
     * not finish.
     */
    method Initialise(seed: seq<int>, protection: int, s: Start) returns (outcome: Outcome)
      requires Valid() && Configured() && numberOfGenes > 0 && |seed| == numberOfGenes && Distinct(seed)
      requires Drawn(s, numberOfGenes) && cache.entries == map[]
      requires poolParentSize == SizesFor(numberOfGenes, cores).parents
      modifies poolParent, cache, cache.requests, cache.hits, cache.misses, this`numberOfEvals, this`numberOfCountedEvals
      ensures Valid()
      ensures outcome.Finished? ==>
                Permuting(seed) && poolParent[0].genes == seed && poolParent[1].genes == Reversed(seed) &&
                numberOfEvals - numberOfCountedEvals <= old(numberOfEvals - numberOfCountedEvals) + 1 &&
                old(numberOfEvals - numberOfCountedEvals) <= numberOfEvals - numberOfCountedEvals &&
                Key(YMinusModel, poolParent[FirstMinimum(Fitnesses(poolParent[..]), poolParentSize)].genes) in cache.entries
      ensures outcome.Finished? ==> numberOfCountedEvals == old(numberOfCountedEvals) + poolParentSize
    {
      outcome := SeedAndFill(seed, s.fill);
      if outcome.Finished? {
        assert cache.entries.Keys == {} && numberOfCountedEvals == old(numberOfCountedEvals);
        outcome := EvaluateParents(protection, s, seed);
      }
    }

    /**
     * The evaluations that end both constructors once the parents are
     * seeded: `evaluate_fitness(pool_parent_size, pool_parent, protection,
     * YPLUS_MODEL, false, true, 0.0)`, then `evaluate_best_parent`, stopping
     * at the first that does not finish. The parents keep their genes, and
     * only the best parent's evaluation goes uncounted.
     */
    method EvaluateParents(protection: int, s: Start, ghost seed: seq<int>) returns (outcome: Outcome)
      requires Valid() && numberOfGenes > 0 && Permuting(seed) && Drawn(s, numberOfGenes)
      modifies poolParent, cache, cache.requests, cache.hits, cache.misses, this`numberOfEvals, this`numberOfCountedEvals
      ensures Valid()
      ensures outcome.Finished? ==>
                Permuting(seed) &&
                (forall k :: 0 <= k < poolParent.Length ==> poolParent[k].genes == old(poolParent[k].genes)) &&
                numberOfEvals - numberOfCountedEvals <= old(numberOfEvals - numberOfCountedEvals) + 1 &&
                old(numberOfEvals - numberOfCountedEvals) <= numberOfEvals - numberOfCountedEvals &&
                Key(YMinusModel, poolParent[FirstMinimum(Fitnesses(poolParent[..]), poolParentSize)].genes) in cache.entries
      ensures outcome.Finished? ==>
                numberOfCountedEvals == old(numberOfCountedEvals + Required(KeysOf(poolParent, poolParentSize, YPlusModel), cache.entries.Keys))
    {
      outcome := EvaluateSeeded(protection, s.replies, s.rounds, seed);
      if !outcome.Finished? {
        return;
      }
      var fitness, issued;
      outcome, fitness, issued := EvaluateBestParent(protection, s.best, s.rounds);
      ghost var best := poolParent[FirstMinimum(Fitnesses(poolParent[..]), poolParentSize)];
      assert best.genes[..numberOfGenes] == best.genes;
    }

    /** The first of those evaluations: every parent in use, counted, with no cost ceiling. */
    method EvaluateSeeded(protection: int, replies: Oracle, rounds: nat, ghost seed: seq<int>) returns (outcome: Outcome)
      requires Valid() && numberOfGenes > 0 && Permuting(seed) && Answers(replies, numberOfGenes)
      modifies poolParent, cache, cache.requests, cache.hits, cache.misses, this`numberOfEvals, this`numberOfCountedEvals
      ensures Valid()
      ensures outcome.Finished? ==>
                Permuting(seed) && numberOfEvals - numberOfCountedEvals == old(numberOfEvals - numberOfCountedEvals) &&
                forall k :: 0 <= k < poolParent.Length ==> poolParent[k].genes == old(poolParent[k].genes)
      ensures outcome.Finished? ==>
                numberOfCountedEvals == old(numberOfCountedEvals + Required(KeysOf(poolParent, poolParentSize, YPlusModel), cache.entries.Keys))
    {
      var issued;
      outcome, issued := EvaluateFitness(poolParentSize, poolParent, protection, YPlusModel, true, 0.0, replies, rounds);
      if outcome.Finished? {
        assert forall k :: poolParentSize <= k < poolParent.Length ==> poolParent[k] == poolParent[poolParentSize..][k - poolParentSize];
      }
    }

    /** There is room in the parent pool for what `fill_parent_pool` may need after its two seeds. */
    ghost predicate RoomToFill(model: int)
      requires Valid() && numberOfGenes > 0
      reads this, poolParent, poolMating, poolOffspring, poolClones, cache, cache.requests, cache.hits, cache.misses
    {
      var s0 := Required(KeysOf(poolParent, 2, model), cache.entries.Keys);
      s0 < poolParentSize ==> poolParentSize + (2 - s0) <= PoolParentSize
    }

    /** The counters are a tally over a start value with one counter per model. */
    ghost predicate TalliedFrom(t0: Tally, model: int, g: Growth)
      requires cache.Valid()
      reads cache, cache.requests, cache.hits, cache.misses
    {
      |t0.requests| == NumberOfModels && |t0.hits| == NumberOfModels && |t0.misses| == NumberOfModels &&
      0 <= model < NumberOfModels && cache.Counters() == Tallied(t0, model, g.lookups, g.hits)
    }

    /** One try of `fill_parent_pool`: parent `used` is shuffled and the parents are counted again. */
    method TryParent(model: int, ks: seq<int>, used: int, solvers: int, ghost g: Growth, ghost t0: Tally)
      returns (used': int, solvers': int, ghost r: Growth)
      requires Counting() && Shaped(poolParent[..], numberOfGenes) && PositionsIn(ks, numberOfGenes) && TalliedFrom(t0, model, g)
      requires Tracks(g, model, numberOfGenes, cache.entries.Keys) && g.pool == poolParent[..]
      requires g.used == used && g.solvers == solvers && used < poolParent.Length
      modifies poolParent, cache.requests, cache.hits, cache.misses
      ensures Counting() && Shaped(poolParent[..], numberOfGenes) && TalliedFrom(t0, model, r)
      ensures r == Tried(g, Shuffled(g.pool[used].genes, ks, numberOfGenes), model, numberOfGenes, cache.entries.Keys)
      ensures r.pool == poolParent[..] && r.used == used' && r.solvers == solvers'
    {
      ShuffleParent(used, ks);
      ghost var genes := Shuffled(g.pool[used].genes, ks, numberOfGenes);
      var now := SolversRequired(used + 1, poolParent, model);
      TalliedTwice(t0, model, g.lookups, g.hits, used + 1, Hits(KeysOf(poolParent, used + 1, model), cache.entries.Keys));
      r := Tried(g, genes, model, numberOfGenes, cache.entries.Keys);
      TriedCounts(g, genes, model, numberOfGenes, cache.entries.Keys);
      assert r.pool == poolParent[..];
      if now > solvers {
        used', solvers' := used + 1, now;
      } else {
        used', solvers' := used, solvers;
      }
    }

    /** One try of `grow_clones_pool`: clone `used` is randomised and the clones are counted again. */
    method TryClone(model: int, d: seq<GeneDraw>, used: int, solvers: int, ghost g: Growth, ghost t0: Tally)
      returns (used': int, solvers': int, ghost r: Growth)
      requires Counting() && Shaped(poolClones[..], numberOfGenes) && PartnersIn(d, numberOfGenes) && TalliedFrom(t0, model, g)
      requires Tracks(g, model, numberOfGenes, cache.entries.Keys) && g.pool == poolClones[..]
      requires g.used == used && g.solvers == solvers && used < poolClones.Length
      modifies poolClones, cache.requests, cache.hits, cache.misses
      ensures Counting() && Shaped(poolClones[..], numberOfGenes) && TalliedFrom(t0, model, r)
      ensures r == Tried(g, Randomised(g.pool[used].genes, d), model, numberOfGenes, cache.entries.Keys)
      ensures r.pool == poolClones[..] && r.used == used' && r.solvers == solvers'
    {
      RandomiseClone(used, d);
      var now := SolversRequired(used + 1, poolClones, model);
      TalliedTwice(t0, model, g.lookups, g.hits, used + 1, Hits(KeysOf(poolClones, used + 1, model), cache.entries.Keys));
      r := Tried(g, Randomised(g.pool[used].genes, d), model, numberOfGenes, cache.entries.Keys);
      TriedCounts(g, Randomised(g.pool[used].genes, d), model, numberOfGenes, cache.entries.Keys);
      assert r.pool == poolClones[..];
      if now > solvers {
        used', solvers' := used + 1, now;
      } else {
        used', solvers' := used, solvers;
      }
    }

    /**
     * `fill_parent_pool`: with two seeds in the pool, shuffled copies of
     * the individual in the next slot are tried until the parents need
     * `pool_parent_size` solvers. The source loops until they do; the model
     * takes one draw of positions per try and reports `FuelExhausted` when
     * the draws run out first.
     */
    method FillParentPool(model: int, draws: seq<seq<int>>) returns (outcome: Outcome)
      requires Valid() && numberOfGenes > 0 && 0 <= model < NumberOfModels && AllPositions(draws, numberOfGenes)
      requires RoomToFill(model)
      modifies poolParent, cache.requests, cache.hits, cache.misses
      ensures Valid()
      ensures var cached := cache.entries.Keys;
              var r := ParentsFilled(Begun(old(poolParent[..]), 2, model, numberOfGenes, cached), draws, model, numberOfGenes, cached, poolParentSize);
              poolParent[..] == r.pool && (outcome == if r.solvers >= poolParentSize then Finished else FuelExhausted) &&
              cache.Counters() == Tallied(old(cache.Counters()), model, r.lookups, r.hits)
    {
      ghost var cached := cache.entries.Keys;
      ghost var t0 := cache.Counters();
      var used := 2;
      var solvers := SolversRequired(2, poolParent, model);
      ghost var g := Begun(poolParent[..], 2, model, numberOfGenes, cached);
      ghost var g0 := g;
      var a := 0;
      while solvers < poolParentSize && a < |draws|
        invariant 0 <= a <= |draws| && Counting() && Shaped(poolParent[..], numberOfGenes) && TalliedFrom(t0, model, g)
        invariant Tracks(g, model, numberOfGenes, cached) && g.pool == poolParent[..] && g.used == used && g.solvers == solvers
        invariant g.solvers < poolParentSize ==> poolParentSize + (g.used - g.solvers) <= |g.pool|
        invariant ParentsFilled(g, draws[a..], model, numberOfGenes, cached, poolParentSize) ==
                  ParentsFilled(g0, draws, model, numberOfGenes, cached, poolParentSize)
      {
        assert draws[a..][1..] == draws[a + 1..];
        used, solvers, g := TryParent(model, draws[a], used, solvers, g, t0);
        a := a + 1;
      }
      outcome := if solvers >= poolParentSize then Finished else FuelExhausted;
    }

    /**
     * `grow_clones_pool`: after the `default_number_of_clones` clones,
     * randomised clones are tried until the pool needs as many solvers as
     * there are default clones (or evaluations left, if fewer), or until
     * MAX_RANDOMISATION_ATTEMPTS tries in a row add nothing. Returns the
     * grown pool size. The model takes one draw per try and reports
     * `FuelExhausted` when the draws run out first.
     */
    method GrowClonesPool(model: int, draws: seq<seq<GeneDraw>>) returns (used: int, outcome: Outcome)
      requires Valid() && 0 <= model < NumberOfModels && AllPartners(draws, numberOfGenes)
      modifies poolClones, cache.requests, cache.hits, cache.misses
      ensures Valid()
      ensures var cached := cache.entries.Keys;
              var maxSolvers := Min(defaultNumberOfClones, maxEvaluations - old(numberOfCountedEvals));
              var r := ClonesGrown(Begun(old(poolClones[..]), defaultNumberOfClones, model, numberOfGenes, cached),
                                   draws, model, numberOfGenes, cached, maxSolvers);
              poolClones[..] == r.pool && used == r.used &&
              (outcome == if r.solvers >= maxSolvers || r.attempts >= MaxRandomisationAttempts then Finished else FuelExhausted) &&
              cache.Counters() == Tallied(old(cache.Counters()), model, r.lookups, r.hits)
      ensures defaultNumberOfClones <= used <= poolClonesSize
    {
      var maxSolvers := Min(defaultNumberOfClones, maxEvaluations - numberOfCountedEvals);
      var solvers, attempts;
      used, solvers, attempts := TryClones(model, draws, maxSolvers);
      outcome := if solvers >= maxSolvers || attempts >= MaxRandomisationAttempts then Finished else FuelExhausted;
    }

    /** The count and the loop of `grow_clones_pool`. */
    method TryClones(model: int, draws: seq<seq<GeneDraw>>, maxSolvers: int) returns (used: int, solvers: int, attempts: int)
      requires Counting() && Shaped(poolClones[..], numberOfGenes) && 0 <= model < NumberOfModels && AllPartners(draws, numberOfGenes)
      requires 0 <= defaultNumberOfClones <= poolClones.Length && maxSolvers + defaultNumberOfClones <= poolClones.Length
      modifies poolClones, cache.requests, cache.hits, cache.misses
      ensures Counting() && Shaped(poolClones[..], numberOfGenes)
      ensures var cached := cache.entries.Keys;
              var r := ClonesGrown(Begun(old(poolClones[..]), defaultNumberOfClones, model, numberOfGenes, cached),
                                   draws, model, numberOfGenes, cached, maxSolvers);
              poolClones[..] == r.pool && used == r.used && solvers == r.solvers && attempts == r.attempts &&
              cache.Counters() == Tallied(old(cache.Counters()), model, r.lookups, r.hits)
      ensures defaultNumberOfClones <= used
    {
      ghost var cached := cache.entries.Keys;
      ghost var t0 := cache.Counters();
      solvers := SolversRequired(defaultNumberOfClones, poolClones, model);
      ghost var g0 := Begun(poolClones[..], defaultNumberOfClones, model, numberOfGenes, cached);
      ghost var g := g0;
      used, attempts := defaultNumberOfClones, 0;
      var a := 0;
      while solvers < maxSolvers && attempts < MaxRandomisationAttempts && a < |draws|
        invariant 0 <= a <= |draws| && Counting() && Shaped(poolClones[..], numberOfGenes) && TalliedFrom(t0, model, g)
        invariant Tracks(g, model, numberOfGenes, cached) && g.pool == poolClones[..]
        invariant g.used == used && g.solvers == solvers && g.attempts == attempts && defaultNumberOfClones <= used
        invariant g.solvers < maxSolvers ==> maxSolvers + (g.used - g.solvers) <= |g.pool|
        invariant ClonesGrown(g, draws[a..], model, numberOfGenes, cached, maxSolvers) ==
                  ClonesGrown(g0, draws, model, numberOfGenes, cached, maxSolvers)
      {
        assert draws[a..][1..] == draws[a + 1..];
        var now;
        now, solvers, g := TryClone(model, draws[a], used, solvers, g, t0);
        if now == used {
          attempts := attempts + 1;
        } else {
          used := now;
          attempts := 0;
        }
        a := a + 1;
      }
    }

    /** `get_best_fitness`: the fitness of the fittest parent. */
    method GetBestFitness() returns (best: real)
      requires Valid() && numberOfGenes > 0
      ensures Sound(State()) && best == BestFitness(State())
    {
      var k := GetBestParent();
      best := poolParent[k].fitness;
    }

    /**
     * `time_to_terminate`, with the clock reading `time(NULL)` as `now`. A
     * search with no genes or one already terminated stops at once;
     * otherwise the evaluation cap, then the stability of the best parent's
     * fitness (`get_best_fitness`) and then the time limit are checked, and
     * a search that stops is marked terminated.
     */
    method TimeToTerminate(now: int) returns (stop: bool)
      requires Valid()
      modifies this`terminated, this`stableGenerations, this`stableFitness
      ensures Valid()
      ensures old(numberOfGenes == 0 || terminated) ==> stop && unchanged(this)
      ensures stop <==> numberOfGenes == 0 || terminated
      ensures !old(numberOfGenes == 0 || terminated) && old(numberOfCountedEvals) >= maxEvaluations ==>
                stop && terminated && stableGenerations == old(stableGenerations) && stableFitness == old(stableFitness)
      ensures !old(numberOfGenes == 0 || terminated) && old(numberOfCountedEvals) < maxEvaluations ==>
                Sound(State()) &&
                var best := BestFitness(State());
                stableFitness == best &&
                stableGenerations == (if Distance(best, old(stableFitness)) < FloatPrecision then old(stableGenerations) + 1 else 0) &&
                (terminated <==> stableGenerations >= StableForXGenerations || now - startSeconds > maxSeconds)
    {
      if numberOfGenes == 0 || terminated {
        return true;
      }
      if numberOfCountedEvals >= maxEvaluations {
        terminated := true;
        return true;
      }
      var bestFitness := GetBestFitness();
      if Distance(bestFitness, stableFitness) < FloatPrecision {
        stableGenerations := stableGenerations + 1;
      } else {
        stableGenerations := 0;
      }
      stableFitness := bestFitness;
      if stableGenerations >= StableForXGenerations {
        terminated := true;
        return true;
      }
      if now - startSeconds > maxSeconds {
        terminated := true;
        return true;
      }
      return false;
    }

    // -------------------------------------------------------------------
    // One generation (`protect` of the incremental and grouped searches)
    // -------------------------------------------------------------------

    /** The operators and the sizes the constructor chose; nothing changes them afterwards. */
    ghost predicate Configured()
    {
      algorithmForSelection == TournamentSelection && algorithmForCrossover == OrderedCrossover &&
      algorithmForMutation == AssortedMutationType && algorithmForReplacement == TournamentReplacement &&
      (numberOfGenes > 0 ==>
         2 <= cores && maxEvaluations == SizesFor(numberOfGenes, cores).maxEvaluations &&
         defaultNumberOfClones == SizesFor(numberOfGenes, cores).defaultClones)
    }

    /** Every live parent holds the genes of `genes` in some order. */
    ghost predicate Permuting(genes: seq<int>)
      reads this, poolParent
    {
      poolParentSize <= poolParent.Length &&
      forall k :: 0 <= k < poolParentSize ==> multiset(poolParent[k].genes) == multiset(genes)
    }

    /** `x` is one of the live parents. */
    ghost predicate LiveParent(x: Individual)
      reads this, poolParent
    {
      exists k :: 0 <= k < poolParentSize && k < poolParent.Length && x == poolParent[k]
    }

    /** `select_for_pool_mating` under tournament selection: both mates are live parents. */
    method SelectMates(d: Generation)
      requires Valid() && Configured() && numberOfGenes > 0 && DrawnGeneration(d, numberOfGenes, defaultNumberOfClones)
      modifies poolParent, poolMating
      ensures Valid() && poolParent[..] == old(poolParent[..])
      ensures forall i :: 0 <= i < PoolMatingSize ==> LiveParent(poolMating[i])
    {
      SelectForPoolMating(d.selection, d.r0, d.r1);
      ghost var f := Fitnesses(poolParent[..poolParentSize]);
      forall i | 0 <= i < PoolMatingSize
        ensures LiveParent(poolMating[i])
      {
        var w := TournamentWinner(f, TournamentIndex(d.selection[i].0, poolParentSize), TournamentIndex(d.selection[i].1, poolParentSize));
        assert 0 <= w < poolParentSize && poolMating[i] == poolParent[w];
      }
    }

    /**
     * `apply_crossover` with order crossover: mates that are orderings of
     * distinct genes give an offspring that is one more ordering of them.
     */
    method Cross(d: Generation, ghost genes: seq<int>) returns (outcome: Outcome)
      requires Valid() && Configured() && numberOfGenes > 0
      requires 0 <= d.cut1 < numberOfGenes && 0 <= d.cut2 < numberOfGenes && d.cut1 != d.cut2
      requires AllOrderings(poolMating[..], genes) && Distinct(genes) && -1 !in genes
      modifies poolOffspring, this`numberOfOffspring
      ensures Valid()
      ensures outcome == Crossing(d.recombine, d.cut1, d.cut2, d.fuel).0
      ensures outcome.Finished? ==> AllOrderings(poolOffspring[..], genes)
    {
      ghost var p1, p2 := MatingGenes(0), MatingGenes(1);
      assert multiset(p1) == multiset(genes) && multiset(p2) == multiset(genes) by {
        assert poolMating[..][0] == poolMating[0] && poolMating[..][1] == poolMating[1];
      }
      PermutationDistinct(genes, p1);
      assert -1 !in p1 by {
        assert multiset(genes)[-1] == 0;
      }
      outcome := ApplyCrossover(d.recombine, d.cut1, d.cut2, d.fuel);
      if outcome.Finished? {
        OrderRecombinationKeepsGenes(p1, p2, d.recombine, Min(d.cut1, d.cut2), Max(d.cut1, d.cut2), d.fuel);
        assert poolOffspring[..] == [poolOffspring[0]];
      }
    }

    /**
     * `select_for_pool_mating` then `apply_crossover`: the two mates are
     * live parents, so when the parents are orderings of distinct genes
     * the offspring is one more ordering of them.
     */
    method Mate(d: Generation, ghost genes: seq<int>) returns (outcome: Outcome)
      requires Valid() && Configured() && numberOfGenes > 0 && DrawnGeneration(d, numberOfGenes, defaultNumberOfClones)
      requires Permuting(genes) && Distinct(genes) && -1 !in genes
      modifies poolParent, poolMating, poolOffspring, this`numberOfOffspring
      ensures Valid() && poolParent[..] == old(poolParent[..]) && Permuting(genes)
      ensures forall i :: 0 <= i < PoolMatingSize ==> LiveParent(poolMating[i])
      ensures outcome == Crossing(d.recombine, d.cut1, d.cut2, d.fuel).0
      ensures outcome.Finished? ==> AllOrderings(poolOffspring[..], genes)
    {
      SelectMates(d);
      assert AllOrderings(poolMating[..], genes) by {
        forall i | 0 <= i < PoolMatingSize
          ensures multiset(poolMating[..][i].genes) == multiset(genes)
        {
          var k :| 0 <= k < poolParentSize && k < poolParent.Length && poolMating[i] == poolParent[k];
        }
      }
      outcome := Cross(d, genes);
    }

    /**
     * `duplicate_clones` then `apply_mutation`: every clone is a mutated
     * copy of the offspring, so it holds the offspring's genes in some order.
     */
    method Clone(offspring: int, b: Brood, ghost genes: seq<int>)
      requires Valid() && numberOfGenes >= 2 && 1 <= defaultNumberOfClones
      requires 0 <= offspring < poolOffspring.Length && DrawnBrood(b, numberOfGenes, defaultNumberOfClones)
      requires multiset(poolOffspring[offspring].genes) == multiset(genes)
      modifies poolClones, this`mutationType
      ensures Valid() && AllOrderings(poolClones[..], genes)
    {
      DuplicateClones(offspring);
      ghost var before := poolClones[..];
      ghost var m0 := mutationType;
      ghost var randomClones := if poolParentSize < PoolParentSize then 1 else 0;
      ApplyMutation(b.mutation);
      forall k | 0 <= k < poolClones.Length
        ensures multiset(poolClones[..][k].genes) == multiset(genes)
      {
        if k < defaultNumberOfClones {
          DrawnPrefix(b.mutation, k, defaultNumberOfClones, numberOfGenes);
        }
        MutatedPoolAt(before, numberOfGenes, algorithmForMutation, m0, randomClones, defaultNumberOfClones, b.mutation,
                      1.0 / numberOfGenes as real, k);
        assert before[k] == poolOffspring[offspring];
      }
    }

    /**
     * `grow_clones_pool(YPLUS_MODEL)`: the randomised clones are
     * reorderings of the clones they replace.
     */
    method Grow(growth: seq<seq<GeneDraw>>, ghost genes: seq<int>) returns (outcome: Outcome, used: int)
      requires Valid() && AllPartners(growth, numberOfGenes) && AllOrderings(poolClones[..], genes)
      modifies poolClones, cache.requests, cache.hits, cache.misses
      ensures Valid() && defaultNumberOfClones <= used <= poolClonesSize && AllOrderings(poolClones[..], genes)
    {
      ghost var before := poolClones[..];
      ghost var maxSolvers := Min(defaultNumberOfClones, maxEvaluations - numberOfCountedEvals);
      used, outcome := GrowClonesPool(YPlusModel, growth);
      GrownOrderings(before, defaultNumberOfClones, growth, YPlusModel, numberOfGenes, cache.entries.Keys, maxSolvers, genes);
    }

    /**
     * `evaluate_fitness` of the first `used` clones under YPLUS_MODEL,
     * counted and under the cost ceiling `maxCost`: the evaluation keeps
     * every clone's genes, and every run asked of the server carries the
     * search's protection, the model and the ceiling.
     */
    method EvaluateClones(used: int, protection: int, maxCost: real, replies: Oracle, rounds: nat, ghost genes: seq<int>)
      returns (outcome: Outcome, runs: seq<SolverRun>)
      requires Valid() && 0 <= used <= poolClones.Length && Answers(replies, numberOfGenes) && AllOrderings(poolClones[..], genes)
      modifies poolClones, cache, cache.requests, cache.hits, cache.misses, this`numberOfEvals, this`numberOfCountedEvals
      ensures Valid()
      ensures outcome.Finished? ==>
                AllOrderings(poolClones[..], genes) &&
                forall j :: 0 <= j < |runs| ==>
                  runs[j].model == YPlusModel && runs[j].protection == protection && runs[j].maxCost == maxCost
    {
      ghost var before := poolClones[..];
      outcome, runs := EvaluateFitness(used, poolClones, protection, YPlusModel, true, maxCost, replies, rounds);
      if outcome.Finished? {
        forall k | 0 <= k < poolClones.Length
          ensures multiset(poolClones[..][k].genes) == multiset(genes)
        {
          if k >= used {
            assert poolClones[k] == poolClones[used..][k - used] == before[used..][k - used];
          } else {
            assert before[k] == old(poolClones[k]);
          }
        }
      }
    }

    /**
     * `replacement(used)`: the live parents after it are live parents from
     * before or a clone, so they still hold the genes in some order, and
     * the pool grows by one parent at most.
     */
    method Replace(used: int, r: real, ghost genes: seq<int>) returns (outcome: Outcome)
      requires Valid() && Configured() && numberOfGenes > 0 && 1 <= used <= poolClones.Length && 0.0 <= r <= 1.0
      requires Permuting(genes) && AllOrderings(poolClones[..], genes)
      modifies this`poolParentSize, this`replaceNext, poolParent
      ensures Valid() && Permuting(genes)
      ensures old(poolParentSize) <= poolParentSize <= old(poolParentSize) + 1
    {
      ghost var p := State();
      outcome := Replacement(used, r);
      var res := FittestClone(Fitnesses(poolClones[..used]), r);
      if res.Ok? {
        FittestCloneIsFittest(Fitnesses(poolClones[..used]), r);
        ghost var clone := poolClones[res.value];
        assert multiset(clone.genes) == multiset(genes) by {
          assert clone == poolClones[..][res.value];
        }
        ReplacedSound(algorithmForReplacement, p, clone);
        forall k | 0 <= k < poolParentSize
          ensures multiset(poolParent[k].genes) == multiset(genes)
        {
          ReplacedLiveFrom(algorithmForReplacement, p, clone, k);
          assert poolParent[k] == State().pool[k];
        }
      }
    }

    /**
     * One turn of `protect`'s loop over the offspring: the clones of
     * offspring `offspring` are mutated, grown, evaluated and offered to
     * the parent pool.
     */
    method Breed(offspring: int, b: Brood, protection: int, maxCost: real, rounds: nat, ghost genes: seq<int>)
      returns (outcome: Outcome, runs: seq<SolverRun>)
      requires Valid() && Configured() && numberOfGenes >= 2 && 1 <= defaultNumberOfClones
      requires 0 <= offspring < poolOffspring.Length && DrawnBrood(b, numberOfGenes, defaultNumberOfClones)
      requires Permuting(genes) && multiset(poolOffspring[offspring].genes) == multiset(genes)
      modifies poolParent, poolClones, cache, cache.requests, cache.hits, cache.misses
      modifies this`mutationType, this`numberOfEvals, this`numberOfCountedEvals, this`poolParentSize, this`replaceNext
      ensures Valid() && Permuting(genes)
      ensures old(poolParentSize) <= poolParentSize <= old(poolParentSize) + 1
      ensures outcome.Finished? ==>
                forall j :: 0 <= j < |runs| ==>
                  runs[j].model == YPlusModel && runs[j].protection == protection && runs[j].maxCost == maxCost
    {
      Clone(offspring, b, genes);
      var used;
      runs := [];
      outcome, used := Grow(b.growth, genes);
      if !outcome.Finished? {
        return;
      }
      outcome, runs := EvaluateClones(used, protection, maxCost, b.replies, rounds, genes);
      if !outcome.Finished? {
        return;
      }
      outcome := Replace(used, b.replace, genes);
    }

    /**
     * `protect`'s loop over the offspring, every clone evaluated under the
     * cost ceiling `maxCost`; it stops at the first step that does not finish.
     */
    method BreedAll(d: Generation, protection: int, maxCost: real, ghost genes: seq<int>)
      returns (outcome: Outcome, runs: seq<SolverRun>)
      requires Valid() && Configured() && 2 <= numberOfGenes && 1 <= defaultNumberOfClones
      requires DrawnGeneration(d, numberOfGenes, defaultNumberOfClones)
      requires Permuting(genes) && AllOrderings(poolOffspring[..], genes)
      modifies poolParent, poolClones, cache, cache.requests, cache.hits, cache.misses
      modifies this`mutationType, this`numberOfEvals, this`numberOfCountedEvals, this`poolParentSize, this`replaceNext
      ensures Valid() && Permuting(genes)
      ensures old(poolParentSize) <= poolParentSize <= old(poolParentSize) + PoolOffspringSize
      ensures forall j :: 0 <= j < |runs| ==>
                runs[j].model == YPlusModel && runs[j].protection == protection && runs[j].maxCost == maxCost
    {
      runs := [];
      outcome := Finished;
      var offspring := 0;
      while offspring < PoolOffspringSize
        invariant 0 <= offspring <= PoolOffspringSize && Valid() && Permuting(genes)
        invariant old(poolParentSize) <= poolParentSize <= old(poolParentSize) + offspring
        invariant forall j :: 0 <= j < |runs| ==>
                    runs[j].model == YPlusModel && runs[j].protection == protection && runs[j].maxCost == maxCost
      {
        var issued;
        assert multiset(poolOffspring[..][offspring].genes) == multiset(genes);
        outcome, issued := Breed(offspring, d.broods[offspring], protection, maxCost, d.rounds, genes);
        if !outcome.Finished? {
          return;
        }
        runs := runs + issued;
        offspring := offspring + 1;
      }
    }

    /** `evaluate_best_parent` as `protect` ends: the best parent's whole genome is the key. */
    method EvaluateBest(protection: int, o: Oracle, rounds: nat) returns (outcome: Outcome, issued: seq<SolverRun>)
      requires Valid() && numberOfGenes > 0 && Answers(o, numberOfGenes)
      modifies cache, cache.requests, cache.hits, cache.misses, this`numberOfEvals, this`numberOfCountedEvals
      ensures Valid()
      ensures outcome.Finished? ==>
                var best := poolParent[FirstMinimum(Fitnesses(poolParent[..]), poolParentSize)];
                Key(YMinusModel, best.genes) in cache.entries &&
                forall j :: 0 <= j < |issued| ==>
                  issued[j].genes == best.genes && issued[j].model == YMinusModel &&
                  issued[j].protection == protection && issued[j].maxCost == 0.0
    {
      var fitness;
      ghost var best := poolParent[FirstMinimum(Fitnesses(poolParent[..]), poolParentSize)];
      assert best.genes[..numberOfGenes] == best.genes by {
        assert best in poolParent[..];
      }
      outcome, fitness, issued := EvaluateBestParent(protection, o, rounds);
    }

    /**
     * `protect(limit_cost)`, whose `protection` is the search's kind: with
     * no genes, or no clones to breed, nothing happens; otherwise the worst
     * parent fitness is the cost ceiling of every clone evaluated (when
     * costs are limited), a generation of offspring is bred, and the best
     * parent is evaluated again. Parents that hold the genes in some order
     * keep doing so, and the parent pool grows by one per offspring at
     * most. `runs` are the solver runs of the clones' evaluations and
     * `bestRuns` those of the best parent's. The guard on clones is not in
     * the source; a search built with no clones has already reached its
     * evaluation cap, so `TimeToTerminate` stops it before it gets here.
     */
    method Protect(protection: int, limitCost: bool, d: Generation, ghost genes: seq<int>)
      returns (outcome: Outcome, runs: seq<SolverRun>, bestRuns: seq<SolverRun>)
      requires Valid() && Configured()
      requires numberOfGenes > 0 && defaultNumberOfClones > 0 ==> DrawnGeneration(d, numberOfGenes, defaultNumberOfClones)
      requires Permuting(genes) && Distinct(genes) && -1 !in genes
      modifies poolParent, poolMating, poolOffspring, poolClones, cache, cache.requests, cache.hits, cache.misses
      modifies this`numberOfOffspring, this`mutationType, this`numberOfEvals, this`numberOfCountedEvals
      modifies this`poolParentSize, this`replaceNext
      ensures Valid() && Permuting(genes)
      ensures numberOfGenes == 0 || defaultNumberOfClones == 0 ==>
                outcome == Finished && runs == [] && bestRuns == [] &&
                unchanged(this, poolParent, poolMating, poolOffspring, poolClones, cache, cache.requests, cache.hits, cache.misses)
      ensures old(poolParentSize) <= poolParentSize <= old(poolParentSize) + PoolOffspringSize
      ensures forall j :: 0 <= j < |runs| ==>
                runs[j].model == YPlusModel && runs[j].protection == protection &&
                if limitCost then IsWorst(old(Fitnesses(poolParent[..poolParentSize])), runs[j].maxCost) else runs[j].maxCost == 0.0
      ensures outcome.Finished? && numberOfGenes > 0 && defaultNumberOfClones > 0 ==>
                var best := poolParent[FirstMinimum(Fitnesses(poolParent[..]), poolParentSize)];
                Key(YMinusModel, best.genes) in cache.entries &&
                forall j :: 0 <= j < |bestRuns| ==>
                  bestRuns[j].genes == best.genes && bestRuns[j].model == YMinusModel &&
                  bestRuns[j].protection == protection && bestRuns[j].maxCost == 0.0
    {
      runs, bestRuns := [], [];
      if numberOfGenes == 0 || defaultNumberOfClones == 0 {
        return Finished, runs, bestRuns;
      }
      FewGenesNoClones(numberOfGenes, cores);
      var worst := GetWorstFitness();
      var ceiling := if limitCost then worst else 0.0;
      outcome := Mate(d, genes);
      if !outcome.Finished? {
        return;
      }
      outcome, runs := BreedAll(d, protection, ceiling, genes);
      if !outcome.Finished? {
        return;
      }
      outcome, bestRuns := EvaluateBest(protection, d.best, d.rounds);
    }
  }
}
