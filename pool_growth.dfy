/**
 * How `fill_parent_pool` and `grow_clones_pool` (`GAProtection.cpp`) add
 * random individuals to a pool until there is work for every solver: a
 * candidate genome is tried in the first free slot, and the pool grows by
 * it only when the pool then needs one more solver (a candidate that is
 * cached or equal to an earlier member is tried again).
 */
module PoolGrowth {
  import opened Common
  import opened Evaluations
  import opened Genomes
  import opened Scheduling
  import opened Individuals

  /** Positions drawn by `(GeneIndex)(N * random())`: n of them, each in [0, n). */
  predicate PositionsIn(ks: seq<int>, n: int)
  {
    |ks| == n && forall j :: 0 <= j < n ==> 0 <= ks[j] < n
  }

  /** Every draw of a sequence of them is a set of positions. */
  predicate AllPositions(draws: seq<seq<int>>, n: int)
  {
    forall a :: 0 <= a < |draws| ==> PositionsIn(draws[a], n)
  }

  /** Every draw of a sequence of them is a set of swap partners. */
  predicate AllPartners(draws: seq<seq<GeneDraw>>, n: int)
  {
    forall a :: 0 <= a < |draws| ==> PartnersIn(draws[a], n)
  }

  /** The shuffle of `fill_parent_pool`: gene j is exchanged with gene ks[j], for j = 0, 1, ..., k - 1. */
  function Shuffled(g: seq<int>, ks: seq<int>, k: nat): (r: seq<int>)
    requires PositionsIn(ks, |g|) && k <= |g|
    ensures |r| == |g|
  {
    if k == 0 then g else Swap(Shuffled(g, ks, k - 1), k - 1, ks[k - 1])
  }

  /** The shuffle only reorders the genes. */
  lemma {:induction false} ShuffledKeeps(g: seq<int>, ks: seq<int>, k: nat)
    requires PositionsIn(ks, |g|) && k <= |g|
    ensures multiset(Shuffled(g, ks, k)) == multiset(g)
  {
    if k > 0 {
      ShuffledKeeps(g, ks, k - 1);
      SwapStillKeeps(Shuffled(g, ks, k - 1), g, k - 1, ks[k - 1]);
    }
  }

  /**
   * A pool being grown: its members, `used_pool_size`, the solvers its
   * first `used` members need, the cache lookups and hits the calls of
   * `solvers_required` made, and `randomisation_attempts`.
   */
  datatype Growth = Growth(pool: seq<Individual>, used: nat, solvers: nat, lookups: nat, hits: nat, attempts: nat)

  /** `solvers` is what `solvers_required(used)` reports for the pool. */
  predicate Tracks(g: Growth, model: int, n: nat, cached: set<Key>)
  {
    Shaped(g.pool, n) && g.used <= |g.pool| &&
    g.solvers == Required(PoolKeys(g.pool[..g.used], model, n), cached)
  }

  /**
   * A candidate genome put in slot `used` and counted with
   * `solvers_required(used + 1)`: the pool grows by it exactly when the
   * count rises. The count looks up `used + 1` genomes in the cache. A try
   * that fails adds one to the attempts and one that succeeds resets them
   * (only `grow_clones_pool` looks at the attempts).
   */
  function Tried(g: Growth, genes: seq<int>, model: int, n: nat, cached: set<Key>): (r: Growth)
    requires Tracks(g, model, n, cached) && g.used < |g.pool| && |genes| == n
    ensures Tracks(r, model, n, cached)
    ensures r.used - r.solvers == g.used - g.solvers
    ensures r.solvers == g.solvers || r.solvers == g.solvers + 1
    ensures |r.pool| == |g.pool| && r.pool[g.used] == g.pool[g.used].(genes := genes)
    ensures forall k :: 0 <= k < |g.pool| && k != g.used ==> r.pool[k] == g.pool[k]
    ensures r.lookups == g.lookups + g.used + 1
    ensures r.attempts == if r.solvers == g.solvers then g.attempts + 1 else 0
  {
    var pool := g.pool[g.used := g.pool[g.used].(genes := genes)];
    var keys := PoolKeys(pool[..g.used + 1], model, n);
    assert keys[..g.used] == PoolKeys(g.pool[..g.used], model, n);
    assert keys == keys[..g.used] + [keys[g.used]];
    RequiredGrowsByAtMostOne(keys[..g.used], keys[g.used], cached);
    var now := Required(keys, cached);
    if now > g.solvers then Growth(pool, g.used + 1, now, g.lookups + g.used + 1, g.hits + Hits(keys, cached), 0)
    else
      assert pool[..g.used] == g.pool[..g.used];
      Growth(pool, g.used, g.solvers, g.lookups + g.used + 1, g.hits + Hits(keys, cached), g.attempts + 1)
  }

  /** A try counts the first `used + 1` members of the new pool: those are its hits, and its growth is decided by them. */
  lemma TriedCounts(g: Growth, genes: seq<int>, model: int, n: nat, cached: set<Key>)
    requires Tracks(g, model, n, cached) && g.used < |g.pool| && |genes| == n
    ensures var r := Tried(g, genes, model, n, cached);
            var keys := PoolKeys(r.pool[..g.used + 1], model, n);
            r.hits == g.hits + Hits(keys, cached) &&
            (Required(keys, cached) > g.solvers ==> r.used == g.used + 1 && r.solvers == Required(keys, cached)) &&
            (Required(keys, cached) <= g.solvers ==> r.used == g.used && r.solvers == g.solvers)
  {
  }

  /** A pool's state after its first `solvers_required(used)`. */
  function Begun(pool: seq<Individual>, used: nat, model: int, n: nat, cached: set<Key>): (g: Growth)
    requires Shaped(pool, n) && used <= |pool|
    ensures Tracks(g, model, n, cached) && g.pool == pool && g.used == used && g.lookups == used && g.attempts == 0
  {
    var keys := PoolKeys(pool[..used], model, n);
    Growth(pool, used, Required(keys, cached), used, Hits(keys, cached), 0)
  }

  /** `randomise_clone`: a swap mutation of every gene. */
  function Randomised(g: seq<int>, d: seq<GeneDraw>): (r: seq<int>)
    requires PartnersIn(d, |g|)
    ensures |r| == |g|
  {
    SwapMutation(g, d, 1.0, |g|)
  }

  lemma RandomisedKeeps(g: seq<int>, d: seq<GeneDraw>)
    requires PartnersIn(d, |g|)
    ensures multiset(Randomised(g, d)) == multiset(g)
  {
  }

  /**
   * `fill_parent_pool` from the state after its first count: while fewer
   * than `target` solvers are needed, the individual in slot `used` is
   * shuffled and tried. One draw of positions is used per try; the model
   * stops when the draws run out.
   */
  function ParentsFilled(g: Growth, draws: seq<seq<int>>, model: int, n: nat, cached: set<Key>, target: int): (r: Growth)
    requires Tracks(g, model, n, cached) && AllPositions(draws, n)
    requires g.solvers < target ==> target + (g.used - g.solvers) <= |g.pool|
    ensures Tracks(r, model, n, cached) && |r.pool| == |g.pool|
    ensures r.used - r.solvers == g.used - g.solvers
    decreases |draws|
  {
    if g.solvers >= target || draws == [] then g
    else
      ParentsFilled(Tried(g, Shuffled(g.pool[g.used].genes, draws[0], n), model, n, cached), draws[1..], model, n, cached, target)
  }

  /**
   * `grow_clones_pool` from the state after its first count: while fewer
   * than `maxSolvers` solvers are needed and fewer than
   * MAX_RANDOMISATION_ATTEMPTS tries in a row have failed, the clone in slot
   * `used` gets a swap mutation of every gene (`randomise_clone`) and is
   * tried; a try that grows the pool resets the attempts. One draw per try;
   * the model stops when the draws run out.
   */
  function ClonesGrown(g: Growth, draws: seq<seq<GeneDraw>>, model: int, n: nat, cached: set<Key>, maxSolvers: int): (r: Growth)
    requires Tracks(g, model, n, cached) && AllPartners(draws, n)
    requires g.solvers < maxSolvers ==> maxSolvers + (g.used - g.solvers) <= |g.pool|
    ensures Tracks(r, model, n, cached) && |r.pool| == |g.pool|
    ensures r.used - r.solvers == g.used - g.solvers
    decreases |draws|
  {
    if g.solvers >= maxSolvers || g.attempts >= MaxRandomisationAttempts || draws == [] then g
    else
      ClonesGrown(Tried(g, Randomised(g.pool[g.used].genes, draws[0]), model, n, cached), draws[1..], model, n, cached, maxSolvers)
  }

  /** Two pools whose members hold the same genes up to order and the same costs. */
  predicate Reordered(a: seq<Individual>, b: seq<Individual>)
  {
    |a| == |b| &&
    forall k :: 0 <= k < |a| ==> multiset(a[k].genes) == multiset(b[k].genes) && a[k].costs == b[k].costs
  }

  /** Every member of the pool holds the genes of `genes` in some order. */
  predicate AllOrderings(pool: seq<Individual>, genes: seq<int>)
  {
    forall k :: 0 <= k < |pool| ==> multiset(pool[k].genes) == multiset(genes)
  }

  /** Reordering the members of a pool of orderings of `genes` leaves orderings of them. */
  lemma ReorderedOrderings(a: seq<Individual>, b: seq<Individual>, genes: seq<int>)
    requires Reordered(a, b) && AllOrderings(b, genes)
    ensures AllOrderings(a, genes)
  {
    forall k | 0 <= k < |a|
      ensures multiset(a[k].genes) == multiset(genes)
    {
      assert multiset(a[k].genes) == multiset(b[k].genes);
    }
  }

  /** A try with a reordering of the genes in slot `used` reorders the pool and leaves the slots before it alone. */
  lemma TriedKeeps(g: Growth, genes: seq<int>, model: int, n: nat, cached: set<Key>)
    requires Tracks(g, model, n, cached) && g.used < |g.pool| && |genes| == n
    requires multiset(genes) == multiset(g.pool[g.used].genes)
    ensures var r := Tried(g, genes, model, n, cached);
            Reordered(r.pool, g.pool) && Agree(r.pool, g.pool, g.used) && g.used <= r.used
  {
  }

  /** The first m members of two pools are the same. */
  predicate Agree(a: seq<Individual>, b: seq<Individual>, m: int)
  {
    m <= |a| && m <= |b| && forall k :: 0 <= k < m ==> a[k] == b[k]
  }

  /**
   * Filling touches only the slots from `used` on and every member keeps
   * its genes up to order: the members are shuffles of what was in their
   * slot.
   */
  lemma {:induction false} ParentsFilledKeeps(g: Growth, draws: seq<seq<int>>, model: int, n: nat, cached: set<Key>, target: int)
    requires Tracks(g, model, n, cached) && AllPositions(draws, n)
    requires g.solvers < target ==> target + (g.used - g.solvers) <= |g.pool|
    ensures var r := ParentsFilled(g, draws, model, n, cached, target);
            Reordered(r.pool, g.pool) && Agree(r.pool, g.pool, g.used) && g.used <= r.used
    decreases |draws|
  {
    if !(g.solvers >= target || draws == []) {
      var genes := Shuffled(g.pool[g.used].genes, draws[0], n);
      ShuffledKeeps(g.pool[g.used].genes, draws[0], n);
      TriedKeeps(g, genes, model, n, cached);
      var t := Tried(g, genes, model, n, cached);
      ParentsFilledKeeps(t, draws[1..], model, n, cached, target);
    }
  }

  /**
   * Filling never asks for more than `target` solvers, and it stops short
   * of them only when every draw has been tried (each try makes at least
   * one cache lookup).
   */
  lemma {:induction false} ParentsFilledStops(g: Growth, draws: seq<seq<int>>, model: int, n: nat, cached: set<Key>, target: int)
    requires Tracks(g, model, n, cached) && AllPositions(draws, n)
    requires g.solvers < target ==> target + (g.used - g.solvers) <= |g.pool|
    ensures var r := ParentsFilled(g, draws, model, n, cached, target);
            (g.solvers <= target ==> r.solvers <= target) &&
            (r.solvers < target ==> g.lookups + |draws| <= r.lookups)
    decreases |draws|
  {
    if !(g.solvers >= target || draws == []) {
      var t := Tried(g, Shuffled(g.pool[g.used].genes, draws[0], n), model, n, cached);
      ParentsFilledStops(t, draws[1..], model, n, cached, target);
    }
  }

  /** Growing the clones touches only the slots from `used` on and keeps every clone's genes up to order. */
  lemma {:induction false} ClonesGrownKeeps(g: Growth, draws: seq<seq<GeneDraw>>, model: int, n: nat, cached: set<Key>, maxSolvers: int)
    requires Tracks(g, model, n, cached) && AllPartners(draws, n)
    requires g.solvers < maxSolvers ==> maxSolvers + (g.used - g.solvers) <= |g.pool|
    ensures var r := ClonesGrown(g, draws, model, n, cached, maxSolvers);
            Reordered(r.pool, g.pool) && Agree(r.pool, g.pool, g.used) && g.used <= r.used
    decreases |draws|
  {
    if !(g.solvers >= maxSolvers || g.attempts >= MaxRandomisationAttempts || draws == []) {
      var genes := Randomised(g.pool[g.used].genes, draws[0]);
      RandomisedKeeps(g.pool[g.used].genes, draws[0]);
      TriedKeeps(g, genes, model, n, cached);
      var t := Tried(g, genes, model, n, cached);
      ClonesGrownKeeps(t, draws[1..], model, n, cached, maxSolvers);
    }
  }

  /** Growing a pool of orderings of `genes` from its first `used` members leaves orderings of them. */
  lemma GrownOrderings(pool: seq<Individual>, used: nat, draws: seq<seq<GeneDraw>>, model: int, n: nat, cached: set<Key>,
                       maxSolvers: int, genes: seq<int>)
    requires Shaped(pool, n) && used <= |pool| && AllPartners(draws, n) && maxSolvers + used <= |pool|
    requires AllOrderings(pool, genes)
    ensures AllOrderings(ClonesGrown(Begun(pool, used, model, n, cached), draws, model, n, cached, maxSolvers).pool, genes)
  {
    var g := Begun(pool, used, model, n, cached);
    ClonesGrownKeeps(g, draws, model, n, cached, maxSolvers);
    ReorderedOrderings(ClonesGrown(g, draws, model, n, cached, maxSolvers).pool, pool, genes);
  }

  /**
   * Growing never asks for more than `maxSolvers` solvers, and it stops
   * short of them only when MAX_RANDOMISATION_ATTEMPTS tries in a row
   * failed or every draw has been tried.
   */
  lemma {:induction false} ClonesGrownStops(g: Growth, draws: seq<seq<GeneDraw>>, model: int, n: nat, cached: set<Key>, maxSolvers: int)
    requires Tracks(g, model, n, cached) && AllPartners(draws, n)
    requires g.solvers < maxSolvers ==> maxSolvers + (g.used - g.solvers) <= |g.pool|
    ensures var r := ClonesGrown(g, draws, model, n, cached, maxSolvers);
            (g.solvers <= maxSolvers ==> r.solvers <= maxSolvers) &&
            (r.solvers >= maxSolvers || r.attempts >= MaxRandomisationAttempts || g.lookups + |draws| <= r.lookups)
    decreases |draws|
  {
    if !(g.solvers >= maxSolvers || g.attempts >= MaxRandomisationAttempts || draws == []) {
      var t := Tried(g, Randomised(g.pool[g.used].genes, draws[0]), model, n, cached);
      ClonesGrownStops(t, draws[1..], model, n, cached, maxSolvers);
    }
  }

  /**
   * When both seeds need a solver and filling reaches `target` solvers, the
   * first `target` parents are pairwise different genomes, none of them
   * cached: `fill_parent_pool` hands the solvers distinct unevaluated
   * individuals.
   */
  lemma FilledParentsDistinct(g: Growth, draws: seq<seq<int>>, model: int, n: nat, cached: set<Key>, target: int)
    requires Tracks(g, model, n, cached) && AllPositions(draws, n)
    requires g.used == g.solvers <= target <= |g.pool|
    ensures var r := ParentsFilled(g, draws, model, n, cached, target);
            r.solvers >= target ==>
              r.used == target &&
              (forall i :: 0 <= i < target ==> Key(model, r.pool[i].genes[..n]) !in cached) &&
              (forall i, j :: 0 <= i < j < target ==> r.pool[i].genes != r.pool[j].genes)
  {
    ParentsFilledStops(g, draws, model, n, cached, target);
    var r := ParentsFilled(g, draws, model, n, cached, target);
    if r.solvers >= target {
      FilledDistinct(r, model, n, cached);
    }
  }

  /**
   * Once the pool needs one solver per member, its members are pairwise
   * different genomes none of which is cached: when `fill_parent_pool` ends
   * with its two seeds each needing a solver, the parents are
   * `pool_parent_size` distinct unevaluated individuals.
   */
  lemma FilledDistinct(g: Growth, model: int, n: nat, cached: set<Key>)
    requires Tracks(g, model, n, cached) && g.solvers == g.used
    ensures forall i :: 0 <= i < g.used ==> Key(model, g.pool[i].genes[..n]) !in cached
    ensures forall i, j :: 0 <= i < j < g.used ==> g.pool[i].genes != g.pool[j].genes
  {
    var keys := PoolKeys(g.pool[..g.used], model, n);
    RequiredAllNeed(keys, cached);
    forall i, j | 0 <= i < j < g.used
      ensures g.pool[i].genes != g.pool[j].genes
    {
      assert keys[i] != keys[j];
      assert g.pool[i].genes == g.pool[i].genes[..n];
    }
  }
}
