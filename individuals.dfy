/**
 * The individuals of the genetic search (`struct Individual` of
 * `GAProtection.h`) as values, and the facts about pools of them that the
 * operations of `GAProtection` rely on.
 */
module Individuals {
  import opened Common
  import opened Evaluations

  /**
   * `struct Individual`: a genome, the costs the solver reported for it
   * (`number_of_costs` is their count) and its fitness.
   */
  datatype Individual = Individual(genes: seq<int>, costs: seq<real>, fitness: real)

  /** How an operation that may hit a fatal error or run out of fuel ended. */
  datatype Outcome = Finished | Failed(code: int) | FuelExhausted

  /** Every individual has a genome of n genes and at most n costs. */
  predicate Shaped(s: seq<Individual>, n: nat)
  {
    forall k :: 0 <= k < |s| ==> |s[k].genes| == n && |s[k].costs| <= n
  }

  /** The fitness values of a pool. */
  function Fitnesses(s: seq<Individual>): (f: seq<real>)
    ensures |f| == |s| && forall k :: 0 <= k < |s| ==> f[k] == s[k].fitness
  {
    seq(|s|, k requires 0 <= k < |s| => s[k].fitness)
  }

  function FitnessKey(x: Individual): real
  {
    x.fitness
  }

  /** The cache keys of a pool's genomes under a model. */
  function PoolKeys(s: seq<Individual>, model: int, n: nat): (keys: seq<Key>)
    requires Shaped(s, n)
    ensures |keys| == |s| && forall k :: 0 <= k < |s| ==> keys[k] == Key(model, s[k].genes[..n])
  {
    seq(|s|, k requires 0 <= k < |s| => Key(model, s[k].genes[..n]))
  }

  /** A pool whose first n members were permuted and whose rest is untouched keeps its shape. */
  lemma ShapedPermuted(s: seq<Individual>, t: seq<Individual>, n: int, size: nat)
    requires 0 <= n <= |s| == |t| && Shaped(s, size)
    requires multiset(t[..n]) == multiset(s[..n]) && t[n..] == s[n..]
    ensures Shaped(t, size)
  {
    forall k | 0 <= k < |t|
      ensures |t[k].genes| == size && |t[k].costs| <= size
    {
      if k < n {
        assert t[k] in multiset(t[..n]);
        var q :| 0 <= q < n && s[..n][q] == t[k];
        assert s[q] == t[k];
      } else {
        assert t[k] == t[n..][k - n];
      }
    }
  }

  /** In a pool sorted by fitness, member k is at least as fit as every later member. */
  lemma SortedFittestFirst(s: seq<Individual>, k: int)
    requires SortedBy(s, FitnessKey) && 0 <= k < |s|
    ensures forall p :: k <= p < |s| ==> s[k].fitness <= s[p].fitness
  {
    forall p | k < p < |s|
      ensures s[k].fitness <= s[p].fitness
    {
      assert FitnessKey(s[k]) <= FitnessKey(s[p]);
    }
  }
}
