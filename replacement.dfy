/**
 * The replacement step of the genetic search (`GAProtection.cpp`): where the
 * fittest clone of a generation goes in the parent pool. While the pool is
 * still growing the clone is appended; once it is full one of four policies
 * picks the parent it replaces.
 */
module Replacements {
  import opened Common
  import opened Genomes
  import opened Selections
  import opened Individuals

  const OldestReplacement: int := 0
  const WorstReplacement: int := 1
  const TournamentReplacement: int := 2
  const WorstByTournamentReplacement: int := 3

  /** The parent pool as replacement sees it: the pool, `pool_parent_size` and `replace_next`. */
  datatype Parents = Parents(pool: seq<Individual>, size: int, next: int)

  /** A full-length pool, a live size of at least one and a next slot among the live parents (or 0). */
  predicate Sound(p: Parents)
  {
    |p.pool| == PoolParentSize && 1 <= p.size <= PoolParentSize &&
    0 <= p.next && (p.next < p.size || p.next == 0)
  }

  /** The fitness of the fittest live parent. */
  function BestFitness(p: Parents): (b: real)
    requires Sound(p)
    ensures forall k :: 0 <= k < p.size ==> b <= p.pool[k].fitness
    ensures exists k :: 0 <= k < p.size && b == p.pool[k].fitness
  {
    var f := Fitnesses(p.pool);
    var k := FirstMinimum(f, p.size);
    assert f[k] == p.pool[k].fitness;
    f[k]
  }

  /** `replace_next` moves one place on, back to 0 past the last live parent. */
  function Cycle(next: int, size: int): (n: int)
    requires 0 <= next < size
    ensures 0 <= n < size
  {
    if next + 1 >= size then 0 else next + 1
  }

  /**
   * The position of the first parent of greatest fitness among the first m,
   * the slot `replace_worst_by_tournament`'s scan settles on.
   */
  function FirstMaximum(f: seq<real>, m: nat): (k: nat)
    requires 1 <= m <= |f|
    ensures k < m
    ensures forall p :: 0 <= p < m ==> f[p] <= f[k]
    ensures forall p :: 0 <= p < k ==> f[p] < f[k]
  {
    if m == 1 then 0
    else
      var k := FirstMaximum(f, m - 1);
      if f[m - 1] > f[k] then m - 1 else k
  }

  /** The clone takes the slot only when it is strictly fitter than the parent there. */
  function Challenged(pool: seq<Individual>, slot: int, clone: Individual): (r: seq<Individual>)
    requires 0 <= slot < |pool|
    ensures |r| == |pool|
    ensures forall k :: 0 <= k < |pool| && k != slot ==> r[k] == pool[k]
    ensures r[slot] == (if clone.fitness < pool[slot].fitness then clone else pool[slot])
  {
    if pool[slot].fitness > clone.fitness then pool[slot := clone] else pool
  }

  /** `replace_nothing`: the clone is appended and the pool grows by one. */
  function Grown(p: Parents, clone: Individual): (r: Parents)
    requires Sound(p) && p.size < PoolParentSize
  {
    Parents(p.pool[p.size := clone], p.size + 1, p.next)
  }

  /** `replace_oldest`: the clone overwrites the slot `replace_next`, which then moves on. */
  function OldestReplaced(p: Parents, clone: Individual): (r: Parents)
    requires Sound(p)
  {
    Parents(p.pool[p.next := clone], p.size, Cycle(p.next, p.size))
  }

  /**
   * `replace_worst`: the live parents are sorted fittest first, the clone
   * overwrites the last of them, and `replace_next` is left one place
   * before it (or on it, when only one parent lives).
   */
  function WorstReplaced(p: Parents, clone: Individual): (r: Parents)
    requires Sound(p)
  {
    var sorted := ExchangeSort(p.pool[..p.size], FitnessKey, 0) + p.pool[p.size..];
    Parents(sorted[p.size - 1 := clone], p.size, if p.size - 2 < 0 then p.size - 1 else p.size - 2)
  }

  /** `replace_tournament`: the clone challenges the parent at `replace_next`, which then moves on. */
  function TournamentReplaced(p: Parents, clone: Individual): (r: Parents)
    requires Sound(p)
  {
    Parents(Challenged(p.pool, p.next, clone), p.size, Cycle(p.next, p.size))
  }

  /** `replace_worst_by_tournament`: the clone challenges the first least fit parent, where `replace_next` stays. */
  function WorstByTournamentReplaced(p: Parents, clone: Individual): (r: Parents)
    requires Sound(p)
  {
    var w := FirstMaximum(Fitnesses(p.pool), p.size);
    Parents(Challenged(p.pool, w, clone), p.size, w)
  }

  /**
   * `replacement`: a pool that is not yet full grows; a full one is
   * replaced into by the configured policy, and an unknown policy leaves it
   * alone.
   */
  function Replaced(algorithm: int, p: Parents, clone: Individual): (r: Parents)
    requires Sound(p)
  {
    if p.size < PoolParentSize then Grown(p, clone)
    else if algorithm == OldestReplacement then OldestReplaced(p, clone)
    else if algorithm == WorstReplacement then WorstReplaced(p, clone)
    else if algorithm == TournamentReplacement then TournamentReplaced(p, clone)
    else if algorithm == WorstByTournamentReplacement then WorstByTournamentReplaced(p, clone)
    else p
  }

  /**
   * Replacement keeps the pool sound; the live size grows by one until it
   * reaches `POOL_PARENT_SIZE` and then stays there.
   */
  lemma ReplacedSound(algorithm: int, p: Parents, clone: Individual)
    requires Sound(p)
    ensures var r := Replaced(algorithm, p, clone);
            Sound(r) && r.size == (if p.size < PoolParentSize then p.size + 1 else p.size)
  {
  }

  /** The two pools agree everywhere except perhaps at slot s. */
  predicate AgreeBut(a: seq<Individual>, b: seq<Individual>, s: int)
  {
    |a| == |b| && forall k :: 0 <= k < |a| && k != s ==> a[k] == b[k]
  }

  /**
   * Growing appends the clone after the live parents and keeps them; every
   * policy but `replace_worst` (which also sorts) changes one slot at most.
   */
  lemma ReplacedChangesOneSlot(algorithm: int, p: Parents, clone: Individual)
    requires Sound(p)
    ensures var r := Replaced(algorithm, p, clone);
            p.size < PoolParentSize ==> r.pool[..p.size] == p.pool[..p.size] && r.pool[p.size] == clone
    ensures var r := Replaced(algorithm, p, clone);
            algorithm != WorstReplacement ==> exists s :: 0 <= s < |p.pool| && AgreeBut(r.pool, p.pool, s)
  {
    var r := Replaced(algorithm, p, clone);
    if p.size < PoolParentSize {
      assert AgreeBut(r.pool, p.pool, p.size);
    } else if algorithm == OldestReplacement || algorithm == TournamentReplacement {
      assert AgreeBut(r.pool, p.pool, p.next);
    } else if algorithm == WorstByTournamentReplacement {
      var w := FirstMaximum(Fitnesses(p.pool), p.size);
      assert AgreeBut(r.pool, p.pool, w);
    } else if algorithm != WorstReplacement {
      assert AgreeBut(r.pool, p.pool, 0);
    }
  }

  /**
   * Whatever the policy, the new pool holds no individual that was not
   * already in the pool or is not the clone: replacement never invents a
   * parent and never duplicates one other than the clone.
   */
  lemma {:induction false} ReplacedOnlyAddsClone(algorithm: int, p: Parents, clone: Individual)
    requires Sound(p)
    ensures multiset(Replaced(algorithm, p, clone).pool) <= multiset(p.pool) + multiset{clone}
  {
    var r := Replaced(algorithm, p, clone);
    if p.size < PoolParentSize {
      UpdateMultiset(p.pool, p.size, clone);
    } else if algorithm == OldestReplacement {
      UpdateMultiset(p.pool, p.next, clone);
    } else if algorithm == WorstReplacement {
      var sorted := ExchangeSort(p.pool[..p.size], FitnessKey, 0) + p.pool[p.size..];
      ExchangeSortKeeps(p.pool[..p.size], FitnessKey, 0);
      assert p.pool == p.pool[..p.size] + p.pool[p.size..];
      assert multiset(sorted) == multiset(p.pool);
      UpdateMultiset(sorted, p.size - 1, clone);
    } else if algorithm == TournamentReplacement {
      UpdateMultiset(p.pool, p.next, clone);
    } else if algorithm == WorstByTournamentReplacement {
      UpdateMultiset(p.pool, FirstMaximum(Fitnesses(p.pool), p.size), clone);
    }
  }

  /**
   * Every live parent after replacement is the clone or one of the live
   * parents before it: the dead slots of the pool never come back to life.
   */
  lemma ReplacedLiveFrom(algorithm: int, p: Parents, clone: Individual, k: int)
    requires Sound(p) && 0 <= k < Replaced(algorithm, p, clone).size
    ensures var r := Replaced(algorithm, p, clone);
            r.pool[k] == clone || exists j :: 0 <= j < p.size && r.pool[k] == p.pool[j]
  {
    var r := Replaced(algorithm, p, clone);
    if p.size == PoolParentSize && algorithm == WorstReplacement {
      var sorted := ExchangeSort(p.pool[..p.size], FitnessKey, 0);
      ExchangeSortKeeps(p.pool[..p.size], FitnessKey, 0);
      if k != p.size - 1 {
        assert r.pool[k] == sorted[k];
        assert sorted[k] in multiset(p.pool[..p.size]);
        var j :| 0 <= j < p.size && p.pool[..p.size][j] == sorted[k];
      }
    } else if p.size == PoolParentSize && k < p.size && r.pool[k] != clone {
      assert r.pool[k] == p.pool[k];
    }
  }

  /** Overwriting one position loses at most the element that was there. */
  lemma UpdateMultiset(s: seq<Individual>, i: int, x: Individual)
    requires 0 <= i < |s|
    ensures multiset(s[i := x]) <= multiset(s) + multiset{x}
  {
    assert multiset(s[i := x]) == multiset(s) - multiset{s[i]} + multiset{x};
  }

  /**
   * Under every policy but `replace_oldest`, replacement never makes the
   * fittest live parent less fit: the search keeps its best solution. (The
   * oldest policy may overwrite the fittest parent with a worse clone.)
   */
  lemma {:induction false} ReplacementKeepsBest(algorithm: int, p: Parents, clone: Individual)
    requires Sound(p) && algorithm != OldestReplacement
    ensures BestFitness(Replaced(algorithm, p, clone)) <= BestFitness(p)
  {
    var r := Replaced(algorithm, p, clone);
    var k :| 0 <= k < p.size && BestFitness(p) == p.pool[k].fitness;
    if p.size < PoolParentSize {
      assert r.pool[k] == p.pool[k];
    } else if algorithm == WorstReplacement {
      var sorted := ExchangeSort(p.pool[..p.size], FitnessKey, 0);
      ExchangeSortSorts(p.pool[..p.size], FitnessKey);
      assert p.pool[..p.size][k] in multiset(sorted);
      var q :| 0 <= q < |sorted| && sorted[q] == p.pool[k];
      SortedFittestFirst(sorted, 0);
      assert r.pool[0] == sorted[0];
    } else if algorithm == TournamentReplacement {
      assert r.pool[k].fitness <= p.pool[k].fitness;
    } else if algorithm == WorstByTournamentReplacement {
      var w := FirstMaximum(Fitnesses(p.pool), p.size);
      assert r.pool[k].fitness <= p.pool[k].fitness;
    } else {
      assert r.pool[k] == p.pool[k];
    }
  }

  /**
   * `replace_oldest` can lose the best parent: with every parent but the
   * one at `replace_next` of fitness 2.0, that one of fitness 1.0 and a
   * clone of fitness 3.0, the best fitness rises from 1.0 to 2.0.
   */
  lemma OldestCanLoseBest()
    ensures var worse := Individual([], [], 2.0);
            var p := Parents(seq(PoolParentSize, k => if k == 0 then Individual([], [], 1.0) else worse), PoolParentSize, 0);
            Sound(p) && BestFitness(p) == 1.0 &&
            BestFitness(Replaced(OldestReplacement, p, Individual([], [], 3.0))) == 2.0
  {
    var worse := Individual([], [], 2.0);
    var p := Parents(seq(PoolParentSize, k => if k == 0 then Individual([], [], 1.0) else worse), PoolParentSize, 0);
    var r := Replaced(OldestReplacement, p, Individual([], [], 3.0));
    assert p.pool[0].fitness == 1.0;
    assert r.pool[1] == worse;
    var b := BestFitness(r);
    var j :| 0 <= j < r.size && b == r.pool[j].fitness;
    assert b == 2.0 || b == 3.0;
  }
}
