/**
 * The search over groups of primary cells (`GroupedGAProtection.cpp`): the
 * table's primaries are first grouped, a genome is an order of the group
 * indices, seeded ascending and descending, and each group is protected as
 * a whole (GROUP_PROTECTION).
 *
 * The genome length is only known once the groups are formed, so the
 * random draws of the construction and the server's replies are given as
 * a `Start` for every genome length.
 */
module GroupedProtections {
  import opened Common
  import opened Genomes
  import opened Individuals
  import opened JJData
  import opened Groups
  import opened FitnessEvaluation
  import opened Evaluations
  import opened Selections
  import opened GAProtections

  /** The indices of n groups are distinct and none of them is -1. */
  lemma IntervalDistinct(n: nat)
    ensures Distinct(Interval(0, n)) && -1 !in Interval(0, n)
  {
  }

  class GroupedProtection {
    /** The genetic search itself. */
    const ga: GAProtection
    /** The group indices in ascending order: the seed genome. */
    const genes: seq<int>
    /** How the construction's evaluations ended. */
    const built: Outcome

    /** The search has one gene per group and, once built, every parent orders the group indices. */
    ghost predicate Valid()
      reads this, ga, ga.poolParent, ga.poolMating, ga.poolOffspring, ga.poolClones
      reads ga.cache, ga.cache.requests, ga.cache.hits, ga.cache.misses
    {
      ga.Valid() && ga.Configured() && genes == Interval(0, ga.numberOfGenes) &&
      (built.Finished? ==> ga.Permuting(genes))
    }

    /**
     * The constructor: the table's primaries are grouped (which sorts the
     * table's equations by size), the pools are sized for the groups,
     * every parent is seeded with the ascending group order and parent 1
     * with the descending one, the rest of the parent pool is filled with
     * shuffles, then the parents are evaluated under YPLUS_MODEL and the
     * best parent under YMINUS_MODEL. The groups themselves are not kept.
     */
    constructor (table: JJTable, cores: int, maxSeconds: int, startSeconds: int, runElimination: bool,
                 inJJFileName: string, s: nat -> Start)
      requires table.Valid()
      requires |PrimariesOf(table.cells[..])| > 0 ==> 2 <= cores <= PoolParentSize
      requires forall n: nat :: 0 < n ==> Drawn(s(n), n)
      modifies table
      ensures Valid()
      ensures table.Valid() && table.cells == old(table.cells) && table.idMap == old(table.idMap)
      ensures multiset(table.equations) == multiset(old(table.equations))
      ensures forall p, q :: 0 <= p < q < |table.equations| ==> |table.equations[p].terms| <= |table.equations[q].terms|
      ensures ga.numberOfGenes <= MaxGroupsLimit && (ga.numberOfGenes > 0 ==> PrimariesOf(table.cells[..]) != [])
      ensures ga.ncells == table.cells.Length && ga.cores == cores && ga.inJJFileName == inJJFileName
      ensures genes == [] ==> built == Finished && ga.poolParentSize == 0 && ga.cache.entries == map[]
      ensures genes != [] && built.Finished? ==>
                ga.poolParent[0].genes == genes && ga.poolParent[1].genes == Reversed(genes) &&
                ga.numberOfCountedEvals <= ga.numberOfEvals <= ga.numberOfCountedEvals + 1 &&
                ga.numberOfCountedEvals == ga.poolParentSize &&
                (ga.defaultNumberOfClones == 0 ==> ga.numberOfCountedEvals == ga.maxEvaluations) &&
                Key(YMinusModel, ga.poolParent[FirstMinimum(Fitnesses(ga.poolParent[..]), ga.poolParentSize)].genes)
                  in ga.cache.entries
    {
      var g, outcome := Search(table, cores, maxSeconds, startSeconds, runElimination, inJJFileName, s);
      ga := g;
      genes := Interval(0, g.numberOfGenes);
      built := outcome;
    }

    /**
     * `protect(limit_cost)`: one generation of the search, protecting each
     * group as a whole. Every parent still orders the group indices after it.
     */
    method Protect(limitCost: bool, d: Generation) returns (outcome: Outcome, runs: seq<SolverRun>, bestRuns: seq<SolverRun>)
      requires Valid() && built.Finished?
      requires ga.numberOfGenes > 0 && ga.defaultNumberOfClones > 0 ==> DrawnGeneration(d, ga.numberOfGenes, ga.defaultNumberOfClones)
      modifies ga.poolParent, ga.poolMating, ga.poolOffspring, ga.poolClones
      modifies ga.cache, ga.cache.requests, ga.cache.hits, ga.cache.misses
      modifies ga`numberOfOffspring, ga`mutationType, ga`numberOfEvals, ga`numberOfCountedEvals
      modifies ga`poolParentSize, ga`replaceNext
      ensures Valid()
      ensures genes == [] ==> outcome == Finished && runs == [] && bestRuns == []
      ensures forall j :: 0 <= j < |runs| ==>
                runs[j].model == YPlusModel && runs[j].protection == GroupProtection &&
                if limitCost then IsWorst(old(Fitnesses(ga.poolParent[..ga.poolParentSize])), runs[j].maxCost)
                else runs[j].maxCost == 0.0
      ensures outcome.Finished? ==>
                forall j :: 0 <= j < |bestRuns| ==> bestRuns[j].model == YMinusModel && bestRuns[j].protection == GroupProtection
    {
      IntervalDistinct(ga.numberOfGenes);
      outcome, runs, bestRuns := ga.Protect(GroupProtection, limitCost, d, genes);
    }

    /** `fitness()`: 0 with no groups, otherwise the best parent's YMINUS_MODEL fitness. */
    method Fitness(o: Oracle, rounds: nat) returns (outcome: Outcome, fitness: real)
      requires Valid() && Answers(o, |genes|)
      modifies ga.cache, ga.cache.requests, ga.cache.hits, ga.cache.misses, ga`numberOfEvals, ga`numberOfCountedEvals
      ensures Valid()
      ensures genes == [] ==> outcome == Finished && fitness == 0.0
      ensures genes != [] && outcome.Finished? ==>
                var best := ga.poolParent[FirstMinimum(Fitnesses(ga.poolParent[..]), ga.poolParentSize)];
                Key(YMinusModel, best.genes) in ga.cache.entries &&
                fitness == ga.cache.entries[Key(YMinusModel, best.genes)].fitness
    {
      if |genes| == 0 {
        return Finished, 0.0;
      }
      var issued;
      outcome, fitness, issued := ga.EvaluateBestParent(GroupProtection, o, rounds);
      ghost var best := ga.poolParent[FirstMinimum(Fitnesses(ga.poolParent[..]), ga.poolParentSize)];
      assert best.genes[..ga.numberOfGenes] == best.genes;
    }
  }

  /** Some group is formed only when the table has a primary cell. */
  lemma GroupsNeedPrimaries(group: seq<seq<int>>, maxSize: int, cells: seq<Cell>, count: int)
    requires WellGrouped(group, maxSize, PrimariesOf(cells))
    requires forall j :: 0 <= j < |group| ==> (group[j] != [] <==> j < count)
    requires 0 < count <= |group|
    ensures PrimariesOf(cells) != []
  {
    var x := group[0][0];
    assert x in group[0];
    assert x in PrimariesOf(cells);
  }

  /** The constructor's work on the table. */
  method Search(table: JJTable, cores: int, maxSeconds: int, startSeconds: int, runElimination: bool,
                inJJFileName: string, s: nat -> Start)
      returns (g: GAProtection, outcome: Outcome)
    requires table.Valid()
    requires |PrimariesOf(table.cells[..])| > 0 ==> 2 <= cores <= PoolParentSize
    requires forall n: nat :: 0 < n ==> Drawn(s(n), n)
    modifies table
    ensures g.Valid() && g.Configured() && (outcome.Finished? ==> g.Permuting(Interval(0, g.numberOfGenes)))
    ensures table.Valid() && table.cells == old(table.cells) && table.idMap == old(table.idMap)
    ensures multiset(table.equations) == multiset(old(table.equations))
    ensures forall p, q :: 0 <= p < q < |table.equations| ==> |table.equations[p].terms| <= |table.equations[q].terms|
    ensures g.numberOfGenes <= MaxGroupsLimit && (g.numberOfGenes > 0 ==> PrimariesOf(table.cells[..]) != [])
    ensures g.ncells == table.cells.Length && g.cores == cores && g.inJJFileName == inJJFileName
    ensures g.numberOfGenes == 0 ==> outcome == Finished && g.poolParentSize == 0 && g.cache.entries == map[]
    ensures g.numberOfGenes > 0 && outcome.Finished? ==>
              var seed := Interval(0, g.numberOfGenes);
              g.poolParent[0].genes == seed && g.poolParent[1].genes == Reversed(seed) &&
              g.numberOfCountedEvals <= g.numberOfEvals <= g.numberOfCountedEvals + 1 &&
              g.numberOfCountedEvals == g.poolParentSize &&
              (g.defaultNumberOfClones == 0 ==> g.numberOfCountedEvals == g.maxEvaluations) &&
              Key(YMinusModel, g.poolParent[FirstMinimum(Fitnesses(g.poolParent[..]), g.poolParentSize)].genes)
                in g.cache.entries
  {
    var groups := new Groups(table);
    var n := groups.numberOfGroups;
    if n > 0 {
      GroupsNeedPrimaries(groups.group[..], groups.maxGroupSize, table.cells[..], n);
    }
    g := new GAProtection(n, table.cells.Length, cores, maxSeconds, startSeconds, runElimination, inJJFileName);
    outcome := Finished;
    if n > 0 {
      IntervalDistinct(n);
      outcome := g.Initialise(Interval(0, n), GroupProtection, s(n));
    }
  }
}
