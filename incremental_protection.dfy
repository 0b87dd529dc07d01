/**
 * The search over single primary cells (`IncrementalGAProtection.cpp`): a
 * genome is an order of the table's primary cells, seeded heaviest first
 * and lightest first, and each is protected on its own
 * (INDIVIDUAL_PROTECTION).
 *
 * The random draws of the construction and the server's replies are
 * parameters, gathered in a `Start`; the table is the one the search
 * loaded, and reading it is not part of this module.
 */
module IncrementalProtections {
  import opened Common
  import opened Genomes
  import opened Individuals
  import opened JJData
  import opened Groups
  import opened PoolGrowth
  import opened FitnessEvaluation
  import opened Evaluations
  import opened Selections
  import opened GAProtections

  /** The heaviest-first primaries are distinct cell indices, none of them -1. */
  lemma PrimariesDistinct(table: seq<Cell>, stored: seq<int>)
    requires multiset(stored) == multiset(PrimariesOf(table))
    requires forall k :: 0 <= k < |stored| ==> 0 <= stored[k] < |table|
    ensures Distinct(stored) && -1 !in stored && |stored| == |PrimariesOf(table)|
  {
    assert Distinct(PrimariesOf(table));
    PermutationDistinct(PrimariesOf(table), stored);
    assert |stored| == |multiset(stored)|;
  }

  class IncrementalProtection {
    /** The genetic search itself. */
    const ga: GAProtection
    /** The table's primary cells, heaviest first: the seed genome. */
    const primaries: seq<int>
    /** How the construction's evaluations ended. */
    const built: Outcome

    /** The search has one gene per primary cell and, once built, every parent orders the primaries. */
    ghost predicate Valid()
      reads this, ga, ga.poolParent, ga.poolMating, ga.poolOffspring, ga.poolClones
      reads ga.cache, ga.cache.requests, ga.cache.hits, ga.cache.misses
    {
      ga.Valid() && ga.Configured() && ga.numberOfGenes == |primaries| && Distinct(primaries) && -1 !in primaries &&
      (built.Finished? ==> ga.Permuting(primaries))
    }

    /**
     * The constructor: the primaries are stored and ordered by weight, the
     * pools sized for them, every parent seeded with the heaviest-first
     * order and parent 1 with the lightest-first order, the rest of the
     * parent pool filled with shuffles, then the parents evaluated under
     * YPLUS_MODEL and the best parent under YMINUS_MODEL.
     */
    constructor (table: JJTable, cores: int, maxSeconds: int, startSeconds: int, runElimination: bool,
                 inJJFileName: string, s: Start)
      requires |PrimariesOf(table.cells[..])| > 0 ==>
                 2 <= cores <= PoolParentSize && Drawn(s, |PrimariesOf(table.cells[..])|)
      ensures Valid()
      ensures multiset(primaries) == multiset(PrimariesOf(table.cells[..]))
      ensures forall k :: 0 <= k < |primaries| ==> 0 <= primaries[k] < table.cells.Length
      ensures forall p, q :: 0 <= p < q < |primaries| ==>
                table.cells[primaries[p]].weight >= table.cells[primaries[q]].weight
      ensures ga.ncells == table.cells.Length && ga.cores == cores && ga.inJJFileName == inJJFileName
      ensures primaries == [] ==> built == Finished && ga.poolParentSize == 0 && ga.cache.entries == map[]
      ensures primaries != [] && built.Finished? ==>
                ga.poolParent[0].genes == primaries && ga.poolParent[1].genes == Reversed(primaries) &&
                ga.numberOfCountedEvals <= ga.numberOfEvals <= ga.numberOfCountedEvals + 1 &&
                ga.numberOfCountedEvals == ga.poolParentSize &&
                (ga.defaultNumberOfClones == 0 ==> ga.numberOfCountedEvals == ga.maxEvaluations) &&
                Key(YMinusModel, ga.poolParent[FirstMinimum(Fitnesses(ga.poolParent[..]), ga.poolParentSize)].genes)
                  in ga.cache.entries
    {
      var g, stored, outcome := Search(table.cells[..], cores, maxSeconds, startSeconds, runElimination, inJJFileName, s);
      ga := g;
      primaries := stored;
      built := outcome;
    }

    /**
     * `protect(limit_cost)`: one generation of the search, protecting each
     * primary on its own. Every parent still orders the primaries after it.
     */
    method Protect(limitCost: bool, d: Generation) returns (outcome: Outcome, runs: seq<SolverRun>, bestRuns: seq<SolverRun>)
      requires Valid() && built.Finished?
      requires ga.numberOfGenes > 0 && ga.defaultNumberOfClones > 0 ==> DrawnGeneration(d, ga.numberOfGenes, ga.defaultNumberOfClones)
      modifies ga.poolParent, ga.poolMating, ga.poolOffspring, ga.poolClones
      modifies ga.cache, ga.cache.requests, ga.cache.hits, ga.cache.misses
      modifies ga`numberOfOffspring, ga`mutationType, ga`numberOfEvals, ga`numberOfCountedEvals
      modifies ga`poolParentSize, ga`replaceNext
      ensures Valid()
      ensures primaries == [] ==> outcome == Finished && runs == [] && bestRuns == []
      ensures forall j :: 0 <= j < |runs| ==>
                runs[j].model == YPlusModel && runs[j].protection == IndividualProtection &&
                if limitCost then IsWorst(old(Fitnesses(ga.poolParent[..ga.poolParentSize])), runs[j].maxCost)
                else runs[j].maxCost == 0.0
      ensures outcome.Finished? ==>
                forall j :: 0 <= j < |bestRuns| ==> bestRuns[j].model == YMinusModel && bestRuns[j].protection == IndividualProtection
    {
      outcome, runs, bestRuns := ga.Protect(IndividualProtection, limitCost, d, primaries);
    }

    /** `fitness()`: 0 with no primaries, otherwise the best parent's YMINUS_MODEL fitness. */
    method Fitness(o: Oracle, rounds: nat) returns (outcome: Outcome, fitness: real)
      requires Valid() && Answers(o, |primaries|)
      modifies ga.cache, ga.cache.requests, ga.cache.hits, ga.cache.misses, ga`numberOfEvals, ga`numberOfCountedEvals
      ensures Valid()
      ensures primaries == [] ==> outcome == Finished && fitness == 0.0
      ensures primaries != [] && outcome.Finished? ==>
                var best := ga.poolParent[FirstMinimum(Fitnesses(ga.poolParent[..]), ga.poolParentSize)];
                Key(YMinusModel, best.genes) in ga.cache.entries &&
                fitness == ga.cache.entries[Key(YMinusModel, best.genes)].fitness
    {
      if |primaries| == 0 {
        return Finished, 0.0;
      }
      var issued;
      outcome, fitness, issued := ga.EvaluateBestParent(IndividualProtection, o, rounds);
      ghost var best := ga.poolParent[FirstMinimum(Fitnesses(ga.poolParent[..]), ga.poolParentSize)];
      assert best.genes[..ga.numberOfGenes] == best.genes;
    }
  }

  /** The constructor's work, on the table's cells. */
  method Search(cells: seq<Cell>, cores: int, maxSeconds: int, startSeconds: int, runElimination: bool,
                inJJFileName: string, s: Start)
      returns (g: GAProtection, stored: seq<int>, outcome: Outcome)
    requires |PrimariesOf(cells)| > 0 ==> 2 <= cores <= PoolParentSize && Drawn(s, |PrimariesOf(cells)|)
    ensures g.Valid() && g.Configured() && g.numberOfGenes == |stored| && Distinct(stored) && -1 !in stored
    ensures outcome.Finished? ==> g.Permuting(stored)
    ensures multiset(stored) == multiset(PrimariesOf(cells))
    ensures forall k :: 0 <= k < |stored| ==> 0 <= stored[k] < |cells|
    ensures forall p, q :: 0 <= p < q < |stored| ==> cells[stored[p]].weight >= cells[stored[q]].weight
    ensures g.ncells == |cells| && g.cores == cores && g.inJJFileName == inJJFileName
    ensures stored == [] ==> outcome == Finished && g.poolParentSize == 0 && g.cache.entries == map[]
    ensures stored != [] && outcome.Finished? ==>
              g.poolParent[0].genes == stored && g.poolParent[1].genes == Reversed(stored) &&
              g.numberOfCountedEvals <= g.numberOfEvals <= g.numberOfCountedEvals + 1 &&
              g.numberOfCountedEvals == g.poolParentSize &&
              (g.defaultNumberOfClones == 0 ==> g.numberOfCountedEvals == g.maxEvaluations) &&
              Key(YMinusModel, g.poolParent[FirstMinimum(Fitnesses(g.poolParent[..]), g.poolParentSize)].genes)
                in g.cache.entries
  {
    stored := HeaviestPrimaries(cells);
    PrimariesDistinct(cells, stored);
    g := new GAProtection(|stored|, |cells|, cores, maxSeconds, startSeconds, runElimination, inJJFileName);
    outcome := Finished;
    if |stored| > 0 {
      outcome := g.Initialise(stored, IndividualProtection, s);
    }
  }
}
