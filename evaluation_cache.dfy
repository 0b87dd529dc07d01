/**
 * The evaluation cache (`EvaluationCache.cpp`): the result of every genome
 * the search has had evaluated, keyed by (model, genome), with per-model
 * counters of requests, hits and misses.
 */
module EvaluationCaches {
  import opened Common
  import opened Evaluations
  import opened Scheduling

  /**
   * One cached result (`struct Result`): the name of the JJ file the solver
   * wrote, the costs it reported (`number_of_costs` is their count) and the
   * fitness.
   */
  datatype Entry = Entry(jjFile: Option<string>, costs: seq<real>, fitness: real)

  /** The per-model request, hit and miss counters. */
  datatype Tally = Tally(requests: seq<int>, hits: seq<int>, misses: seq<int>)

  /** The counters after `lookups` more requests for a model, `hits` of them hits and the rest misses. */
  function Tallied(t: Tally, model: int, lookups: int, hits: int): (r: Tally)
    requires 0 <= model < |t.requests| && model < |t.hits| && model < |t.misses|
    ensures |r.requests| == |t.requests| && |r.hits| == |t.hits| && |r.misses| == |t.misses|
    ensures r.requests[model] - t.requests[model] == lookups
    ensures r.hits[model] - t.hits[model] == hits && r.misses[model] - t.misses[model] == lookups - hits
    ensures forall m :: 0 <= m < |t.requests| && m != model ==> r.requests[m] == t.requests[m]
  {
    Tally(t.requests[model := t.requests[model] + lookups],
          t.hits[model := t.hits[model] + hits],
          t.misses[model := t.misses[model] + lookups - hits])
  }

  /** Two rounds of lookups tally as one. */
  lemma TalliedTwice(t: Tally, model: int, a: int, b: int, c: int, d: int)
    requires 0 <= model < |t.requests| && model < |t.hits| && model < |t.misses|
    ensures Tallied(Tallied(t, model, a, b), model, c, d) == Tallied(t, model, a + c, b + d)
  {
    var x := Tallied(Tallied(t, model, a, b), model, c, d);
    var y := Tallied(t, model, a + c, b + d);
    assert x.requests == y.requests && x.hits == y.hits && x.misses == y.misses;
  }

  /** Every cached result has at most n costs, so it fits an individual's cost buffer. */
  predicate CostsWithin(entries: map<Key, Entry>, n: nat)
  {
    forall k :: k in entries ==> |entries[k].costs| <= n
  }

  class EvaluationCache {
    const genomeSize: nat
    /** The `std::map` ordered by `cmp`; `CmpEquivalenceIsEquality` makes it a map keyed by equality. */
    var entries: map<Key, Entry>
    /** The JJ files deleted (`sys.remove_file`) when their entry was replaced, oldest first. */
    var removedFiles: seq<string>
    const requests: array<int>
    const hits: array<int>
    const misses: array<int>

    ghost predicate Valid()
      reads this, requests, hits, misses
    {
      requests.Length == NumberOfModels && hits.Length == NumberOfModels && misses.Length == NumberOfModels &&
      requests != hits && requests != misses && hits != misses &&
      (forall m :: 0 <= m < NumberOfModels ==> 0 <= hits[m] && 0 <= misses[m] && requests[m] == hits[m] + misses[m]) &&
      (forall k :: k in entries ==> |k.genes| == genomeSize)
    }

    /** The counters as a value. */
    ghost function Counters(): Tally
      reads this, requests, hits, misses
    {
      Tally(requests[..], hits[..], misses[..])
    }

    /** The key `Evaluation(genes, genome_size, model_type)` stands for. */
    function KeyFor(genes: seq<int>, model: int): (k: Key)
      requires genomeSize <= |genes|
      ensures |k.genes| == genomeSize && k.model == model
      ensures forall i :: 0 <= i < genomeSize ==> k.genes[i] == genes[i]
    {
      Key(model, genes[..genomeSize])
    }

    /** A new cache is empty and every counter is 0. */
    constructor (genomeSize: nat)
      ensures Valid() && fresh(requests) && fresh(hits) && fresh(misses)
      ensures this.genomeSize == genomeSize && entries == map[] && removedFiles == []
      ensures requests[..] == [0, 0, 0] && hits[..] == [0, 0, 0] && misses[..] == [0, 0, 0]
    {
      this.genomeSize := genomeSize;
      entries := map[];
      removedFiles := [];
      requests := new int[3](_ => 0);
      hits := new int[3](_ => 0);
      misses := new int[3](_ => 0);
    }

    /**
     * `cached`: whether the genome has a result under this model; counts one
     * request and exactly one hit or one miss for the model.
     */
    method Cached(genes: seq<int>, model: int) returns (c: bool)
      requires Valid() && 0 <= model < NumberOfModels && genomeSize <= |genes|
      modifies requests, hits, misses
      ensures Valid()
      ensures c <==> KeyFor(genes, model) in entries
      ensures requests[..] == old(requests[..])[model := old(requests[model]) + 1]
      ensures hits[..] == old(hits[..])[model := old(hits[model]) + if c then 1 else 0]
      ensures misses[..] == old(misses[..])[model := old(misses[model]) + if c then 0 else 1]
      ensures Counters() == Tallied(old(Counters()), model, 1, if c then 1 else 0)
    {
      var key := KeyFor(genes, model);
      c := key in entries;
      requests[model] := requests[model] + 1;
      if c {
        hits[model] := hits[model] + 1;
      } else {
        misses[model] := misses[model] + 1;
      }
    }

    /**
     * The lookups of `solvers_required`: `cached` for every key in turn.
     * Reports which keys the cache does not hold, and the model's counters
     * grow by one request per key, the hits among them counted as hits.
     */
    method CachedAll(keys: seq<Key>, model: int) returns (uncached: seq<bool>)
      requires Valid() && 0 <= model < NumberOfModels
      requires forall j :: 0 <= j < |keys| ==> keys[j].model == model && |keys[j].genes| == genomeSize
      modifies requests, hits, misses
      ensures Valid()
      ensures |uncached| == |keys| && forall j :: 0 <= j < |keys| ==> uncached[j] == (keys[j] !in entries)
      ensures Counters() == Tallied(old(Counters()), model, |keys|, Hits(keys, entries.Keys))
    {
      uncached := [];
      var i := 0;
      while i < |keys|
        invariant 0 <= i <= |keys| && |uncached| == i && Valid()
        invariant forall j :: 0 <= j < i ==> uncached[j] == (keys[j] !in entries)
        invariant Counters() == Tallied(old(Counters()), model, i, Hits(keys[..i], entries.Keys))
      {
        assert KeyFor(keys[i].genes, model) == keys[i];
        var c := Cached(keys[i].genes, model);
        HitsOfPrefix(keys, entries.Keys, i + 1);
        TalliedTwice(old(Counters()), model, i, Hits(keys[..i], entries.Keys), 1, if c then 1 else 0);
        uncached := uncached + [!c];
        i := i + 1;
      }
      assert keys[..|keys|] == keys;
    }

    /** `jjFile`: the stored file name, or NULL for a genome that is not cached. */
    method JJFile(genes: seq<int>, model: int) returns (f: Option<string>)
      requires Valid() && genomeSize <= |genes|
      ensures KeyFor(genes, model) !in entries ==> f.None?
      ensures KeyFor(genes, model) in entries ==> f == entries[KeyFor(genes, model)].jjFile
    {
      var key := KeyFor(genes, model);
      if key in entries {
        f := entries[key].jjFile;
      } else {
        f := None;
      }
    }

    /**
     * `costs`: copies the stored costs to the start of the caller's buffer
     * and returns their number; a genome that is not cached gives 0 and the
     * buffer is left alone.
     */
    method Costs(genes: seq<int>, model: int, out: array<real>) returns (n: int)
      requires Valid() && genomeSize <= |genes|
      requires KeyFor(genes, model) in entries ==> |entries[KeyFor(genes, model)].costs| <= out.Length
      modifies out
      ensures KeyFor(genes, model) !in entries ==> n == 0 && out[..] == old(out[..])
      ensures KeyFor(genes, model) in entries ==>
                n == |entries[KeyFor(genes, model)].costs| &&
                out[..n] == entries[KeyFor(genes, model)].costs && out[n..] == old(out[n..])
    {
      var key := KeyFor(genes, model);
      if key !in entries {
        return 0;
      }
      var stored := entries[key].costs;
      var i := 0;
      while i < |stored|
        invariant 0 <= i <= |stored|
        invariant out[..i] == stored[..i]
        invariant out[i..] == old(out[i..])
      {
        out[i] := stored[i];
        i := i + 1;
      }
      n := |stored|;
    }

    /** `fitness`: the stored fitness, or 0.0 for a genome that is not cached. */
    method Fitness(genes: seq<int>, model: int) returns (f: real)
      requires Valid() && genomeSize <= |genes|
      ensures KeyFor(genes, model) !in entries ==> f == 0.0
      ensures KeyFor(genes, model) in entries ==> f == entries[KeyFor(genes, model)].fitness
    {
      var key := KeyFor(genes, model);
      if key in entries {
        f := entries[key].fitness;
      } else {
        f := 0.0;
      }
    }

    /**
     * `add`: stores copies of the file name and of the first
     * `numberOfCosts` costs (none when the costs are NULL) with the fitness,
     * replacing any previous result for the key, whose JJ file is deleted.
     * The counters are not touched.
     */
    method Add(genes: seq<int>, model: int, jjFile: Option<string>, costs: Option<array<real>>,
               fitness: real, numberOfCosts: int)
      requires Valid() && genomeSize <= |genes|
      requires costs.Some? ==> 0 <= numberOfCosts <= costs.value.Length
      modifies this
      ensures Valid()
      ensures entries == old(entries)[KeyFor(genes, model) :=
                Entry(jjFile, if costs.Some? then old(costs.value[..numberOfCosts]) else [], fitness)]
      ensures removedFiles == old(removedFiles) +
                if KeyFor(genes, model) in old(entries) && old(entries)[KeyFor(genes, model)].jjFile.Some?
                then [old(entries)[KeyFor(genes, model)].jjFile.value] else []
    {
      var key := KeyFor(genes, model);
      if key in entries && entries[key].jjFile.Some? {
        removedFiles := removedFiles + [entries[key].jjFile.value];
      }
      var copied: seq<real> := [];
      if costs.Some? {
        var copy := new real[numberOfCosts];
        var i := 0;
        while i < numberOfCosts
          invariant 0 <= i <= numberOfCosts
          invariant copy[..i] == costs.value[..i]
          modifies copy
        {
          copy[i] := costs.value[i];
          i := i + 1;
        }
        assert copy[..] == copy[..i];
        copied := copy[..];
      }
      entries := entries[key := Entry(jjFile, copied, fitness)];
    }
  }
}
