/**
 * The key of the evaluation cache (`Evaluation.cpp`) and the order the cache's
 * `std::map` keeps its keys in (the `cmp` comparator of `EvaluationCache.h`).
 * An evaluation is a genome (a sequence of cell indices) together with the
 * model it was evaluated under.
 */
module Evaluations {

  /** NUMBER_OF_MODELS: full, y-plus and y-minus. */
  const NumberOfModels: int := 3

  /** The value an `Evaluation` stands for: its model and its genes. */
  datatype Key = Key(model: int, genes: seq<int>)

  /**
   * The gene loop of `cmp`: the first position where the genomes differ
   * decides, and equal genomes are not less. Both genomes have the cache's
   * genome size.
   */
  function GenesLess(a: seq<int>, b: seq<int>): (r: bool)
    requires |a| == |b|
  {
    if a == [] then false
    else if a[0] < b[0] then true
    else if a[0] > b[0] then false
    else GenesLess(a[1..], b[1..])
  }

  /** `cmp`: model first, then the genes lexicographically. */
  function Cmp(a: Key, b: Key): (r: bool)
    requires |a.genes| == |b.genes|
    ensures a.model != b.model ==> (r <==> a.model < b.model)
    ensures a.model == b.model ==> (r <==> GenesLess(a.genes, b.genes))
  {
    if a.model < b.model then true
    else if a.model > b.model then false
    else GenesLess(a.genes, b.genes)
  }

  /**
   * The textbook definition of the lexicographic order: `a` is less than `b`
   * when they agree up to some position where `a` holds the smaller gene.
   */
  lemma {:induction false} GenesLessIsLexicographic(a: seq<int>, b: seq<int>)
    requires |a| == |b|
    ensures GenesLess(a, b) <==> exists k :: 0 <= k < |a| && a[..k] == b[..k] && a[k] < b[k]
  {
    if a != [] {
      GenesLessIsLexicographic(a[1..], b[1..]);
      if GenesLess(a, b) && a[0] == b[0] {
        var k :| 0 <= k < |a| - 1 && a[1..][..k] == b[1..][..k] && a[1..][k] < b[1..][k];
        assert a[..k + 1] == [a[0]] + a[1..][..k];
        assert b[..k + 1] == [b[0]] + b[1..][..k];
        assert a[k + 1] < b[k + 1];
      }
      if !GenesLess(a, b) {
        forall k | 0 <= k < |a| && a[..k] == b[..k]
          ensures a[k] >= b[k]
        {
          if k > 0 {
            assert a[0] == a[..k][0] == b[..k][0] == b[0];
            assert a[1..][..k - 1] == a[..k][1..] == b[..k][1..] == b[1..][..k - 1];
            assert a[1..][k - 1] >= b[1..][k - 1];
          }
        }
      }
    }
  }

  /** No key is less than itself. */
  lemma {:induction false} CmpIrreflexive(a: Key)
    ensures !Cmp(a, a)
  {
    GenesLessIrreflexive(a.genes);
  }

  lemma {:induction false} GenesLessIrreflexive(a: seq<int>)
    ensures !GenesLess(a, a)
  {
    if a != [] {
      GenesLessIrreflexive(a[1..]);
    }
  }

  lemma {:induction false} GenesLessAsymmetric(a: seq<int>, b: seq<int>)
    requires |a| == |b|
    ensures GenesLess(a, b) ==> !GenesLess(b, a)
  {
    if a != [] && a[0] == b[0] {
      GenesLessAsymmetric(a[1..], b[1..]);
    }
  }

  /** Two keys are never less than each other. */
  lemma CmpAsymmetric(a: Key, b: Key)
    requires |a.genes| == |b.genes|
    ensures Cmp(a, b) ==> !Cmp(b, a)
  {
    GenesLessAsymmetric(a.genes, b.genes);
  }

  lemma {:induction false} GenesLessTransitive(a: seq<int>, b: seq<int>, c: seq<int>)
    requires |a| == |b| == |c|
    ensures GenesLess(a, b) && GenesLess(b, c) ==> GenesLess(a, c)
  {
    if a != [] && a[0] == b[0] == c[0] {
      GenesLessTransitive(a[1..], b[1..], c[1..]);
    }
  }

  /** The order is transitive. */
  lemma CmpTransitive(a: Key, b: Key, c: Key)
    requires |a.genes| == |b.genes| == |c.genes|
    ensures Cmp(a, b) && Cmp(b, c) ==> Cmp(a, c)
  {
    GenesLessTransitive(a.genes, b.genes, c.genes);
  }

  lemma {:induction false} GenesLessTotal(a: seq<int>, b: seq<int>)
    requires |a| == |b|
    ensures a != b ==> GenesLess(a, b) || GenesLess(b, a)
  {
    if a != [] && a[0] == b[0] {
      GenesLessTotal(a[1..], b[1..]);
      assert a == [a[0]] + a[1..] && b == [b[0]] + b[1..];
    }
  }

  /**
   * Two keys are equivalent under `cmp` (neither is less than the other)
   * exactly when they are equal: the map keyed by `cmp` is a map keyed by
   * (model, genes).
   */
  lemma CmpEquivalenceIsEquality(a: Key, b: Key)
    requires |a.genes| == |b.genes|
    ensures !Cmp(a, b) && !Cmp(b, a) <==> a == b
  {
    GenesLessTotal(a.genes, b.genes);
    CmpIrreflexive(a);
  }

  /** An `Evaluation` object: a private copy of a genome and its model. */
  class Evaluation {
    var genes: array<int>
    var genomeSize: int
    var modelType: int

    ghost predicate Valid()
      reads this
    {
      genes.Length == genomeSize
    }

    /** The (model, genes) value this evaluation holds. */
    function KeyOf(): (k: Key)
      reads this, genes
      ensures k.model == modelType && k.genes == genes[..]
    {
      Key(modelType, genes[..])
    }

    /**
     * Copies the first `genomeSize` genes of `source` into an array of its
     * own, so later changes to `source` do not reach the evaluation.
     */
    constructor (source: array<int>, genomeSize: nat, modelType: int)
      requires genomeSize <= source.Length
      ensures Valid() && fresh(genes)
      ensures genes[..] == source[..genomeSize]
      ensures this.genomeSize == genomeSize && this.modelType == modelType
    {
      var copy := new int[genomeSize];
      var i := 0;
      while i < genomeSize
        invariant 0 <= i <= genomeSize
        invariant copy[..i] == source[..i]
      {
        copy[i] := source[i];
        i := i + 1;
      }
      genes := copy;
      this.genomeSize := genomeSize;
      this.modelType := modelType;
    }

    /** The copy constructor: an equal evaluation with an array of its own. */
    constructor Copy(orig: Evaluation)
      requires orig.Valid()
      ensures Valid() && fresh(genes)
      ensures KeyOf() == orig.KeyOf() && genomeSize == orig.genomeSize
    {
      var copy := new int[orig.genomeSize];
      var i := 0;
      while i < orig.genomeSize
        invariant 0 <= i <= orig.genomeSize
        invariant copy[..i] == orig.genes[..i]
      {
        copy[i] := orig.genes[i];
        i := i + 1;
      }
      genes := copy;
      genomeSize := orig.genomeSize;
      modelType := orig.modelType;
    }

    /**
     * `equals`: false when the models differ, otherwise whether the genes
     * agree position by position over this genome's size (the other genome
     * is assumed to be at least as long).
     */
    method Equals(eval: Evaluation) returns (b: bool)
      requires Valid() && genomeSize <= eval.genes.Length
      ensures b <==> eval.modelType == modelType && genes[..] == eval.genes[..genomeSize]
    {
      if eval.modelType != modelType {
        return false;
      }
      var i := 0;
      while i < genomeSize
        invariant 0 <= i <= genomeSize
        invariant genes[..i] == eval.genes[..i]
      {
        if eval.genes[i] != genes[i] {
          assert genes[..genomeSize][i] != eval.genes[..genomeSize][i];
          return false;
        }
        i := i + 1;
      }
      assert genes[..] == genes[..i];
      return true;
    }
  }

  /** On genomes of the same size, `equals` is the equivalence of `cmp`. */
  lemma EqualsIsCmpEquivalence(a: Key, b: Key)
    requires |a.genes| == |b.genes|
    ensures (b.model == a.model && a.genes == b.genes[..|a.genes|]) <==> !Cmp(a, b) && !Cmp(b, a)
  {
    CmpEquivalenceIsEquality(a, b);
    assert b.genes[..|a.genes|] == b.genes;
  }
}
