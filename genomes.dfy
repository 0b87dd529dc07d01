/**
 * Genomes of the genetic search (`GAProtection.cpp`). A genome is the
 * order in which the solver protects primary cells (incremental search) or
 * groups (grouped search); this module specifies the search's operators on
 * plain sequences. The `GAProtections` module performs them on the pools.
 */
module Genomes {
  import opened Common

  const PoolParentSize: int := 20          // POOL_PARENT_SIZE
  const PoolMatingSize: int := 2           // POOL_MATING_SIZE
  const PoolOffspringSize: int := 1        // POOL_OFFSPRING_SIZE
  const MaxRandomisationAttempts: int := 10000
  const NumberOfGenesLimit: int := 10000   // NUMBER_OF_GENES, the size of the work arrays
  const RecombinationProbability: real := 0.7
  const MaxEvaluationsLimit: int := 1000   // MAX_EVALUATIONS
  const StableForXGenerations: int := 1000

  /** `(int)(r * n)` for a non-negative draw `r`: C's truncating conversion. */
  function Index(r: real, n: nat): (k: int)
    requires 0.0 <= r
    ensures 0 <= k <= n || r > 1.0
    ensures r < 1.0 && n > 0 ==> k < n
    ensures r == 1.0 ==> k == n
  {
    ScaleBelow(r, n as real);
    (r * n as real).Floor
  }

  lemma ScaleBelow(r: real, x: real)
    requires 0.0 <= r && 0.0 <= x
    ensures 0.0 <= r * x
    ensures r <= 1.0 ==> r * x <= x
    ensures r < 1.0 && 0.0 < x ==> r * x < x
    ensures r == 1.0 ==> r * x == x
  {
    if r <= 1.0 {
      assert x - r * x == (1.0 - r) * x;
    }
  }

  predicate Distinct(g: seq<int>)
  {
    forall a, b :: 0 <= a < b < |g| ==> g[a] != g[b]
  }

  /** The genes `lo, lo + 1, ..., lo + n - 1`. */
  function Interval(lo: int, n: nat): (r: seq<int>)
    ensures |r| == n && forall k :: 0 <= k < n ==> r[k] == lo + k
  {
    seq(n, k => lo + k)
  }

  /** A sequence whose elements all differ holds each of them exactly once. */
  lemma {:induction false} DistinctMultiplicity(g: seq<int>, x: int)
    requires Distinct(g)
    ensures multiset(g)[x] == if x in g then 1 else 0
  {
    if g != [] {
      var h := g[..|g| - 1];
      assert g == h + [g[|g| - 1]];
      assert Distinct(h);
      DistinctMultiplicity(h, x);
      assert g[|g| - 1] !in h;
    }
  }

  /** A genome read back to front. */
  function Reversed(g: seq<int>): (r: seq<int>)
    ensures |r| == |g| && forall k :: 0 <= k < |g| ==> r[k] == g[|g| - 1 - k]
  {
    if g == [] then [] else Reversed(g[1..]) + [g[0]]
  }

  /** Reading a genome backwards keeps its genes. */
  lemma {:induction false} ReversedPermutes(g: seq<int>)
    ensures multiset(Reversed(g)) == multiset(g)
  {
    if g != [] {
      ReversedPermutes(g[1..]);
      assert g == [g[0]] + g[1..];
    }
  }

  /** A sub-multiset as large as the whole is the whole. */
  lemma Squeeze(a: multiset<int>, b: multiset<int>)
    requires a <= b && |a| == |b|
    ensures a == b
  {
    var d := b - a;
    assert a + d == b;
    assert |d| == 0;
    assert d == multiset{};
  }

  // ---------------------------------------------------------------------
  // Evaluation budget (`allocate_pools`)
  // ---------------------------------------------------------------------

  function Factorial(n: nat): (r: nat)
    ensures 1 <= r
  {
    if n <= 1 then 1 else n * Factorial(n - 1)
  }

  lemma {:induction false} FactorialMonotone(a: nat, b: nat)
    requires a <= b
    ensures Factorial(a) <= Factorial(b)
    decreases b
  {
    if a < b {
      FactorialMonotone(a, b - 1);
    }
  }

  /**
   * `max_evaluations` for a non-empty genome: the number of distinct orders
   * of its genes, capped at MAX_EVALUATIONS.
   */
  function MaxEvaluations(n: nat): int
  {
    Min(Factorial(n), MaxEvaluationsLimit)
  }

  /** Up to six genes every order can be evaluated; from seven on the cap applies. */
  lemma MaxEvaluationsValues(n: nat)
    ensures 1 <= MaxEvaluations(n) <= MaxEvaluationsLimit
    ensures n <= 6 ==> MaxEvaluations(n) == Factorial(n)
    ensures n >= 7 ==> MaxEvaluations(n) == MaxEvaluationsLimit
  {
    if n <= 6 {
      FactorialMonotone(n, 6);
      assert Factorial(6) == 720;
    } else {
      FactorialMonotone(7, n);
      assert Factorial(7) == 5040;
    }
  }

  // ---------------------------------------------------------------------
  // The offspring check (`invalid_offspring`)
  // ---------------------------------------------------------------------

  /**
   * `invalid_offspring`: some value from 1 to N (N the genome length) is
   * missing from the genome or repeated in it. The values checked are 1..N,
   * not the gene values 0..N-1 of a grouped genome.
   */
  predicate InvalidOffspring(g: seq<int>)
  {
    exists v :: 1 <= v <= |g| && Count(g, v) != 1
  }

  lemma {:induction false} CountIsMultiplicity(g: seq<int>, v: int)
    ensures Count(g, v) == multiset(g)[v]
  {
    if g != [] {
      var h := g[..|g| - 1];
      assert g == h + [g[|g| - 1]];
      CountIsMultiplicity(h, v);
    }
  }

  /** The check passes exactly on the orderings of 1..N. */
  lemma ValidOffspringIsOrderOfOneToN(g: seq<int>)
    ensures !InvalidOffspring(g) <==> multiset(g) == multiset(Interval(1, |g|))
  {
    var n := |g|;
    var ref := Interval(1, n);
    assert Distinct(ref);
    forall v | 1 <= v <= n
      ensures multiset(ref)[v] == 1
    {
      assert ref[v - 1] == v;
      DistinctMultiplicity(ref, v);
    }
    if !InvalidOffspring(g) {
      forall v
        ensures multiset(ref)[v] <= multiset(g)[v]
      {
        DistinctMultiplicity(ref, v);
        if v in ref {
          CountIsMultiplicity(g, v);
        }
      }
      assert multiset(ref) <= multiset(g);
      Squeeze(multiset(ref), multiset(g));
    }
    if multiset(g) == multiset(Interval(1, |g|)) {
      forall v | 1 <= v <= n
        ensures Count(g, v) == 1
      {
        CountIsMultiplicity(g, v);
      }
    }
  }

  /** Every ordering of the group indices 0..N-1 (N > 0) fails the check: N itself is missing. */
  lemma OrderOfZeroToNIsInvalid(g: seq<int>)
    requires |g| > 0 && multiset(g) == multiset(Interval(0, |g|))
    ensures InvalidOffspring(g)
  {
    var n := |g|;
    CountIsMultiplicity(g, n);
    assert Distinct(Interval(0, n));
    DistinctMultiplicity(Interval(0, n), n);
    assert n !in Interval(0, n);
  }

  // ---------------------------------------------------------------------
  // Mutation draws
  // ---------------------------------------------------------------------

  /**
   * The draws consumed at one gene of a mutation: the draw tested against
   * the mutation rate, the partner gene (the first of the redraws that
   * differs from the gene's own position) and, for scramble mutation, the
   * N pairs of draws that pick the positions to exchange.
   */
  datatype GeneDraw = GeneDraw(test: real, partner: int, pairs: seq<(real, real)>)

  /** Draws for mutating a genome of n genes: every gene has a partner other than itself. */
  predicate PartnersIn(d: seq<GeneDraw>, n: int)
  {
    |d| == n && forall i :: 0 <= i < n ==> 0 <= d[i].partner < n && d[i].partner != i
  }

  /** Draws for scramble mutation: partners, and N pairs of draws in [0, 1) at every gene. */
  predicate ScrambleDrawn(d: seq<GeneDraw>, n: int)
  {
    PartnersIn(d, n) &&
    forall i :: 0 <= i < n ==> |d[i].pairs| == n && PairsIn(d[i].pairs)
  }

  predicate PairsIn(pairs: seq<(real, real)>)
  {
    forall k :: 0 <= k < |pairs| ==> 0.0 <= pairs[k].0 < 1.0 && 0.0 <= pairs[k].1 < 1.0
  }

  // ---------------------------------------------------------------------
  // Swap mutation (`mutation_swap`)
  // ---------------------------------------------------------------------

  /**
   * `mutation_swap` over genes 0..k-1: each gene whose test draw is at most
   * the rate is exchanged with its partner.
   */
  function SwapMutation(g: seq<int>, d: seq<GeneDraw>, rate: real, k: nat): (r: seq<int>)
    requires PartnersIn(d, |g|) && k <= |g|
    ensures |r| == |g| && multiset(r) == multiset(g)
  {
    if k == 0 then g
    else
      var h := SwapMutation(g, d, rate, k - 1);
      if d[k - 1].test <= rate then
        SwapKeeps(h, k - 1, d[k - 1].partner);
        Swap(h, k - 1, d[k - 1].partner)
      else h
  }

  // ---------------------------------------------------------------------
  // Insert mutation (`mutation_insert`)
  // ---------------------------------------------------------------------

  /**
   * Moves the gene at j next to position i: to i + 1 when j > i (the genes
   * between shift one place right), to i - 1 when j < i (they shift left).
   */
  function InsertMove(g: seq<int>, i: int, j: int): (r: seq<int>)
    requires 0 <= i < |g| && 0 <= j < |g| && i != j
    ensures |r| == |g| && multiset(r) == multiset(g)
  {
    if i < j then
      assert g == g[..i + 1] + g[i + 1..j] + [g[j]] + g[j + 1..];
      g[..i + 1] + [g[j]] + g[i + 1..j] + g[j + 1..]
    else
      assert g == g[..j] + [g[j]] + g[j + 1..i] + g[i..];
      g[..j] + g[j + 1..i] + [g[j]] + g[i..]
  }

  /** The moved gene lands beside i, the others keep their order and nothing outside the range moves. */
  lemma InsertMoveProperties(g: seq<int>, i: int, j: int)
    requires 0 <= i < |g| && 0 <= j < |g| && i != j
    ensures var r := InsertMove(g, i, j);
            multiset(r) == multiset(g) &&
            (i < j ==> r[i + 1] == g[j] && forall p :: i + 1 < p <= j ==> r[p] == g[p - 1]) &&
            (j < i ==> r[i - 1] == g[j] && forall p :: j <= p < i - 1 ==> r[p] == g[p + 1]) &&
            forall p :: 0 <= p < |g| && (p < Min(i, j) || Max(i, j) < p || p == i) ==> r[p] == g[p]
  {
    var r := InsertMove(g, i, j);
    if i < j {
      forall p | i + 1 < p <= j
        ensures r[p] == g[p - 1]
      {
        assert r[p] == g[i + 1..j][p - i - 2];
      }
      forall p | 0 <= p < |g| && (p <= i || j < p)
        ensures r[p] == g[p]
      {
        if p > j {
          assert r[p] == g[j + 1..][p - j - 1];
        }
      }
    } else {
      forall p | j <= p < i - 1
        ensures r[p] == g[p + 1]
      {
        assert r[p] == g[j + 1..i][p - j];
      }
      forall p | 0 <= p < |g| && (p < j || i <= p)
        ensures r[p] == g[p]
      {
        if p >= i {
          assert r[p] == g[i..][p - i];
        }
      }
    }
  }

  /** Adjacent positions leave the genome as it is. */
  lemma InsertAdjacentKeeps(g: seq<int>, i: int, j: int)
    requires 0 <= i < |g| && 0 <= j < |g| && (j == i + 1 || j == i - 1)
    ensures InsertMove(g, i, j) == g
  {
    if j == i + 1 {
      assert g == g[..i + 1] + [g[j]] + g[i + 1..j] + g[j + 1..];
    } else {
      assert g == g[..j] + g[j + 1..i] + [g[j]] + g[i..];
    }
  }

  function InsertMutation(g: seq<int>, d: seq<GeneDraw>, rate: real, k: nat): (r: seq<int>)
    requires PartnersIn(d, |g|) && k <= |g|
    ensures |r| == |g| && multiset(r) == multiset(g)
  {
    if k == 0 then g
    else
      var h := InsertMutation(g, d, rate, k - 1);
      if d[k - 1].test <= rate then InsertMove(h, k - 1, d[k - 1].partner) else h
  }

  // ---------------------------------------------------------------------
  // Scramble mutation (`mutation_scramble`)
  // ---------------------------------------------------------------------

  /** Every pair of offsets lies in [0, width). */
  predicate OffsetsIn(offs: seq<(int, int)>, width: int)
  {
    forall k :: 0 <= k < |offs| ==> 0 <= offs[k].0 < width && 0 <= offs[k].1 < width
  }

  /** The offsets `(int)(r * width)` a scramble's pairs of draws pick. */
  function Offsets(pairs: seq<(real, real)>, width: nat): (offs: seq<(int, int)>)
    requires PairsIn(pairs) && 0 < width
    ensures |offs| == |pairs| && OffsetsIn(offs, width)
  {
    seq(|pairs|, k requires 0 <= k < |pairs| => (Index(pairs[k].0, width), Index(pairs[k].1, width)))
  }

  /**
   * The first k exchanges of a scramble of the range [lo, lo + width): each
   * exchanges the positions lo plus the offsets of one pair.
   */
  function ScrambleSwaps(g: seq<int>, lo: int, width: nat, offs: seq<(int, int)>, k: nat): (r: seq<int>)
    requires 0 <= lo && lo + width <= |g| && OffsetsIn(offs, width) && k <= |offs|
    ensures |r| == |g|
    ensures forall p :: 0 <= p < |g| && !(lo <= p < lo + width) ==> r[p] == g[p]
  {
    if k == 0 then g
    else Swap(ScrambleSwaps(g, lo, width, offs, k - 1), lo + offs[k - 1].0, lo + offs[k - 1].1)
  }

  /** One more exchange of a scramble, at the positions its pair of draws picks. */
  lemma ScrambleStep(g: seq<int>, lo: int, width: nat, pairs: seq<(real, real)>, k: nat)
    requires 0 <= lo && lo + width <= |g| && 0 < width && PairsIn(pairs) && k < |pairs|
    ensures lo <= lo + Index(pairs[k].0, width) < lo + width && lo <= lo + Index(pairs[k].1, width) < lo + width
    ensures ScrambleSwaps(g, lo, width, Offsets(pairs, width), k + 1) ==
            Swap(ScrambleSwaps(g, lo, width, Offsets(pairs, width), k), lo + Index(pairs[k].0, width), lo + Index(pairs[k].1, width))
  {
    var offs := Offsets(pairs, width);
    assert offs[k] == (Index(pairs[k].0, width), Index(pairs[k].1, width));
  }

  /** Exchanges only move genes about: a scramble keeps the genome's genes. */
  lemma {:induction false} ScrambleSwapsKeepGenes(g: seq<int>, lo: int, width: nat, offs: seq<(int, int)>, k: nat)
    requires 0 <= lo && lo + width <= |g| && OffsetsIn(offs, width) && k <= |offs|
    ensures multiset(ScrambleSwaps(g, lo, width, offs, k)) == multiset(g)
  {
    if k > 0 {
      ScrambleSwapsKeepGenes(g, lo, width, offs, k - 1);
      SwapStillKeeps(ScrambleSwaps(g, lo, width, offs, k - 1), g, lo + offs[k - 1].0, lo + offs[k - 1].1);
    }
  }

  /** The scramble at gene i with partner j: N exchanges inside [min(i, j), max(i, j)). */
  function Scramble(g: seq<int>, i: int, j: int, pairs: seq<(real, real)>): (r: seq<int>)
    requires 0 <= i < |g| && 0 <= j < |g| && i != j && PairsIn(pairs)
    ensures |r| == |g| && multiset(r) == multiset(g)
  {
    var offs := Offsets(pairs, Max(i, j) - Min(i, j));
    ScrambleSwapsKeepGenes(g, Min(i, j), Max(i, j) - Min(i, j), offs, |pairs|);
    ScrambleSwaps(g, Min(i, j), Max(i, j) - Min(i, j), offs, |pairs|)
  }

  /** A scramble never touches the upper cut point or anything outside the cut points. */
  lemma ScrambleStaysInRange(g: seq<int>, i: int, j: int, pairs: seq<(real, real)>)
    requires 0 <= i < |g| && 0 <= j < |g| && i != j && PairsIn(pairs)
    ensures forall p :: 0 <= p < |g| && !(Min(i, j) <= p < Max(i, j)) ==> Scramble(g, i, j, pairs)[p] == g[p]
  {
  }

  lemma SwapSelf(s: seq<int>, i: int)
    requires 0 <= i < |s|
    ensures Swap(s, i, i) == s
  {
  }

  /** With adjacent cut points every offset is 0 and every exchange is of a position with itself. */
  lemma {:induction false} ScrambleAdjacentKeeps(g: seq<int>, lo: int, offs: seq<(int, int)>, k: nat)
    requires 0 <= lo && lo + 1 <= |g| && OffsetsIn(offs, 1) && k <= |offs|
    ensures ScrambleSwaps(g, lo, 1, offs, k) == g
  {
    if k > 0 {
      ScrambleAdjacentKeeps(g, lo, offs, k - 1);
      SwapSelf(g, lo);
    }
  }

  /** A scramble between adjacent cut points changes nothing. */
  lemma ScrambleAdjacent(g: seq<int>, i: int, j: int, pairs: seq<(real, real)>)
    requires 0 <= i < |g| && 0 <= j < |g| && (j == i + 1 || i == j + 1) && PairsIn(pairs)
    ensures Scramble(g, i, j, pairs) == g
  {
    ScrambleAdjacentKeeps(g, Min(i, j), Offsets(pairs, 1), |pairs|);
  }

  function ScrambleMutation(g: seq<int>, d: seq<GeneDraw>, rate: real, k: nat): (r: seq<int>)
    requires ScrambleDrawn(d, |g|) && k <= |g|
    ensures |r| == |g| && multiset(r) == multiset(g)
  {
    if k == 0 then g
    else
      var h := ScrambleMutation(g, d, rate, k - 1);
      if d[k - 1].test <= rate then Scramble(h, k - 1, d[k - 1].partner, d[k - 1].pairs) else h
  }

  /** One more gene of a scramble mutation. */
  lemma ScrambleMutationStep(g: seq<int>, d: seq<GeneDraw>, rate: real, k: nat)
    requires ScrambleDrawn(d, |g|) && k < |g|
    ensures var h := ScrambleMutation(g, d, rate, k);
            ScrambleMutation(g, d, rate, k + 1) ==
              if d[k].test <= rate then Scramble(h, k, d[k].partner, d[k].pairs) else h
  {
  }

  // ---------------------------------------------------------------------
  // Inversion mutation (`mutation_inversion`)
  // ---------------------------------------------------------------------

  /** The first k exchanges of the inversion of [lo, hi]: position lo + t with hi - t. */
  function InversionSwaps(g: seq<int>, lo: int, hi: int, k: nat): (r: seq<int>)
    requires 0 <= lo < hi < |g| && 2 * k <= hi - lo
    ensures |r| == |g|
  {
    if k == 0 then g
    else Swap(InversionSwaps(g, lo, hi, k - 1), lo + k - 1, hi - k + 1)
  }

  /** The k-th exchange of an inversion keeps the genes the first k - 1 kept. */
  lemma InversionSwapsStep(g: seq<int>, lo: int, hi: int, k: nat)
    requires 0 <= lo < hi < |g| && 0 < k && 2 * k <= hi - lo
    requires multiset(InversionSwaps(g, lo, hi, k - 1)) == multiset(g)
    ensures multiset(InversionSwaps(g, lo, hi, k)) == multiset(g)
  {
    SwapStillKeeps(InversionSwaps(g, lo, hi, k - 1), g, lo + k - 1, hi - k + 1);
  }

  /** The exchanges of an inversion only move genes about. */
  lemma {:induction false} InversionSwapsKeep(g: seq<int>, lo: int, hi: int, k: nat)
    requires 0 <= lo < hi < |g| && 2 * k <= hi - lo
    ensures multiset(InversionSwaps(g, lo, hi, k)) == multiset(g)
  {
    if k > 0 {
      InversionSwapsKeep(g, lo, hi, k - 1);
      InversionSwapsStep(g, lo, hi, k);
    }
  }

  /** Where position p of [lo, hi] stands after the first k exchanges: mirrored at the outer k places of each end. */
  function MirrorAfter(g: seq<int>, lo: int, hi: int, k: int, p: int): int
    requires 0 <= lo < hi < |g| && 0 <= k && 2 * k <= hi - lo && 0 <= p < |g|
  {
    if lo <= p < lo + k || hi - k < p <= hi then g[lo + hi - p] else g[p]
  }

  lemma {:induction false} InversionSwapsMirror(g: seq<int>, lo: int, hi: int, k: nat)
    requires 0 <= lo < hi < |g| && 2 * k <= hi - lo
    ensures forall p :: 0 <= p < |g| ==> InversionSwaps(g, lo, hi, k)[p] == MirrorAfter(g, lo, hi, k, p)
  {
    if k > 0 {
      InversionSwapsMirror(g, lo, hi, k - 1);
      var h := InversionSwaps(g, lo, hi, k - 1);
      var r := InversionSwaps(g, lo, hi, k);
      assert r == Swap(h, lo + k - 1, hi - k + 1);
      forall p | 0 <= p < |g|
        ensures r[p] == MirrorAfter(g, lo, hi, k, p)
      {
        assert h[p] == MirrorAfter(g, lo, hi, k - 1, p);
        assert h[lo + k - 1] == MirrorAfter(g, lo, hi, k - 1, lo + k - 1);
        assert h[hi - k + 1] == MirrorAfter(g, lo, hi, k - 1, hi - k + 1);
      }
    }
  }

  /** The inversion at gene i with partner j: (max - min) / 2 exchanges. */
  function Inversion(g: seq<int>, i: int, j: int): (r: seq<int>)
    requires 0 <= i < |g| && 0 <= j < |g| && i != j
    ensures |r| == |g| && multiset(r) == multiset(g)
  {
    InversionSwapsKeep(g, Min(i, j), Max(i, j), (Max(i, j) - Min(i, j)) / 2);
    InversionSwaps(g, Min(i, j), Max(i, j), (Max(i, j) - Min(i, j)) / 2)
  }

  /**
   * An inversion leaves everything outside [lo, hi] alone. It reverses the
   * range exactly when hi - lo is even; when it is odd the two middle genes
   * stay where they are, so cut points one apart change nothing.
   */
  lemma InversionReverses(g: seq<int>, i: int, j: int)
    requires 0 <= i < |g| && 0 <= j < |g| && i != j
    ensures var lo, hi, r := Min(i, j), Max(i, j), Inversion(g, i, j);
            (forall p :: 0 <= p < |g| && !(lo <= p <= hi) ==> r[p] == g[p]) &&
            ((hi - lo) % 2 == 0 ==> forall p :: lo <= p <= hi ==> r[p] == g[lo + hi - p]) &&
            ((hi - lo) % 2 == 1 ==>
               var mid := lo + (hi - lo) / 2;
               r[mid] == g[mid] && r[mid + 1] == g[mid + 1] &&
               forall p :: lo <= p <= hi && p != mid && p != mid + 1 ==> r[p] == g[lo + hi - p]) &&
            (hi - lo == 1 ==> r == g)
  {
    var lo, hi := Min(i, j), Max(i, j);
    var k := (hi - lo) / 2;
    InversionSwapsMirror(g, lo, hi, k);
    var r := Inversion(g, i, j);
    assert r == InversionSwaps(g, lo, hi, k);
    assert forall p :: 0 <= p < |g| ==> r[p] == MirrorAfter(g, lo, hi, k, p);
    OutsideKept(g, lo, hi, k, r);
    if (hi - lo) % 2 == 0 {
      EvenReversed(g, lo, hi, k, r);
    } else {
      OddReversed(g, lo, hi, k, r);
      if hi - lo == 1 {
        assert r == g;
      }
    }
  }

  lemma OutsideKept(g: seq<int>, lo: int, hi: int, k: int, r: seq<int>)
    requires 0 <= lo < hi < |g| && 0 <= k && 2 * k <= hi - lo && |r| == |g|
    requires forall p :: 0 <= p < |g| ==> r[p] == MirrorAfter(g, lo, hi, k, p)
    ensures forall p :: 0 <= p < |g| && !(lo <= p <= hi) ==> r[p] == g[p]
  {
  }

  lemma EvenReversed(g: seq<int>, lo: int, hi: int, k: int, r: seq<int>)
    requires 0 <= lo < hi < |g| && k == (hi - lo) / 2 && (hi - lo) % 2 == 0 && |r| == |g|
    requires forall p :: 0 <= p < |g| ==> r[p] == MirrorAfter(g, lo, hi, k, p)
    ensures forall p :: lo <= p <= hi ==> r[p] == g[lo + hi - p]
  {
    assert 2 * k == hi - lo;
  }

  lemma OddReversed(g: seq<int>, lo: int, hi: int, k: int, r: seq<int>)
    requires 0 <= lo < hi < |g| && k == (hi - lo) / 2 && (hi - lo) % 2 == 1 && |r| == |g|
    requires forall p :: 0 <= p < |g| ==> r[p] == MirrorAfter(g, lo, hi, k, p)
    ensures r[lo + k] == g[lo + k] && r[lo + k + 1] == g[lo + k + 1]
    ensures forall p :: lo <= p <= hi && p != lo + k && p != lo + k + 1 ==> r[p] == g[lo + hi - p]
  {
    assert 2 * k + 1 == hi - lo;
  }

  function InversionMutation(g: seq<int>, d: seq<GeneDraw>, rate: real, k: nat): (r: seq<int>)
    requires PartnersIn(d, |g|) && k <= |g|
    ensures |r| == |g| && multiset(r) == multiset(g)
  {
    if k == 0 then g
    else
      var h := InversionMutation(g, d, rate, k - 1);
      if d[k - 1].test <= rate then Inversion(h, k - 1, d[k - 1].partner) else h
  }

  // ---------------------------------------------------------------------
  // Order crossover (`crossover_order`)
  // ---------------------------------------------------------------------

  /** A position one lap past the end taken back to the start. */
  function Wrap(a: int, n: int): int
  {
    if a < n then a else a - n
  }

  lemma WrapSucc(a: int, n: int)
    requires 0 < n && 0 <= a && a + 1 < 2 * n
    ensures Wrap(Wrap(a, n) + 1, n) == Wrap(a + 1, n)
  {
  }

  /** `a % n` for 0 <= a < 2n is Wrap(a, n). */
  lemma ModWrap(a: int, n: int)
    requires 0 < n && 0 <= a < 2 * n
    ensures a % n == Wrap(a, n)
  {
  }

  /** The position `crossover_order` reads at turn k, (hi + k + 1) % N, is k past (hi + 1) % N. */
  lemma CyclicOffset(hi: int, k: int, n: int)
    requires 0 <= hi < n && 0 <= k < n
    ensures (hi + k + 1) % n == ((hi + 1) % n + k) % n
  {
    ModWrap(hi + 1, n);
    ModWrap(hi + k + 1, n);
    ModWrap(Wrap(hi + 1, n) + k, n);
  }

  /** The genome read cyclically from position r. */
  function Rotate(s: seq<int>, r: int): (t: seq<int>)
    requires 0 <= r < |s|
    ensures |t| == |s|
  {
    s[r..] + s[..r]
  }

  /** A rotation holds the same genes as often as the genome. */
  lemma RotateMultiset(s: seq<int>, r: int)
    requires 0 <= r < |s|
    ensures multiset(Rotate(s, r)) == multiset(s)
  {
    assert s == s[..r] + s[r..];
  }

  /** Place c of the rotation from r is position (r + c) % N. */
  lemma RotateAt(s: seq<int>, r: int, c: int)
    requires 0 <= r < |s| && 0 <= c < |s|
    ensures Rotate(s, r)[c] == s[Wrap(r + c, |s|)]
  {
  }

  /** Writing at the position c places after r shows up at place c of the rotation. */
  lemma RotateUpdate(s: seq<int>, r: int, c: int, g: int)
    requires 0 <= r < |s| && 0 <= c < |s|
    ensures 0 <= Wrap(r + c, |s|) < |s|
    ensures Rotate(s[Wrap(r + c, |s|) := g], r) == Rotate(s, r)[c := g]
  {
    var n := |s|;
    var a := Rotate(s[Wrap(r + c, n) := g], r);
    var b := Rotate(s, r)[c := g];
    forall d | 0 <= d < n
      ensures a[d] == b[d]
    {
      RotateAt(s[Wrap(r + c, n) := g], r, d);
      RotateAt(s, r, d);
    }
  }

  /** The genes of q not in S, in the order q holds them. */
  function Outside(q: seq<int>, S: seq<int>): (r: seq<int>)
    ensures |r| <= |q|
  {
    if q == [] then []
    else Outside(q[..|q| - 1], S) + if q[|q| - 1] in S then [] else [q[|q| - 1]]
  }

  /** Outside keeps only genes of q that S does not hold. */
  lemma {:induction false} OutsideMember(q: seq<int>, S: seq<int>, x: int)
    ensures x in Outside(q, S) ==> x in q && x !in S
  {
    if q != [] {
      var h := q[..|q| - 1];
      OutsideMember(h, S, x);
      if x in Outside(h, S) {
        assert x in q by {
          var t :| 0 <= t < |h| && h[t] == x;
          assert q[t] == x;
        }
      }
    }
  }

  lemma {:induction false} OutsideAppend(a: seq<int>, b: seq<int>, S: seq<int>)
    ensures Outside(a + b, S) == Outside(a, S) + Outside(b, S)
    decreases |b|
  {
    if b != [] {
      var b' := b[..|b| - 1];
      assert (a + b)[..|a + b| - 1] == a + b';
      var x := b[|b| - 1];
      assert (a + b)[|a + b| - 1] == x;
      OutsideAppend(a, b', S);
      assert Outside(a + b, S) == Outside(a + b', S) + if x in S then [] else [x];
      assert Outside(b, S) == Outside(b', S) + if x in S then [] else [x];
    } else {
      assert a + b == a;
    }
  }

  /** Each gene of q keeps its multiplicity in Outside(q, S) unless S holds it. */
  lemma {:induction false} OutsideMultiplicity(q: seq<int>, S: seq<int>, x: int)
    ensures multiset(Outside(q, S))[x] == if x in S then 0 else multiset(q)[x]
  {
    if q != [] {
      var h := q[..|q| - 1];
      assert q == h + [q[|q| - 1]];
      OutsideMultiplicity(h, S, x);
    }
  }

  lemma MultiplicityDistinct(g: seq<int>)
    requires forall x :: multiset(g)[x] <= 1
    ensures Distinct(g)
  {
    forall a, b | 0 <= a < b < |g|
      ensures g[a] != g[b]
    {
      assert g == g[..a] + [g[a]] + g[a + 1..b] + [g[b]] + g[b + 1..];
      assert multiset(g)[g[a]] >= 1 + if g[b] == g[a] then 1 else 0;
    }
  }

  /** A permutation of a sequence whose genes all differ has genes that all differ too. */
  lemma PermutationDistinct(g: seq<int>, h: seq<int>)
    requires Distinct(g) && multiset(h) == multiset(g)
    ensures Distinct(h)
  {
    forall x
      ensures multiset(h)[x] <= 1
    {
      DistinctMultiplicity(g, x);
    }
    MultiplicityDistinct(h);
  }

  /** Taking the segment S of a distinct q out of q leaves |q| - |S| genes, and together they hold q's genes. */
  lemma OutsideSplits(q: seq<int>, S: seq<int>)
    requires Distinct(q) && Distinct(S) && forall x :: x in S ==> x in q
    ensures multiset(Outside(q, S)) + multiset(S) == multiset(q)
    ensures |Outside(q, S)| == |q| - |S|
  {
    forall x
      ensures (multiset(Outside(q, S)) + multiset(S))[x] == multiset(q)[x]
    {
      OutsideMultiplicity(q, S, x);
      DistinctMultiplicity(S, x);
      DistinctMultiplicity(q, x);
    }
    assert multiset(Outside(q, S)) + multiset(S) == multiset(q);
    assert |multiset(Outside(q, S)) + multiset(S)| == |multiset(q)|;
  }

  function Blank(n: nat): (r: seq<int>)
    ensures |r| == n && forall k :: 0 <= k < n ==> r[k] == -1
  {
    seq(n, _ => -1)
  }

  /** The offspring before its fill: parent 1 on [lo, hi] and -1 everywhere else. */
  function OrderStart(p1: seq<int>, lo: int, hi: int): (r: seq<int>)
    ensures |r| == |p1|
    ensures forall k :: 0 <= k < |p1| ==> r[k] == if lo <= k <= hi then p1[k] else -1
  {
    seq(|p1|, k requires 0 <= k < |p1| => if lo <= k <= hi then p1[k] else -1)
  }

  /**
   * The offspring and the write position after the first k turns of the
   * fill: turn t reads parent 2 at (s + t) % N and, when the gene is not yet
   * in the offspring, writes it at the position and advances the position
   * cyclically.
   */
  function OrderFill(p2: seq<int>, s: int, start: seq<int>, k: nat): (r: (seq<int>, int))
    requires |start| == |p2| && 0 <= s < |p2| && k <= |p2|
    ensures |r.0| == |p2| && 0 <= r.1 < |p2|
  {
    if k == 0 then (start, s) else FillStep(p2, s, k, OrderFill(p2, s, start, k - 1))
  }

  /** Turn k of the fill, from the offspring and write position the earlier turns left. */
  function FillStep(p2: seq<int>, s: int, k: nat, prev: (seq<int>, int)): (r: (seq<int>, int))
    requires |prev.0| == |p2| && 0 <= prev.1 < |p2| && 0 <= s < |p2| && 0 < k <= |p2|
    ensures |r.0| == |p2| && 0 <= r.1 < |p2|
  {
    var g := p2[(s + k - 1) % |p2|];
    if g !in prev.0 then (prev.0[prev.1 := g], (prev.1 + 1) % |p2|) else prev
  }

  /**
   * `crossover_order` with cut points lo < hi: parent 1's genes on [lo, hi],
   * and the rest filled from parent 2 read cyclically from hi + 1.
   */
  function OrderCrossover(p1: seq<int>, p2: seq<int>, lo: int, hi: int): (r: seq<int>)
    requires |p1| == |p2| && 0 <= lo < hi < |p1|
    ensures |r| == |p1|
  {
    OrderFill(p2, (hi + 1) % |p1|, OrderStart(p1, lo, hi), |p1|).0
  }

  /** Seen from the position after the segment, the offspring under construction. */
  ghost predicate OrderFilling(p2: seq<int>, S: seq<int>, s: int, k: nat, off: seq<int>, i: int)
    requires 0 <= s < |p2| && k <= |p2| && |off| == |p2|
  {
    var F := Outside(Rotate(p2, s)[..k], S);
    |F| + |S| <= |p2| && Rotate(off, s) == F + Blank(|p2| - |S| - |F|) + S &&
    i == Wrap(s + |F|, |p2|)
  }

  lemma OrderStartRotated(p1: seq<int>, lo: int, hi: int, s: int)
    requires 0 <= lo < hi < |p1| && s == Wrap(hi + 1, |p1|)
    ensures 0 <= s < |p1|
    ensures Rotate(OrderStart(p1, lo, hi), s) == Blank(|p1| - (hi - lo + 1)) + p1[lo..hi + 1]
  {
    var n := |p1|;
    var a := Rotate(OrderStart(p1, lo, hi), s);
    var b := Blank(n - (hi - lo + 1)) + p1[lo..hi + 1];
    forall c | 0 <= c < n
      ensures a[c] == b[c]
    {
      RotateAt(OrderStart(p1, lo, hi), s, c);
    }
  }

  /** One more gene read: Outside grows by that gene unless S holds it, and never beyond Outside of the whole. */
  lemma OutsideStep(q: seq<int>, S: seq<int>, k: nat)
    requires k < |q|
    ensures Outside(q[..k + 1], S) == Outside(q[..k], S) + if q[k] in S then [] else [q[k]]
    ensures |Outside(q[..k + 1], S)| <= |Outside(q, S)|
  {
    assert q[..k + 1] == q[..k] + [q[k]];
    OutsideAppend(q[..k], [q[k]], S);
    assert [q[k]][..0] == [];
    assert q == q[..k + 1] + q[k + 1..];
    OutsideAppend(q[..k + 1], q[k + 1..], S);
  }

  lemma InRotate(off: seq<int>, s: int, g: int)
    requires 0 <= s < |off|
    ensures g in off <==> g in Rotate(off, s)
  {
    var rot := Rotate(off, s);
    RotateMultiset(off, s);
    assert g in off <==> multiset(off)[g] > 0;
    assert g in rot <==> multiset(rot)[g] > 0;
  }

  /** What the parents' premises give about parent 2 read from s and the segment S. */
  lemma OrderPremises(p1: seq<int>, p2: seq<int>, lo: int, hi: int, s: int)
    requires |p1| == |p2| && 0 <= lo < hi < |p1| && 0 <= s < |p2|
    requires Distinct(p1) && multiset(p1) == multiset(p2) && -1 !in p1
    ensures var q, S := Rotate(p2, s), p1[lo..hi + 1];
            Distinct(q) && Distinct(S) && -1 !in q && |Outside(q, S)| + |S| == |q|
  {
    var q, S := Rotate(p2, s), p1[lo..hi + 1];
    RotateMultiset(p2, s);
    PermutationDistinct(p1, q);
    forall x | x in S
      ensures x in q
    {
      assert x in p1;
      assert multiset(p1)[x] > 0;
      assert multiset(q)[x] > 0;
    }
    assert -1 !in q by {
      assert multiset(p1)[-1] == 0;
    }
    OutsideSplits(q, S);
  }

  lemma BlankFill(F: seq<int>, m: nat, S: seq<int>, g: int)
    requires 0 < m
    ensures (F + Blank(m) + S)[|F| := g] == F + [g] + Blank(m - 1) + S
  {
    var a := (F + Blank(m) + S)[|F| := g];
    var b := F + [g] + Blank(m - 1) + S;
    assert |a| == |b|;
    forall t | 0 <= t < |a|
      ensures a[t] == b[t]
    {
      if t < |F| {
      } else if t == |F| {
      } else if t < |F| + m {
      } else {
        assert a[t] == S[t - |F| - m];
      }
    }
  }

  /** A gene of parent 2 already in the offspring is skipped: it is in S, since the genes placed so far come before it. */
  lemma OrderFillSkip(p2: seq<int>, S: seq<int>, s: int, k: nat, off: seq<int>, i: int)
    requires 0 <= s < |p2| && k < |p2| && |off| == |p2|
    requires var q := Rotate(p2, s); q[k] != -1 && q[k] !in q[..k]
    requires OrderFilling(p2, S, s, k, off, i)
    requires Rotate(p2, s)[k] in off
    ensures OrderFilling(p2, S, s, k + 1, off, i)
  {
    var q := Rotate(p2, s);
    var g := q[k];
    var F := Outside(q[..k], S);
    OutsideStep(q, S, k);
    InRotate(off, s, g);
    OutsideMember(q[..k], S, g);
    assert g in S;
    assert Outside(q[..k + 1], S) == F;
  }

  /** A gene of parent 2 not yet in the offspring fills the first blank after the genes placed so far. */
  lemma OrderFillPlace(p2: seq<int>, S: seq<int>, s: int, k: nat, off: seq<int>, i: int)
    requires 0 <= s < |p2| && k < |p2| && |off| == |p2|
    requires var q := Rotate(p2, s); q[k] !in q[..k] && |Outside(q, S)| + |S| == |q|
    requires OrderFilling(p2, S, s, k, off, i)
    requires Rotate(p2, s)[k] !in off
    ensures 0 <= i < |p2| && OrderFilling(p2, S, s, k + 1, off[i := Rotate(p2, s)[k]], Wrap(i + 1, |p2|))
  {
    var n := |p2|;
    var q := Rotate(p2, s);
    var g := q[k];
    var F := Outside(q[..k], S);
    var F' := Outside(q[..k + 1], S);
    var m := n - |S| - |F|;
    assert Rotate(off, s) == F + Blank(m) + S && i == Wrap(s + |F|, n);
    assert F' == F + [g] && |F'| + |S| <= n by {
      OutsideStep(q, S, k);
      InRotate(off, s, g);
      assert g !in S;
    }
    assert Rotate(off[i := g], s) == F' + Blank(m - 1) + S by {
      RotateUpdate(off, s, |F|, g);
      BlankFill(F, m, S, g);
    }
    assert Wrap(i + 1, n) == Wrap(s + |F'|, n) by {
      WrapSucc(s + |F|, n);
    }
    OrderFillingIntro(p2, S, s, k + 1, off[i := g], Wrap(i + 1, n), F');
  }

  lemma OrderFillingIntro(p2: seq<int>, S: seq<int>, s: int, k: nat, off: seq<int>, i: int, F: seq<int>)
    requires 0 <= s < |p2| && k <= |p2| && |off| == |p2|
    requires F == Outside(Rotate(p2, s)[..k], S) && |F| + |S| <= |p2|
    requires Rotate(off, s) == F + Blank(|p2| - |S| - |F|) + S && i == Wrap(s + |F|, |p2|)
    ensures OrderFilling(p2, S, s, k, off, i)
  {
  }

  /** One turn of the fill, with the remainders worked out. */
  lemma FillStepUnfold(p2: seq<int>, s: int, k: nat, prev: (seq<int>, int))
    requires |prev.0| == |p2| && 0 <= prev.1 < |p2| && 0 <= s < |p2| && 0 < k <= |p2|
    ensures var g := Rotate(p2, s)[k - 1];
            FillStep(p2, s, k, prev) == if g !in prev.0 then (prev.0[prev.1 := g], Wrap(prev.1 + 1, |p2|)) else prev
  {
    RotateAt(p2, s, k - 1);
    ModWrap(s + k - 1, |p2|);
    ModWrap(prev.1 + 1, |p2|);
  }

  /** One turn of the fill keeps the picture of the offspring. */
  lemma OrderFillTurn(p2: seq<int>, S: seq<int>, s: int, start: seq<int>, k: nat)
    requires |start| == |p2| && 0 <= s < |p2| && 0 < k <= |p2|
    requires var q := Rotate(p2, s); q[k - 1] != -1 && q[k - 1] !in q[..k - 1] && |Outside(q, S)| + |S| == |q|
    requires var prev := OrderFill(p2, s, start, k - 1); OrderFilling(p2, S, s, k - 1, prev.0, prev.1)
    ensures var r := OrderFill(p2, s, start, k); OrderFilling(p2, S, s, k, r.0, r.1)
  {
    FillTurn(p2, S, s, k, OrderFill(p2, s, start, k - 1));
  }

  /** Turn k of the fill, on any offspring the picture describes. */
  lemma FillTurn(p2: seq<int>, S: seq<int>, s: int, k: nat, prev: (seq<int>, int))
    requires |prev.0| == |p2| && 0 <= prev.1 < |p2| && 0 <= s < |p2| && 0 < k <= |p2|
    requires var q := Rotate(p2, s); q[k - 1] != -1 && q[k - 1] !in q[..k - 1] && |Outside(q, S)| + |S| == |q|
    requires OrderFilling(p2, S, s, k - 1, prev.0, prev.1)
    ensures var r := FillStep(p2, s, k, prev); OrderFilling(p2, S, s, k, r.0, r.1)
  {
    FillStepUnfold(p2, s, k, prev);
    if Rotate(p2, s)[k - 1] in prev.0 {
      OrderFillSkip(p2, S, s, k - 1, prev.0, prev.1);
    } else {
      OrderFillPlace(p2, S, s, k - 1, prev.0, prev.1);
    }
  }

  lemma OrderFillBase(p1: seq<int>, p2: seq<int>, lo: int, hi: int, s: int)
    requires |p1| == |p2| && 0 <= lo < hi < |p1| && s == Wrap(hi + 1, |p1|)
    ensures 0 <= s < |p1|
    ensures var r := OrderFill(p2, s, OrderStart(p1, lo, hi), 0);
            OrderFilling(p2, p1[lo..hi + 1], s, 0, r.0, r.1)
  {
    var n, S := |p1|, p1[lo..hi + 1];
    OrderStartRotated(p1, lo, hi, s);
    assert [] + Blank(n - |S|) + S == Blank(n - |S|) + S;
    OrderFillingIntro(p2, S, s, 0, OrderStart(p1, lo, hi), s, []);
  }

  /** After k turns of the fill the offspring is, seen from hi + 1, what Outside has collected, blanks, then the segment. */
  lemma {:induction false} OrderFillInvariant(p1: seq<int>, p2: seq<int>, lo: int, hi: int, s: int, k: nat)
    requires |p1| == |p2| && 0 <= lo < hi < |p1| && k <= |p1| && s == Wrap(hi + 1, |p1|)
    requires Distinct(p1) && multiset(p1) == multiset(p2) && -1 !in p1
    ensures 0 <= s < |p1|
    ensures var r := OrderFill(p2, s, OrderStart(p1, lo, hi), k);
            OrderFilling(p2, p1[lo..hi + 1], s, k, r.0, r.1)
  {
    var n := |p1|;
    var S := p1[lo..hi + 1];
    var start := OrderStart(p1, lo, hi);
    if k == 0 {
      OrderFillBase(p1, p2, lo, hi, s);
    } else {
      OrderFillInvariant(p1, p2, lo, hi, s, k - 1);
      var q := Rotate(p2, s);
      assert q[k - 1] != -1 && q[k - 1] !in q[..k - 1] && |Outside(q, S)| + |S| == n by {
        OrderPremises(p1, p2, lo, hi, s);
      }
      OrderFillTurn(p2, S, s, start, k);
    }
  }

  lemma OrderCrossoverRotated(p1: seq<int>, p2: seq<int>, lo: int, hi: int, s: int)
    requires |p1| == |p2| && 0 <= lo < hi < |p1| && s == Wrap(hi + 1, |p1|)
    requires Distinct(p1) && multiset(p1) == multiset(p2) && -1 !in p1
    ensures 0 <= s < |p1|
    ensures Rotate(OrderFill(p2, s, OrderStart(p1, lo, hi), |p1|).0, s) ==
              Outside(Rotate(p2, s), p1[lo..hi + 1]) + p1[lo..hi + 1]
  {
    var n, S := |p1|, p1[lo..hi + 1];
    var q := Rotate(p2, s);
    var r := OrderFill(p2, s, OrderStart(p1, lo, hi), n);
    OrderFillInvariant(p1, p2, lo, hi, s, n);
    assert |Outside(q, S)| + |S| == n by {
      OrderPremises(p1, p2, lo, hi, s);
    }
    OrderFilled(p2, S, s, r.0, r.1);
  }

  lemma OrderFilled(p2: seq<int>, S: seq<int>, s: int, off: seq<int>, i: int)
    requires 0 <= s < |p2| && |off| == |p2|
    requires |Outside(Rotate(p2, s), S)| + |S| == |p2|
    requires OrderFilling(p2, S, s, |p2|, off, i)
    ensures Rotate(off, s) == Outside(Rotate(p2, s), S) + S
  {
    var q := Rotate(p2, s);
    assert q[..|p2|] == q;
    assert Outside(q, S) + Blank(0) + S == Outside(q, S) + S;
  }

  /** Read from s, the segment is last: so the offspring holds parent 1's genes on [lo, hi]. */
  lemma SegmentInPlace(r: seq<int>, S: seq<int>, F: seq<int>, lo: int, hi: int, s: int)
    requires 0 <= lo < hi < |r| && s == Wrap(hi + 1, |r|) && |S| == hi - lo + 1
    requires Rotate(r, s) == F + S
    ensures forall k :: lo <= k <= hi ==> r[k] == S[k - lo]
  {
    forall k | lo <= k <= hi
      ensures r[k] == S[k - lo]
    {
      var c := |F| + (k - lo);
      RotateAt(r, s, c);
    }
  }

  /**
   * Order crossover of two orderings of the same distinct genes: the
   * offspring holds parent 1's genes on [lo, hi]; read cyclically from
   * hi + 1 it continues with parent 2's remaining genes in parent 2's cyclic
   * order from hi + 1; and it is an ordering of the same genes, so no -1 is
   * left for the failure check to find.
   */
  lemma OrderCrossoverTheorem(p1: seq<int>, p2: seq<int>, lo: int, hi: int)
    requires |p1| == |p2| && 0 <= lo < hi < |p1|
    requires Distinct(p1) && multiset(p1) == multiset(p2) && -1 !in p1
    ensures 0 <= (hi + 1) % |p1| < |p1|
    ensures var r, s := OrderCrossover(p1, p2, lo, hi), (hi + 1) % |p1|;
            Rotate(r, s) == Outside(Rotate(p2, s), p1[lo..hi + 1]) + p1[lo..hi + 1] &&
            (forall k :: lo <= k <= hi ==> r[k] == p1[k]) &&
            multiset(r) == multiset(p1) && -1 !in r
  {
    var n := |p1|;
    var s := (hi + 1) % n;
    assert s == Wrap(hi + 1, n) by {
      ModWrap(hi + 1, n);
    }
    var S := p1[lo..hi + 1];
    var q := Rotate(p2, s);
    var r := OrderCrossover(p1, p2, lo, hi);
    var F := Outside(q, S);
    OrderCrossoverRotated(p1, p2, lo, hi, s);
    SegmentInPlace(r, S, F, lo, hi, s);
    assert multiset(r) == multiset(p1) by {
      OrderPremises(p1, p2, lo, hi, s);
      RotateMultiset(p2, s);
      RotateMultiset(r, s);
      forall x | x in S
        ensures x in q
      {
        assert x in p1;
        assert multiset(q)[x] > 0;
      }
      OutsideSplits(q, S);
      assert multiset(Rotate(r, s)) == multiset(F) + multiset(S);
    }
    assert -1 !in r by {
      assert multiset(p1)[-1] == 0;
    }
  }

  // ---------------------------------------------------------------------
  // Partially mapped crossover (`crossover_partially_mapped`, `map_gene`)
  // ---------------------------------------------------------------------

  /** `find_gene_location`: the last position holding the gene, -1 when there is none. */
  function Locate(g: seq<int>, x: int): (r: int)
    ensures -1 <= r < |g|
    ensures r >= 0 ==> g[r] == x && forall k :: r < k < |g| ==> g[k] != x
    ensures r < 0 <==> x !in g
  {
    if g == [] then -1
    else if g[|g| - 1] == x then |g| - 1
    else Locate(g[..|g| - 1], x)
  }

  /** How a run of `map_gene` ends: a gene written, a gene missing from parent 2 (fatal), or still chasing when the fuel ran out. */
  datatype MapOutcome = Placed(off: seq<int>) | GeneMissing | Unfinished

  /**
   * `map_gene(g1, g2)` as written: find g1 in parent 2; if the offspring
   * holds 0 there, write g2 there; otherwise continue with parent 1's gene
   * at that position. Empty slots hold -1, so the test for 0 only succeeds
   * at a slot holding the gene 0. The recursion has no bound of its own:
   * `fuel` bounds the number of steps modelled.
   */
  function MapGene(p1: seq<int>, p2: seq<int>, off: seq<int>, g1: int, g2: int, fuel: nat): (r: MapOutcome)
    requires |p1| == |p2| == |off|
    ensures r.Placed? ==> (|r.off| == |off| &&
              exists j :: 0 <= j < |off| && off[j] == 0 && r.off == off[j := g2])
    decreases fuel
  {
    var j := Locate(p2, g1);
    if j < 0 then GeneMissing
    else if off[j] == 0 then Placed(off[j := g2])
    else if fuel == 0 then Unfinished
    else MapGene(p1, p2, off, p1[j], g2, fuel - 1)
  }

  /** Without a 0 in the offspring, `map_gene` never writes: it fails or runs on. */
  lemma {:induction false} MapGeneNeedsZero(p1: seq<int>, p2: seq<int>, off: seq<int>, g1: int, g2: int, fuel: nat)
    requires |p1| == |p2| == |off| && 0 !in off
    ensures !MapGene(p1, p2, off, g1, g2, fuel).Placed?
    decreases fuel
  {
    var j := Locate(p2, g1);
    if j >= 0 && off[j] != 0 && fuel > 0 {
      MapGeneNeedsZero(p1, p2, off, p1[j], g2, fuel - 1);
    }
  }

  datatype PmxOutcome = Offspring(genes: seq<int>) | PmxGeneMissing | PmxUnfinished

  /**
   * The mapping loop from turn k on, with the offspring so far off: each
   * turn k..hi maps parent 2's gene at that position (PmxTurn); the first
   * turn that fails or runs out of fuel ends the loop. `fuel` bounds every
   * `map_gene` run.
   */
  function PmxMapping(p1: seq<int>, p2: seq<int>, lo: int, hi: int, k: int, off: seq<int>, fuel: nat): (r: PmxOutcome)
    requires |p1| == |p2| == |off| && 0 <= k && hi < |p1|
    ensures r.Offspring? ==> |r.genes| == |p1|
    decreases hi + 1 - k
  {
    if k > hi then Offspring(off)
    else
      match PmxTurn(p1, p2, lo, hi, k, off, fuel)
      case Offspring(next) => PmxMapping(p1, p2, lo, hi, k + 1, next, fuel)
      case other => other
  }

  /**
   * Turn k of the mapping loop on the offspring so far: parent 2's gene at
   * k is mapped when parent 1 holds it outside [lo, hi]; a gene parent 1
   * lacks is fatal.
   */
  function PmxTurn(p1: seq<int>, p2: seq<int>, lo: int, hi: int, k: int, off: seq<int>, fuel: nat): (r: PmxOutcome)
    requires |p1| == |p2| == |off| && 0 <= k < |p1|
    ensures r.Offspring? ==> |r.genes| == |p1|
  {
    var j := Locate(p1, p2[k]);
    if j < 0 then PmxGeneMissing
    else if j < lo || j > hi then
      match MapGene(p1, p2, off, p1[k], p2[k], fuel)
      case Placed(off') => Offspring(off')
      case GeneMissing => PmxGeneMissing
      case Unfinished => PmxUnfinished
    else Offspring(off)
  }

  /** The last loop: every slot still -1 takes parent 2's gene. */
  function PmxFill(off: seq<int>, p2: seq<int>): (r: seq<int>)
    requires |off| == |p2|
    ensures |r| == |off|
    ensures forall k :: 0 <= k < |off| ==> r[k] == if off[k] == -1 then p2[k] else off[k]
  {
    seq(|off|, k requires 0 <= k < |off| => if off[k] == -1 then p2[k] else off[k])
  }

  /** `crossover_partially_mapped` with cut points lo < hi, as written. */
  function Pmx(p1: seq<int>, p2: seq<int>, lo: int, hi: int, fuel: nat): (r: PmxOutcome)
    requires |p1| == |p2| && 0 <= lo < hi < |p1|
    ensures r.Offspring? ==> |r.genes| == |p1|
  {
    match PmxMapping(p1, p2, lo, hi, lo, OrderStart(p1, lo, hi), fuel)
    case Offspring(off) => Offspring(PmxFill(off, p2))
    case other => other
  }

  /**
   * When parent 2's genes on [lo, hi] all sit inside [lo, hi] in parent 1,
   * nothing is mapped: the offspring is parent 1 on [lo, hi] and parent 2
   * elsewhere (parent 1 holding no -1).
   */
  lemma {:induction false} PmxClosedSegment(p1: seq<int>, p2: seq<int>, lo: int, hi: int, k: int, off: seq<int>, fuel: nat)
    requires |p1| == |p2| == |off| && 0 <= lo <= k && hi < |p1|
    requires forall q :: lo <= q <= hi ==> lo <= Locate(p1, p2[q]) <= hi
    ensures PmxMapping(p1, p2, lo, hi, k, off, fuel) == Offspring(off)
    decreases hi + 1 - k
  {
    if k <= hi {
      PmxClosedSegment(p1, p2, lo, hi, k + 1, off, fuel);
    }
  }

  lemma PmxClosedSegmentResult(p1: seq<int>, p2: seq<int>, lo: int, hi: int, fuel: nat)
    requires |p1| == |p2| && 0 <= lo < hi < |p1| && -1 !in p1
    requires forall k :: lo <= k <= hi ==> lo <= Locate(p1, p2[k]) <= hi
    ensures Pmx(p1, p2, lo, hi, fuel).Offspring?
    ensures forall k :: 0 <= k < |p1| ==>
              Pmx(p1, p2, lo, hi, fuel).genes[k] == if lo <= k <= hi then p1[k] else p2[k]
  {
    PmxClosedSegment(p1, p2, lo, hi, lo, OrderStart(p1, lo, hi), fuel);
  }

  /**
   * With parents [1, 2, 0] and [2, 0, 1] and cut points 0 and 1, parent 2's
   * gene 0 lies outside the segment in parent 1 and is mapped starting from
   * gene 2; the chain visits positions 0, 2, 1, 0, ... of the offspring
   * [1, 2, -1], none of which holds 0, so `map_gene` never returns.
   */
  lemma {:induction false} MapGeneRunsOn(fuel: nat)
    ensures MapGene([1, 2, 0], [2, 0, 1], [1, 2, -1], 2, 0, fuel) == Unfinished
    decreases fuel
  {
    var p1, p2, off := [1, 2, 0], [2, 0, 1], [1, 2, -1];
    assert Locate(p2, 2) == 0 && Locate(p2, 1) == 2 && Locate(p2, 0) == 1;
    if fuel > 0 {
      assert MapGene(p1, p2, off, 2, 0, fuel) == MapGene(p1, p2, off, 1, 0, fuel - 1);
      if fuel > 1 {
        assert MapGene(p1, p2, off, 1, 0, fuel - 1) == MapGene(p1, p2, off, 0, 0, fuel - 2);
        if fuel > 2 {
          assert MapGene(p1, p2, off, 0, 0, fuel - 2) == MapGene(p1, p2, off, 2, 0, fuel - 3);
          MapGeneRunsOn(fuel - 3);
        }
      }
    }
  }

  lemma PmxRunsOn(fuel: nat)
    ensures Pmx([1, 2, 0], [2, 0, 1], 0, 1, fuel) == PmxUnfinished
  {
    var p1, p2 := [1, 2, 0], [2, 0, 1];
    assert OrderStart(p1, 0, 1) == [1, 2, -1];
    assert Locate(p1, 2) == 1 && Locate(p1, 0) == 2;
    assert PmxTurn(p1, p2, 0, 1, 0, [1, 2, -1], fuel) == Offspring([1, 2, -1]);
    MapGeneRunsOn(fuel);
    assert PmxTurn(p1, p2, 0, 1, 1, [1, 2, -1], fuel) == PmxUnfinished;
    assert PmxMapping(p1, p2, 0, 1, 0, [1, 2, -1], fuel) == PmxMapping(p1, p2, 0, 1, 1, [1, 2, -1], fuel);
  }
}
