/**
 * The arithmetic of the genetic search (`GAProtection.cpp`) that does not
 * touch a genome: how many cores and pool places the search uses, the index
 * a selection draw picks, the cumulative fractions of fitness-proportionate
 * selection, and which clone `get_fittest_clone` returns.
 */
module Selections {
  import opened Common
  import opened Genomes

  // ---------------------------------------------------------------------
  // Cores and pool sizes (the constructor and `allocate_pools`)
  // ---------------------------------------------------------------------

  /** The client/server protocol version the client understands. */
  const ProtocolVersion: int := 4

  /**
   * The number of cores the search uses, from the server's handshake (its
   * protocol version and core limit, or None when no session was
   * available) and the cores asked for (0 meaning "all the server offers").
   * Every failure is the fatal error 1.
   */
  function CoresToUse(handshake: Option<(int, int)>, cores: int): (r: Result<int>)
    ensures r.Err? ==> r.code == 1
    ensures r.Err? <==> (handshake.None? || handshake.value.0 != ProtocolVersion ||
                         handshake.value.1 == 0 || handshake.value.1 == 1 || cores == 1)
    ensures r.Ok? ==> r.value <= PoolParentSize
    ensures r.Ok? && cores == 0 ==> r.value == Min(handshake.value.1, PoolParentSize)
    ensures r.Ok? && cores != 0 ==> r.value == Min(Min(cores, handshake.value.1), PoolParentSize)
  {
    if handshake.None? then Err(1)
    else
      var (protocol, available) := handshake.value;
      if protocol != ProtocolVersion then Err(1)
      else if available == 0 || available == 1 then Err(1)
      else if cores == 1 then Err(1)
      else
        var c := if cores == 0 then available else Min(cores, available);
        Ok(if c > PoolParentSize then PoolParentSize else c)
  }

  /** With a server limit of at least two and a request of 0 or at least two cores, 2 to 20 cores are used. */
  lemma CoresInRange(handshake: Option<(int, int)>, cores: int)
    requires handshake.Some? && handshake.value.0 == ProtocolVersion && handshake.value.1 >= 2
    requires cores == 0 || cores >= 2
    ensures CoresToUse(handshake, cores).Ok?
    ensures 2 <= CoresToUse(handshake, cores).value <= PoolParentSize
  {
  }

  /**
   * `allocate_pools` for N > 0 genes: the evaluation cap min(N!, 1000), the
   * parent pool size min(cores, cap), the default number of clones
   * min(cores, cap - parents), and a clone pool twice that.
   */
  datatype PoolSizes = PoolSizes(maxEvaluations: int, parents: int, defaultClones: int, clones: int)

  function SizesFor(n: nat, cores: int): (r: PoolSizes)
    ensures r.maxEvaluations == MaxEvaluations(n)
    ensures r.parents == Min(cores, r.maxEvaluations)
    ensures r.defaultClones == Min(cores, r.maxEvaluations - r.parents)
    ensures r.clones == 2 * r.defaultClones
  {
    var m := MaxEvaluations(n);
    var p := Min(cores, m);
    var d := Min(cores, m - p);
    PoolSizes(m, p, d, 2 * d)
  }

  /**
   * With 2 to 20 cores and at least one gene, the parents fit the parent
   * pool, the parents and default clones together never exceed the
   * evaluation cap, and no pool is of negative size.
   */
  lemma SizesFit(n: nat, cores: int)
    requires 1 <= n && 2 <= cores <= PoolParentSize
    ensures var r := SizesFor(n, cores);
            1 <= r.parents <= PoolParentSize && 0 <= r.defaultClones <= r.parents &&
            r.parents + r.defaultClones <= r.maxEvaluations <= MaxEvaluationsLimit
  {
    MaxEvaluationsValues(n);
  }

  /**
   * There is no default clone exactly when the evaluation cap is within the
   * cores: the parents then take every evaluation there is and the clone
   * pool is empty. With one or two genes this holds whatever the number of
   * cores, and the parent pool stays below POOL_PARENT_SIZE; with three genes
   * it holds from six cores on.
   */
  lemma FewGenesNoClones(n: nat, cores: int)
    requires 1 <= n && 2 <= cores
    ensures var r := SizesFor(n, cores);
            r.defaultClones == 0 <==> MaxEvaluations(n) <= cores
    ensures var r := SizesFor(n, cores);
            r.defaultClones == 0 ==> r.parents == MaxEvaluations(n) && r.clones == 0
    ensures var r := SizesFor(n, cores);
            n <= 2 ==> r.parents == n < PoolParentSize && r.defaultClones == 0 && r.clones == 0
    ensures n == 3 ==> (SizesFor(n, cores).defaultClones == 0 <==> 6 <= cores)
  {
    MaxEvaluationsValues(n);
    assert Factorial(2) == 2;
    assert Factorial(3) == 6;
  }

  // ---------------------------------------------------------------------
  // Tournament selection (`selection_tournament`)
  // ---------------------------------------------------------------------

  /**
   * The parent a draw r picks among n: `(int)(n * r)` clamped into
   * [0, n - 1]. With no parents the clamp gives -1, which the range check
   * of `selection_tournament` then refuses.
   */
  function TournamentIndex(r: real, n: int): (k: int)
    requires 0.0 <= r <= 1.0 && 0 <= n
    ensures n > 0 ==> 0 <= k < n
    ensures n > 0 && r < 1.0 ==> k == Index(r, n)
    ensures n > 0 && r == 1.0 ==> k == n - 1
    ensures n == 0 ==> k == -1
  {
    var l := Index(r, n);
    if l < 0 then 0 else if l >= n then n - 1 else l
  }

  /** The fitter of parents l and k; k when they are equally fit. */
  function TournamentWinner(fitness: seq<real>, l: int, k: int): (w: int)
    requires 0 <= l < |fitness| && 0 <= k < |fitness|
    ensures w == l || w == k
    ensures fitness[w] <= fitness[l] && fitness[w] <= fitness[k]
    ensures fitness[l] == fitness[k] ==> w == k
  {
    if fitness[l] < fitness[k] then l else k
  }

  // ---------------------------------------------------------------------
  // Fitness-proportionate selection (`selection_proportionate`)
  // ---------------------------------------------------------------------

  /** The sum of the first k fitness values. */
  function PrefixSum(f: seq<real>, k: nat): real
    requires k <= |f|
  {
    SumReal(f[..k])
  }

  /**
   * The cumulative fractions: position k holds the fitness of parents
   * 0..k over the total. A total of 0 makes every fraction NaN, against
   * which every comparison fails; the model writes None.
   */
  function Cumulative(f: seq<real>): (c: Option<seq<real>>)
    ensures SumReal(f) == 0.0 <==> c.None?
    ensures c.Some? ==>
              |c.value| == |f| && forall k :: 0 <= k < |f| ==> c.value[k] == PrefixSum(f, k + 1) / SumReal(f)
  {
    var total := SumReal(f);
    if total == 0.0 then None
    else Some(seq(|f|, k requires 0 <= k < |f| => PrefixSum(f, k + 1) / total))
  }

  /**
   * The scan for one mating slot, over k = 0..m - 1: l becomes k whenever
   * the draw exceeds the k-th fraction. The l of the previous slot is the
   * starting value.
   */
  function Scan(cum: seq<real>, r: real, l: int, m: nat): (p: int)
    requires m <= |cum|
    ensures p == l || 0 <= p < m
  {
    if m == 0 then l
    else if r > cum[m - 1] then m - 1
    else Scan(cum, r, l, m - 1)
  }

  /**
   * The parent the draw r picks: the last k whose fraction the draw
   * exceeds (so a draw in (cum[k], cum[k + 1]] picks k, not k + 1), or the
   * previous slot's parent when the draw exceeds no fraction.
   */
  lemma {:induction false} ScanPicksLastBelow(cum: seq<real>, r: real, l: int, m: nat)
    requires m <= |cum|
    ensures var p := Scan(cum, r, l, m);
            (p == l && forall k :: 0 <= k < m ==> r <= cum[k]) ||
            (0 <= p < m && r > cum[p] && forall k :: p < k < m ==> r <= cum[k])
  {
    if m > 0 && r <= cum[m - 1] {
      ScanPicksLastBelow(cum, r, l, m - 1);
    }
  }

  /** Both mating slots: the second starts its scan from the first one's pick. */
  function ProportionatePicks(f: seq<real>, r0: real, r1: real): (r: (int, int))
    ensures var c := Cumulative(f);
            c.None? ==> r == (0, 0)
    ensures r.0 == 0 || 0 <= r.0 < |f|
    ensures r.1 == r.0 || 0 <= r.1 < |f|
  {
    match Cumulative(f)
    case None => (0, 0)
    case Some(cum) =>
      var a := Scan(cum, r0, 0, |cum|);
      (a, Scan(cum, r1, a, |cum|))
  }

  /**
   * When the first draw picks parent a > 0, a second draw that exceeds no
   * fraction picks a again rather than parent 0: the pick of one slot
   * leaks into the next.
   */
  lemma PickCarriesOver(f: seq<real>, r0: real, r1: real)
    requires Cumulative(f).Some?
    requires forall k :: 0 <= k < |f| ==> r1 <= Cumulative(f).value[k]
    ensures ProportionatePicks(f, r0, r1).1 == ProportionatePicks(f, r0, r1).0
  {
    var cum := Cumulative(f).value;
    ScanPicksLastBelow(cum, r1, Scan(cum, r0, 0, |cum|), |cum|);
  }

  // ---------------------------------------------------------------------
  // The fittest clone (`get_fittest_clone`)
  // ---------------------------------------------------------------------

  /** w is the largest of the values f: one of them, and no smaller than any (`get_worst_fitness`). */
  predicate IsWorst(f: seq<real>, w: real)
  {
    (exists k :: 0 <= k < |f| && w == f[k]) && forall k :: 0 <= k < |f| ==> f[k] <= w
  }

  /** The first position of a least value among the first m. */
  function FirstMinimum(f: seq<real>, m: nat): (k: nat)
    requires 1 <= m <= |f|
    ensures k < m
    ensures forall p :: 0 <= p < m ==> f[k] <= f[p]
    ensures forall p :: 0 <= p < k ==> f[k] < f[p]
  {
    if m == 1 then 0
    else
      var k := FirstMinimum(f, m - 1);
      if f[m - 1] < f[k] then m - 1 else k
  }

  /**
   * `get_fittest_clone` over fitness values f with the draw r: the unique
   * fittest clone, or else the `(int)(r * c)`-th (from 0) of the c clones
   * sharing the best fitness; a draw of 1.0 runs past the last of them into
   * the fatal error 1.
   */
  function FittestClone(f: seq<real>, r: real): (res: Result<int>)
    requires 1 <= |f| && 0.0 <= r <= 1.0
  {
    var best := f[FirstMinimum(f, |f|)];
    var c := Count(f, best);
    if c == 1 then Ok(FirstMinimum(f, |f|))
    else
      var selection := Index(r, c);
      if selection < c then Ok(IndicesOf(f, best)[selection]) else Err(1)
  }

  /**
   * The clone returned is always one of least fitness, with ties the draw
   * picks among them in increasing order, and the error happens exactly
   * when there are ties and the draw is 1.0.
   */
  lemma FittestCloneIsFittest(f: seq<real>, r: real)
    requires 1 <= |f| && 0.0 <= r <= 1.0
    ensures var res := FittestClone(f, r);
            (res.Ok? ==> 0 <= res.value < |f| && forall p :: 0 <= p < |f| ==> f[res.value] <= f[p]) &&
            (res.Err? <==> (r == 1.0 && Count(f, f[FirstMinimum(f, |f|)]) > 1)) &&
            (res.Err? ==> res.code == 1)
  {
    var k := FirstMinimum(f, |f|);
    IndicesOfHolds(f, f[k], k);
  }

  /** When only one clone has the least fitness, that clone is returned whatever the draw. */
  lemma FittestCloneUnique(f: seq<real>, r: real, i: int)
    requires 1 <= |f| && 0.0 <= r <= 1.0 && 0 <= i < |f|
    requires forall p :: 0 <= p < |f| && p != i ==> f[i] < f[p]
    ensures FittestClone(f, r) == Ok(i)
  {
    var k := FirstMinimum(f, |f|);
    assert !(f[i] < f[k]);
    UniqueCount(f, i);
  }

  /** A position holding the value is listed among its indices. */
  lemma {:induction false} IndicesOfHolds(f: seq<real>, x: real, i: int)
    requires 0 <= i < |f| && f[i] == x
    ensures i in IndicesOf(f, x)
  {
    var n := |f| - 1;
    assert f == f[..n] + [f[n]];
    if i < n {
      IndicesOfHolds(f[..n], x, i);
    }
  }

  /** A strictly least value is held at exactly one position. */
  lemma {:induction false} UniqueCount(f: seq<real>, i: int)
    requires 0 <= i < |f| && forall p :: 0 <= p < |f| && p != i ==> f[i] < f[p]
    ensures Count(f, f[i]) == 1
  {
    var g := seq(|f|, p requires 0 <= p < |f| => if p == i then f[i] else f[i] - 1.0);
    forall p | 0 <= p < |f|
      ensures f[p] == f[i] <==> g[p] == f[i]
    {
      if p != i { assert f[i] < f[p]; }
    }
    CountAgree(f, g, f[i]);
    CountSingle(g, i, f[i]);
  }

  lemma {:induction false} CountSingle(g: seq<real>, i: int, x: real)
    requires 0 <= i < |g| && g[i] == x && forall p :: 0 <= p < |g| && p != i ==> g[p] != x
    ensures Count(g, x) == 1
  {
    var n := |g| - 1;
    if n > i {
      CountSingle(g[..n], i, x);
    } else {
      CountNone(g[..n], x);
    }
  }

  lemma {:induction false} CountNone(g: seq<real>, x: real)
    requires forall p :: 0 <= p < |g| ==> g[p] != x
    ensures Count(g, x) == 0
  {
    if g != [] {
      CountNone(g[..|g| - 1], x);
    }
  }
}
