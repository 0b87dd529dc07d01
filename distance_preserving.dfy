/**
 * Distance-preserving crossover (`crossover_distance_preserving`,
 * `GAProtection.cpp`): parent 1 is cut into fragments that also appear
 * contiguously (forwards or backwards) in parent 2; the fragments are
 * ordered by the sum of their positions in the two parents and copied into
 * the offspring, alternately from parent 1 and from parent 2.
 */
module DistancePreserving {
  import opened Common
  import opened Genomes

  /**
   * The work arrays of the fragment scan: the number of closed fragments,
   * the length of the open one (0 when none is open) and, per fragment, its
   * start in parent 1, its position in parent 2, its length and whether it
   * runs backwards in parent 2.
   */
  datatype Fragments = Fragments(count: nat, length: nat, p1Loc: seq<int>, p2Loc: seq<int>,
                                 lengths: seq<int>, reversed: seq<bool>)

  /** The work arrays have N entries; positions lie in [0, N) and lengths are not negative. */
  predicate Sized(f: Fragments, n: int)
  {
    |f.p1Loc| == n && |f.p2Loc| == n && |f.lengths| == n && |f.reversed| == n &&
    forall k :: 0 <= k < n ==> 0 <= f.p1Loc[k] < n && 0 <= f.p2Loc[k] < n && f.lengths[k] >= 0
  }

  /** The fragments found, counting the one still open when the scan ends. */
  function Found(f: Fragments): nat
  {
    f.count + if f.length > 0 then 1 else 0
  }

  /** The work arrays as initialised: every entry 0 or false. */
  function NoFragments(n: nat): (f: Fragments)
    ensures Sized(f, n) && Found(f) == 0
  {
    Fragments(0, 0, seq(n, _ => 0), seq(n, _ => 0), seq(n, _ => 0), seq(n, _ => false))
  }

  /**
   * One turn of the scan, at gene i of parent 1: locate the gene in
   * parent 2 (a missing gene is fatal error 1), open a fragment or extend the
   * open one, and close it unless the next gene of parent 1 follows on in
   * parent 2 in the fragment's direction (positions taken cyclically).
   */
  function ScanGene(p1: seq<int>, p2: seq<int>, f: Fragments, i: int): (r: Result<Fragments>)
    requires |p1| == |p2| && 0 <= i < |p1| && Sized(f, |p1|) && Found(f) <= i
    ensures r.Ok? ==> Sized(r.value, |p1|) && Found(r.value) <= i + 1
  {
    var n := |p1|;
    var j := Locate(p2, p1[i]);
    if j < 0 then Err(1)
    else
      var nextI := Wrap(i + 1, n);
      var nextJ := Wrap(j + 1, n);
      var previousJ := if j - 1 < 0 then n - 1 else j - 1;
      var nf := f.count;
      if f.length == 0 then
        var g := f.(length := 1, p1Loc := f.p1Loc[nf := i], p2Loc := f.p2Loc[nf := j],
                    lengths := f.lengths[nf := 1]);
        if p1[nextI] == p2[nextJ] then Ok(g)
        else if p1[nextI] == p2[previousJ] then Ok(g.(reversed := g.reversed[nf := true]))
        else Ok(g.(length := 0, count := nf + 1))
      else
        var g := f.(length := f.length + 1, lengths := f.lengths[nf := f.length + 1]);
        if f.reversed[nf] then
          var h := g.(p2Loc := g.p2Loc[nf := j]);
          if p1[nextI] == p2[previousJ] then Ok(h) else Ok(h.(length := 0, count := nf + 1))
        else if p1[nextI] == p2[nextJ] then Ok(g)
        else Ok(g.(length := 0, count := nf + 1))
  }

  /** The scan over the first t genes of parent 1. */
  function Scan(p1: seq<int>, p2: seq<int>, t: nat): (r: Result<Fragments>)
    requires |p1| == |p2| && t <= |p1|
    ensures r.Ok? ==> Sized(r.value, |p1|) && Found(r.value) <= t
  {
    if t == 0 then Ok(NoFragments(|p1|))
    else
      match Scan(p1, p2, t - 1)
      case Ok(f) => ScanGene(p1, p2, f, t - 1)
      case Err(e) => Err(e)
  }

  /**
   * The fragments tile the first t genes of parent 1: each closed fragment
   * has at least one gene and starts where the ones before it end, and the
   * open fragment runs up to gene t.
   */
  ghost predicate Tiles(f: Fragments, t: int)
    requires Sized(f, |f.lengths|) && Found(f) <= |f.lengths|
  {
    (forall k :: 0 <= k < f.count ==> f.lengths[k] >= 1 && f.p1Loc[k] == SumInt(f.lengths[..k])) &&
    SumInt(f.lengths[..f.count]) + f.length == t &&
    (f.length > 0 ==> f.lengths[f.count] == f.length && f.p1Loc[f.count] == t - f.length)
  }

  lemma SumPrefixUpdate(s: seq<int>, k: nat, v: int)
    requires k < |s|
    ensures s[k := v][..k] == s[..k]
    ensures SumInt(s[k := v][..k + 1]) == SumInt(s[..k]) + v
  {
    assert s[k := v][..k + 1][..k] == s[..k];
  }

  /** What a turn of the scan does to the counters, the lengths and the starts. */
  lemma ScanGeneShape(p1: seq<int>, p2: seq<int>, f: Fragments, i: int)
    requires |p1| == |p2| && 0 <= i < |p1| && Sized(f, |p1|) && Found(f) <= i
    ensures var r := ScanGene(p1, p2, f, i);
            r.Ok? ==>
              r.value.lengths == f.lengths[f.count := f.length + 1] &&
              r.value.p1Loc == f.p1Loc[f.count := if f.length == 0 then i else f.p1Loc[f.count]] &&
              ((r.value.count == f.count && r.value.length == f.length + 1) ||
               (r.value.count == f.count + 1 && r.value.length == 0))
  {
  }

  lemma TilesStep(f: Fragments, g: Fragments, i: int)
    requires Sized(f, |f.lengths|) && Found(f) <= i < |f.lengths| && Tiles(f, i)
    requires Sized(g, |f.lengths|) && Found(g) <= i + 1
    requires g.lengths == f.lengths[f.count := f.length + 1]
    requires g.p1Loc == f.p1Loc[f.count := if f.length == 0 then i else f.p1Loc[f.count]]
    requires (g.count == f.count && g.length == f.length + 1) || (g.count == f.count + 1 && g.length == 0)
    ensures Tiles(g, i + 1)
  {
    var nf := f.count;
    SumPrefixUpdate(f.lengths, nf, f.length + 1);
    forall k | 0 <= k < nf
      ensures g.lengths[k] >= 1 && g.p1Loc[k] == SumInt(g.lengths[..k])
    {
      assert g.lengths[..k] == g.lengths[..nf][..k] == f.lengths[..nf][..k] == f.lengths[..k];
    }
  }

  lemma {:induction false} ScanTiles(p1: seq<int>, p2: seq<int>, t: nat)
    requires |p1| == |p2| && t <= |p1|
    ensures var r := Scan(p1, p2, t); r.Ok? ==> Tiles(r.value, t)
  {
    if t == 0 {
      assert NoFragments(|p1|).lengths[..0] == [];
    } else {
      ScanTiles(p1, p2, t - 1);
      var r := Scan(p1, p2, t - 1);
      if r.Ok? {
        ScanGeneTiles(p1, p2, r.value, t - 1);
      }
    }
  }

  /** A turn of the scan extends the tiling by one gene. */
  lemma ScanGeneTiles(p1: seq<int>, p2: seq<int>, f: Fragments, i: int)
    requires |p1| == |p2| && 0 <= i < |p1| && Sized(f, |p1|) && Found(f) <= i && Tiles(f, i)
    ensures var g := ScanGene(p1, p2, f, i); g.Ok? ==> Tiles(g.value, i + 1)
  {
    ScanGeneShape(p1, p2, f, i);
    var g := ScanGene(p1, p2, f, i);
    if g.Ok? {
      TilesStep(f, g.value, i);
    }
  }

  /**
   * After the whole scan (the open fragment counted), the fragments cut
   * parent 1 into consecutive non-empty pieces whose lengths add up to N.
   */
  lemma FragmentsCoverParent(p1: seq<int>, p2: seq<int>)
    requires |p1| == |p2|
    ensures var r := Scan(p1, p2, |p1|);
            r.Ok? ==>
              var f, c := r.value, Found(r.value);
              (forall k :: 0 <= k < c ==> f.lengths[k] >= 1 && f.p1Loc[k] == SumInt(f.lengths[..k])) &&
              SumInt(f.lengths[..c]) == |p1|
  {
    ScanTiles(p1, p2, |p1|);
    var r := Scan(p1, p2, |p1|);
    if r.Ok? && r.value.length > 0 {
      SumPrefixUpdate(r.value.lengths, r.value.count, r.value.length);
      assert r.value.lengths[r.value.count := r.value.length] == r.value.lengths;
    }
  }

  /** The scan fails exactly when some gene of parent 1 is missing from parent 2. */
  lemma {:induction false} ScanFailsOnMissingGene(p1: seq<int>, p2: seq<int>, t: nat)
    requires |p1| == |p2| && t <= |p1|
    ensures Scan(p1, p2, t).Err? <==> exists k :: 0 <= k < t && p1[k] !in p2
    ensures Scan(p1, p2, t).Err? ==> Scan(p1, p2, t).code == 1
  {
    if t > 0 {
      ScanFailsOnMissingGene(p1, p2, t - 1);
    }
  }

  // ---------------------------------------------------------------------
  // Ordering and assembly
  // ---------------------------------------------------------------------

  /**
   * The fragments paired with their totals (`parent_totals`: start in
   * parent 1 plus position in parent 2), sorted by the exchange sort on the
   * totals; the swaps of the two work arrays move the pairs together.
   */
  function FragmentOrder(f: Fragments, c: nat): (order: seq<(int, int)>)
    requires Sized(f, |f.lengths|) && c <= |f.lengths|
    ensures |order| == c
  {
    ExchangeSort(seq(c, k requires 0 <= k < c => (f.p1Loc[k] + f.p2Loc[k], k)), TotalKey, 0)
  }

  function TotalKey(p: (int, int)): real
  {
    p.0 as real
  }

  /** The fragments are taken in non-decreasing order of their totals, each exactly once. */
  lemma FragmentOrderSorted(f: Fragments, c: nat)
    requires Sized(f, |f.lengths|) && c <= |f.lengths|
    ensures var order := FragmentOrder(f, c);
            (forall a, b :: 0 <= a < b < c ==> order[a].0 <= order[b].0) &&
            (forall a :: 0 <= a < c ==> 0 <= order[a].1 < c && order[a].0 == f.p1Loc[order[a].1] + f.p2Loc[order[a].1]) &&
            (forall a, b :: 0 <= a < b < c ==> order[a].1 != order[b].1)
  {
    var s := seq(c, k requires 0 <= k < c => (f.p1Loc[k] + f.p2Loc[k], k));
    var order := FragmentOrder(f, c);
    ExchangeSortSorts(s, TotalKey);
    forall a | 0 <= a < c
      ensures 0 <= order[a].1 < c && order[a].0 == f.p1Loc[order[a].1] + f.p2Loc[order[a].1]
    {
      assert order[a] in multiset(s);
    }
    forall a, b | 0 <= a < b < c
      ensures order[a].1 != order[b].1
    {
      DistinctPairs(s);
      SingleHeldDiffer(order, a, b);
      assert order[a] in multiset(s) && order[b] in multiset(s);
    }
  }

  /** The pairs of the unsorted array are all different (their second parts are their positions). */
  lemma DistinctPairs(s: seq<(int, int)>)
    requires forall k :: 0 <= k < |s| ==> s[k].1 == k
    ensures forall x :: multiset(s)[x] <= 1
  {
    if s != [] {
      var h := s[..|s| - 1];
      assert s == h + [s[|s| - 1]];
      DistinctPairs(h);
      forall x
        ensures multiset(s)[x] <= 1
      {
        if x == s[|s| - 1] {
          assert x !in h;
        }
      }
    }
  }

  /** In a sequence holding every element at most once, two positions hold different elements. */
  lemma SingleHeldDiffer(q: seq<(int, int)>, a: int, b: int)
    requires forall x :: multiset(q)[x] <= 1
    requires 0 <= a < b < |q|
    ensures q[a] != q[b]
  {
    assert q == q[..a] + [q[a]] + q[a + 1..b] + [q[b]] + q[b + 1..];
    assert multiset(q)[q[a]] >= 1 + if q[b] == q[a] then 1 else 0;
  }

  /** The total length of the fragments named by the second parts of `a`. */
  function SumOver(a: seq<(int, int)>, lengths: seq<int>): int
    requires forall x :: x in a ==> 0 <= x.1 < |lengths|
  {
    if a == [] then 0 else SumOver(a[..|a| - 1], lengths) + lengths[a[|a| - 1].1]
  }

  lemma {:induction false} SumOverAppend(a: seq<(int, int)>, b: seq<(int, int)>, lengths: seq<int>)
    requires forall x :: x in a + b ==> 0 <= x.1 < |lengths|
    ensures SumOver(a + b, lengths) == SumOver(a, lengths) + SumOver(b, lengths)
    decreases |b|
  {
    if b == [] {
      assert a + b == a;
    } else {
      var c := b[..|b| - 1];
      assert (a + b)[..|a + b| - 1] == a + c;
      SumOverAppend(a, c, lengths);
    }
  }

  /** Removing position k takes one copy of its element out and its length off the total. */
  lemma RemoveAt(b: seq<(int, int)>, k: int, lengths: seq<int>)
    requires 0 <= k < |b| && forall x :: x in b ==> 0 <= x.1 < |lengths|
    ensures multiset(b[..k] + b[k + 1..]) == multiset(b) - multiset{b[k]}
    ensures SumOver(b, lengths) == SumOver(b[..k] + b[k + 1..], lengths) + lengths[b[k].1]
  {
    var x := b[k];
    assert b == b[..k] + [x] + b[k + 1..];
    assert multiset(b) == multiset(b[..k]) + multiset{x} + multiset(b[k + 1..]);
    SumOverAppend(b[..k], [x], lengths);
    SumOverAppend(b[..k] + [x], b[k + 1..], lengths);
    SumOverAppend(b[..k], b[k + 1..], lengths);
    assert SumOver([x], lengths) == lengths[x.1] by {
      assert [x][..0] == [];
    }
  }

  /** Reordering the fragments does not change their total length. */
  lemma {:induction false} SumOverPermutation(a: seq<(int, int)>, b: seq<(int, int)>, lengths: seq<int>)
    requires multiset(a) == multiset(b)
    requires forall x :: x in a ==> 0 <= x.1 < |lengths|
    ensures forall x :: x in b ==> 0 <= x.1 < |lengths|
    ensures SumOver(a, lengths) == SumOver(b, lengths)
    decreases |a|
  {
    assert forall x :: x in b ==> x in multiset(a);
    if a != [] {
      var x := a[|a| - 1];
      var h := a[..|a| - 1];
      assert a == h + [x];
      assert multiset(h) == multiset(a) - multiset{x};
      assert x in multiset(b);
      var k :| 0 <= k < |b| && b[k] == x;
      RemoveAt(b, k, lengths);
      SumOverPermutation(h, b[..k] + b[k + 1..], lengths);
    }
  }

  /** Numbered pairs (second part k at position k) name the first |a| fragments once each. */
  lemma {:induction false} SumOverNumbered(a: seq<(int, int)>, lengths: seq<int>)
    requires |a| <= |lengths| && forall k :: 0 <= k < |a| ==> a[k].1 == k
    ensures SumOver(a, lengths) == SumInt(lengths[..|a|])
  {
    if a != [] {
      SumOverNumbered(a[..|a| - 1], lengths);
      assert lengths[..|a|][..|a| - 1] == lengths[..|a| - 1];
    }
  }

  /** The genes of fragment k read cyclically from `from` in a parent. */
  function FragmentGenes(p: seq<int>, from: int, length: int): (r: seq<int>)
    requires |p| > 0 && 0 <= from < |p| && 0 <= length
    ensures |r| == length
  {
    seq(length, m requires 0 <= m < length => p[(from + m) % |p|])
  }

  /**
   * The offspring built from the first i fragments of the order: the ones
   * at even places from parent 1, those at odd places from parent 2.
   */
  function Assemble(p1: seq<int>, p2: seq<int>, f: Fragments, order: seq<(int, int)>, i: nat): (r: seq<int>)
    requires |p1| == |p2| > 0 && Sized(f, |p1|) && i <= |order|
    requires forall x :: x in order ==> 0 <= x.1 < |p1|
    ensures |r| == SumOver(order[..i], f.lengths)
  {
    if i == 0 then []
    else
      var k := order[i - 1].1;
      var piece := if (i - 1) % 2 == 0 then FragmentGenes(p1, f.p1Loc[k], f.lengths[k])
                   else FragmentGenes(p2, f.p2Loc[k], f.lengths[k]);
      assert order[..i][..i - 1] == order[..i - 1];
      Assemble(p1, p2, f, order, i - 1) + piece
  }

  /**
   * `crossover_distance_preserving`: scan, order, assemble; an offspring that
   * fails `invalid_offspring` is fatal error 1, as is a gene of parent 1
   * missing from parent 2.
   */
  function Dpx(p1: seq<int>, p2: seq<int>): (r: Result<seq<int>>)
    requires |p1| == |p2| > 0
    ensures r.Ok? ==> |r.value| == |p1| && !InvalidOffspring(r.value)
    ensures r.Err? ==> r.code == 1
  {
    ScanFailsOnMissingGene(p1, p2, |p1|);
    match Scan(p1, p2, |p1|)
    case Err(e) => Err(e)
    case Ok(f) =>
      var c := Found(f);
      var order := FragmentOrder(f, c);
      OffspringLength(p1, p2, f, c);
      var offspring := Assemble(p1, p2, f, order, c);
      if InvalidOffspring(offspring) then Err(1) else Ok(offspring)
  }

  /** The assembled offspring has exactly N genes: the ordered fragments tile parent 1. */
  lemma OffspringLength(p1: seq<int>, p2: seq<int>, f: Fragments, c: nat)
    requires |p1| == |p2| > 0 && Scan(p1, p2, |p1|) == Ok(f) && c == Found(f)
    ensures forall x :: x in FragmentOrder(f, c) ==> 0 <= x.1 < |p1|
    ensures |Assemble(p1, p2, f, FragmentOrder(f, c), c)| == |p1|
  {
    var s := seq(c, k requires 0 <= k < c => (f.p1Loc[k] + f.p2Loc[k], k));
    var order := FragmentOrder(f, c);
    ExchangeSortSorts(s, TotalKey);
    FragmentsCoverParent(p1, p2);
    SumOverNumbered(s, f.lengths);
    SumOverPermutation(s, order, f.lengths);
    assert order[..c] == order;
  }
}
