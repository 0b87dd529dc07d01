/**
 * A store of cell indices (`CellStore.cpp`): a buffer of capacity `ncells`
 * that the seed-ordering code fills with the indices of selected cells and
 * then sorts by weight or protection level with a double loop of
 * compare-and-swap steps.
 */
module CellStores {
  import opened Common
  import opened JJData

  /** The indices 0..n-1 in increasing order. */
  function Range(n: nat): (r: seq<int>)
    ensures |r| == n && forall p :: 0 <= p < n ==> r[p] == p
  {
    seq(n, p requires 0 <= p < n => p)
  }

  /** The loss-of-information weights of a table's cells. */
  function Weights(table: seq<Cell>): (r: seq<real>)
    ensures |r| == |table| && forall k :: 0 <= k < |table| ==> r[k] == table[k].weight
  {
    seq(|table|, k requires 0 <= k < |table| => table[k].weight)
  }

  /** The upper protection levels of a table's cells. */
  function UpperProtections(table: seq<Cell>): (r: seq<real>)
    ensures |r| == |table| && forall k :: 0 <= k < |table| ==> r[k] == table[k].upperProtection
  {
    seq(|table|, k requires 0 <= k < |table| => table[k].upperProtection)
  }

  // ---------------------------------------------------------------------------
  // The order the sorts establish, and the invariants of their double loop
  // ---------------------------------------------------------------------------

  /**
   * The sorts all swap positions i and j when cell `s[i]` should come before
   * cell `s[j]`; `Rank` turns both directions into "smaller rank first":
   * the key for the smallest-first sorts and its negation for the
   * largest-first ones.
   */
  function Rank(key: seq<real>, largestFirst: bool, x: int): real
  {
    if 0 <= x < |key| then (if largestFirst then -key[x] else key[x]) else 0.0
  }

  /** The comparison of the inner loop: whether cell `k` is ranked strictly before cell `l`. */
  function Before(key: seq<real>, largestFirst: bool, k: int, l: int): (r: bool)
    requires 0 <= k < |key| && 0 <= l < |key|
    ensures r <==> Rank(key, largestFirst, k) < Rank(key, largestFirst, l)
  {
    if largestFirst then key[k] > key[l] else key[k] < key[l]
  }

  /** Positions lo..hi-1 of `s` hold cells in non-decreasing rank. */
  ghost predicate SortedBetween(s: seq<int>, key: seq<real>, lf: bool, lo: int, hi: int)
    requires 0 <= lo && hi <= |s|
  {
    forall p, q :: lo <= p < q < hi ==> Rank(key, lf, s[p]) <= Rank(key, lf, s[q])
  }

  /** Every cell before position j is ranked no later than the cell at m. */
  ghost predicate BelowAt(s: seq<int>, key: seq<real>, lf: bool, j: int, m: int)
    requires 0 <= j <= |s| && 0 <= m < |s|
  {
    forall p :: 0 <= p < j ==> Rank(key, lf, s[p]) <= Rank(key, lf, s[m])
  }

  /**
   * While j < i the inner loop inserts the cell at i into the sorted prefix:
   * s[..j] and s[j..i] are each sorted, s[..j] is ranked no later than
   * s[j..i], and the cell at i is ranked no earlier than all of s[..j].
   */
  ghost predicate InsertPhase(s: seq<int>, key: seq<real>, lf: bool, i: int, j: int)
    requires 0 <= j <= i < |s|
  {
    SortedBetween(s, key, lf, 0, j) && SortedBetween(s, key, lf, j, i) && BelowAt(s, key, lf, j, i) &&
    forall p, q :: 0 <= p < j <= q < i ==> Rank(key, lf, s[p]) <= Rank(key, lf, s[q])
  }

  /**
   * Once j >= i, s[..i+1] is sorted and the cell at i is ranked no earlier
   * than any cell before j: it collects the latest-ranked cell.
   */
  ghost predicate MaximumPhase(s: seq<int>, key: seq<real>, lf: bool, i: int, j: int)
    requires 0 <= i <= j <= |s| && i < |s|
  {
    SortedBetween(s, key, lf, 0, i + 1) && BelowAt(s, key, lf, j, i)
  }

  /** One step of the inner loop: swap when the cell at i is ranked before the cell at j. */
  function Step(s: seq<int>, key: seq<real>, lf: bool, i: int, j: int): seq<int>
    requires 0 <= i < |s| && 0 <= j < |s|
  {
    if Rank(key, lf, s[i]) < Rank(key, lf, s[j]) then Swap(s, i, j) else s
  }

  /** A step with j < i keeps the insertion invariant. */
  lemma InsertStep(s: seq<int>, key: seq<real>, lf: bool, i: int, j: int)
    requires 0 <= j < i < |s| && InsertPhase(s, key, lf, i, j)
    ensures InsertPhase(Step(s, key, lf, i, j), key, lf, i, j + 1)
  {
    var t := Step(s, key, lf, i, j);
    var R := x => Rank(key, lf, x);
    if R(s[i]) < R(s[j]) {
      assert t[j] == s[i] && t[i] == s[j];
      forall p, q | 0 <= p < q < j + 1
        ensures R(t[p]) <= R(t[q])
      {
        if q == j {
          assert R(s[p]) <= R(s[i]);
        }
      }
      forall p | 0 <= p < j + 1
        ensures R(t[p]) <= R(t[i])
      {
      }
      forall p, q | 0 <= p < j + 1 <= q < i
        ensures R(t[p]) <= R(t[q])
      {
        if p == j {
          assert R(s[j]) <= R(s[q]);
        }
      }
    }
  }

  /** A step with j >= i keeps the maximum invariant. */
  lemma MaximumStep(s: seq<int>, key: seq<real>, lf: bool, i: int, j: int)
    requires 0 <= i <= j < |s| && MaximumPhase(s, key, lf, i, j)
    ensures MaximumPhase(Step(s, key, lf, i, j), key, lf, i, j + 1)
  {
    var t := Step(s, key, lf, i, j);
    var R := x => Rank(key, lf, x);
    if R(s[i]) < R(s[j]) {
      assert i != j;
      forall p, q | 0 <= p < q < i + 1
        ensures R(t[p]) <= R(t[q])
      {
        if q == i {
          assert R(s[p]) <= R(s[i]);
        }
      }
      forall p | 0 <= p < j + 1
        ensures R(t[p]) <= R(t[i])
      {
        if p != j && p != i {
          assert R(s[p]) <= R(s[i]);
        }
      }
    }
  }

  /** When j reaches i the inserted prefix s[..i+1] is sorted. */
  lemma InsertDone(s: seq<int>, key: seq<real>, lf: bool, i: int)
    requires 0 <= i < |s| && InsertPhase(s, key, lf, i, i)
    ensures MaximumPhase(s, key, lf, i, i)
  {
  }

  class CellStore {
    const cells: array<int>
    var size: int

    ghost predicate Valid()
      reads this
    {
      0 <= size <= cells.Length
    }

    /** The store's contents, `cells[0..size)`. */
    function Stored(): (r: seq<int>)
      requires Valid()
      reads this, cells
      ensures |r| == size
    {
      cells[..size]
    }

    /** An empty store with room for one entry per cell of the table. */
    constructor (ncells: nat)
      ensures Valid() && fresh(cells) && cells.Length == ncells && size == 0
    {
      cells := new int[ncells];
      size := 0;
    }

    /** `store_cell`: appends one index (the buffer is assumed to have room). */
    method StoreCell(i: int)
      requires Valid() && size < cells.Length
      modifies this, cells
      ensures Valid() && Stored() == old(Stored()) + [i]
    {
      cells[size] := i;
      size := size + 1;
    }

    /** Appends, in increasing order, the indices of the cells with status `c`. */
    method StoreCellsWithStatus(table: seq<Cell>, c: char)
      requires Valid() && size + Count(Statuses(table), c) <= cells.Length
      modifies this, cells
      ensures Valid() && Stored() == old(Stored()) + IndicesOf(Statuses(table), c)
    {
      var st := Statuses(table);
      var i := 0;
      while i < |table|
        invariant 0 <= i <= |table|
        invariant Valid()
        invariant Stored() == old(Stored()) + IndicesOf(st[..i], c)
        invariant size == old(size) + Count(st[..i], c)
      {
        assert st[..i + 1][..i] == st[..i];
        CountPrefix(st, i + 1, c);
        CountMonotone(st, i + 1, c);
        if table[i].status == c {
          StoreCell(i);
        }
        i := i + 1;
      }
      assert st[..i] == st;
    }

    /** `store_selected_cells`: the primary ('u') cells. */
    method StoreSelectedCells(table: seq<Cell>)
      requires Valid() && size + Count(Statuses(table), Primary) <= cells.Length
      modifies this, cells
      ensures Valid() && Stored() == old(Stored()) + IndicesOf(Statuses(table), Primary)
      ensures size == old(size) + Count(Statuses(table), Primary)
    {
      StoreCellsWithStatus(table, Primary);
    }

    /** `store_all_potential_cells`: the cells that may be suppressed ('s'). */
    method StoreAllPotentialCells(table: seq<Cell>)
      requires Valid() && size + Count(Statuses(table), Safe) <= cells.Length
      modifies this, cells
      ensures Valid() && Stored() == old(Stored()) + IndicesOf(Statuses(table), Safe)
      ensures size == old(size) + Count(Statuses(table), Safe)
    {
      StoreCellsWithStatus(table, Safe);
    }

    /** `store_all_cells`: every index 0..ncells-1. */
    method StoreAllCells(ncells: nat)
      requires Valid() && size + ncells <= cells.Length
      modifies this, cells
      ensures Valid() && Stored() == old(Stored()) + Range(ncells)
    {
      var i := 0;
      while i < ncells
        invariant 0 <= i <= ncells
        invariant Valid() && size == old(size) + i
        invariant Stored() == old(Stored()) + Range(i)
      {
        assert Range(i + 1) == Range(i) + [i];
        StoreCell(i);
        i := i + 1;
      }
    }

    /** `swap_stored_cells`: exchanges exactly positions i and j of the buffer. */
    method SwapStoredCells(i: int, j: int)
      requires 0 <= i < cells.Length && 0 <= j < cells.Length
      modifies cells
      ensures cells[..] == old(cells[..])[i := old(cells[j])][j := old(cells[i])]
    {
      var temp := cells[i];
      cells[i] := cells[j];
      cells[j] := temp;
    }

    /**
     * The double loop shared by the four `order_cells_by_*` methods: for
     * every i and every j, swap the stored cells at i and j when the cell at
     * i comes strictly before the cell at j. The result is a permutation of
     * the stored cells in non-decreasing rank.
     */
    method OrderCells(key: seq<real>, largestFirst: bool)
      requires Valid() && forall p :: 0 <= p < size ==> 0 <= cells[p] < |key|
      modifies cells
      ensures multiset(Stored()) == multiset(old(Stored()))
      ensures cells[size..] == old(cells[size..])
      ensures forall p :: 0 <= p < size ==> 0 <= cells[p] < |key|
      ensures SortedBetween(Stored(), key, largestFirst, 0, size)
    {
      var i := 0;
      while i < size
        invariant 0 <= i <= size
        invariant multiset(Stored()) == multiset(old(Stored()))
        invariant cells[size..] == old(cells[size..])
        invariant forall p :: 0 <= p < size ==> 0 <= cells[p] < |key|
        invariant SortedBetween(Stored(), key, largestFirst, 0, i)
      {
        var j := 0;
        while j < size
          invariant 0 <= j <= size
          invariant multiset(Stored()) == multiset(old(Stored()))
          invariant cells[size..] == old(cells[size..])
          invariant forall p :: 0 <= p < size ==> 0 <= cells[p] < |key|
          invariant j <= i ==> InsertPhase(Stored(), key, largestFirst, i, j)
          invariant j > i ==> MaximumPhase(Stored(), key, largestFirst, i, j)
        {
          ghost var s := Stored();
          CompareAndSwap(key, largestFirst, i, j);
          if j < i {
            InsertStep(s, key, largestFirst, i, j);
          } else {
            if j == i {
              InsertDone(s, key, largestFirst, i);
            }
            MaximumStep(s, key, largestFirst, i, j);
          }
          j := j + 1;
        }
        i := i + 1;
      }
    }

    /** One pass of the inner loop body: `Step` on the stored cells. */
    method CompareAndSwap(key: seq<real>, largestFirst: bool, i: int, j: int)
      requires Valid() && 0 <= i < size && 0 <= j < size
      requires forall p :: 0 <= p < size ==> 0 <= cells[p] < |key|
      modifies cells
      ensures Stored() == Step(old(Stored()), key, largestFirst, i, j)
      ensures multiset(Stored()) == multiset(old(Stored()))
      ensures cells[size..] == old(cells[size..])
      ensures forall p :: 0 <= p < size ==> 0 <= cells[p] < |key|
    {
      var k := cells[i];
      var l := cells[j];
      if Before(key, largestFirst, k, l) {
        SwapStoredCells(i, j);
        assert cells[..size] == Swap(old(cells[..size]), i, j);
        SwapKeeps(old(cells[..size]), i, j);
      }
    }

    /** `order_cells_by_largest_weighting`: non-increasing loss-of-information weight. */
    method OrderCellsByLargestWeighting(table: seq<Cell>)
      requires Valid() && forall p :: 0 <= p < size ==> 0 <= cells[p] < |table|
      modifies cells
      ensures multiset(Stored()) == multiset(old(Stored())) && cells[size..] == old(cells[size..])
      ensures forall p :: 0 <= p < size ==> 0 <= cells[p] < |table|
      ensures forall p, q :: 0 <= p < q < size ==> table[cells[p]].weight >= table[cells[q]].weight
    {
      OrderCells(Weights(table), true);
      assert forall p, q :: 0 <= p < q < size ==>
               Rank(Weights(table), true, cells[p]) <= Rank(Weights(table), true, cells[q]);
    }

    /** `order_cells_by_smallest_weighting`: non-decreasing loss-of-information weight. */
    method OrderCellsBySmallestWeighting(table: seq<Cell>)
      requires Valid() && forall p :: 0 <= p < size ==> 0 <= cells[p] < |table|
      modifies cells
      ensures multiset(Stored()) == multiset(old(Stored())) && cells[size..] == old(cells[size..])
      ensures forall p :: 0 <= p < size ==> 0 <= cells[p] < |table|
      ensures forall p, q :: 0 <= p < q < size ==> table[cells[p]].weight <= table[cells[q]].weight
    {
      OrderCells(Weights(table), false);
      assert forall p, q :: 0 <= p < q < size ==>
               Rank(Weights(table), false, cells[p]) <= Rank(Weights(table), false, cells[q]);
    }

    /** `order_cells_by_largest_protection_level`: non-increasing upper protection level. */
    method OrderCellsByLargestProtectionLevel(table: seq<Cell>)
      requires Valid() && forall p :: 0 <= p < size ==> 0 <= cells[p] < |table|
      modifies cells
      ensures multiset(Stored()) == multiset(old(Stored())) && cells[size..] == old(cells[size..])
      ensures forall p :: 0 <= p < size ==> 0 <= cells[p] < |table|
      ensures forall p, q :: 0 <= p < q < size ==>
                table[cells[p]].upperProtection >= table[cells[q]].upperProtection
    {
      OrderCells(UpperProtections(table), true);
      assert forall p, q :: 0 <= p < q < size ==>
               Rank(UpperProtections(table), true, cells[p]) <= Rank(UpperProtections(table), true, cells[q]);
    }

    /** `order_cells_by_smallest_protection_level`: non-decreasing upper protection level. */
    method OrderCellsBySmallestProtectionLevel(table: seq<Cell>)
      requires Valid() && forall p :: 0 <= p < size ==> 0 <= cells[p] < |table|
      modifies cells
      ensures multiset(Stored()) == multiset(old(Stored())) && cells[size..] == old(cells[size..])
      ensures forall p :: 0 <= p < size ==> 0 <= cells[p] < |table|
      ensures forall p, q :: 0 <= p < q < size ==>
                table[cells[p]].upperProtection <= table[cells[q]].upperProtection
    {
      OrderCells(UpperProtections(table), false);
      assert forall p, q :: 0 <= p < q < size ==>
               Rank(UpperProtections(table), false, cells[p]) <= Rank(UpperProtections(table), false, cells[q]);
    }
  }
}
