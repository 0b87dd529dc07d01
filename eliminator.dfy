/**
 * The `Eliminate` class of `Eliminate.cpp`: the scaled table, the
 * consolidated equations, the bounds and the flat arrays of processing
 * equations, updated in place as the source does. Every method is proved
 * against the functions of `Eliminations`.
 */
module Eliminators {
  import opened Common
  import opened JJData
  import U = Unpickers
  import CS = CellStores
  import opened Eliminations

  /** The first loop of the constructor: every cell scaled, and `grand_total`. */
  method ScaleTable(table: seq<Cell>) returns (cs: array<ECell>, g: int)
    ensures fresh(cs) && cs[..] == ScaledCells(table) && g == GrandTotal(cs[..])
  {
    var n := |table|;
    ghost var sc := ScaledCells(table);
    cs := new ECell[n];
    g := 0;
    var i := 0;
    while i < n
      invariant 0 <= i <= n && cs[..i] == sc[..i] && g == GrandTotal(sc[..i])
    {
      assert sc[..i + 1][..i] == sc[..i];
      cs[i] := ScaledCell(table[i]);
      if cs[i].nominal > g {
        g := cs[i].nominal;
      }
      i := i + 1;
    }
    assert cs[..] == cs[..n] && sc == sc[..n];
  }

  /** The second loop of the constructor: `primaryCells`, the primary cells in order. */
  method PrimaryCells(cs: array<ECell>) returns (ps: seq<int>)
    ensures ps == Primaries(cs[..])
  {
    ghost var st := EStatuses(cs[..]);
    ps := [];
    var i := 0;
    while i < cs.Length
      invariant 0 <= i <= cs.Length && ps == IndicesOf(st[..i], Primary)
    {
      CountPrefix(st, i + 1, Primary);
      if cs[i].status == Primary {
        ps := ps + [i];
      }
      i := i + 1;
    }
    assert st[..i] == st;
  }

  /**
   * The `for k` loop that sets up the two processing equations of term `j`:
   * each other term goes to the list its sign and the target's sign call for.
   */
  method BuildProcessing(e: IEquation, j: nat) returns (lo: IProcessing, up: IProcessing)
    requires j < |e.terms|
    ensures lo == LowerProcessing(e, j, |e.terms|) && up == UpperProcessing(e, j, |e.terms|)
  {
    var rhs := if e.terms[j].sign == 1 then e.rhs else -e.rhs;
    lo := IProcessing(e.terms[j].cell, rhs, [], [], [], []);
    up := lo;
    var k := 0;
    while k < |e.terms|
      invariant 0 <= k <= |e.terms|
      invariant lo == LowerProcessing(e, j, k) && up == UpperProcessing(e, j, k)
    {
      if k != j {
        if (e.terms[k].sign == 1) == (e.terms[j].sign == 1) {
          lo := lo.(upperSubs := lo.upperSubs + [e.terms[k].cell]);
          up := up.(lowerSubs := up.lowerSubs + [e.terms[k].cell]);
        } else {
          lo := lo.(lowerAdds := lo.lowerAdds + [e.terms[k].cell]);
          up := up.(upperAdds := up.upperAdds + [e.terms[k].cell]);
        }
      }
      k := k + 1;
    }
  }

  /** Phase 1 of `allocateMemoryForProcessingEquations`: `biggestConsEqn`. */
  method LargestSize(es: seq<IEquation>) returns (b: nat)
    ensures b == Biggest(es)
  {
    b := 0;
    var i := 0;
    while i < |es|
      invariant 0 <= i <= |es| && b == Biggest(es[..i])
    {
      assert es[..i + 1][..i] == es[..i];
      if |es[i].terms| > b {
        b := |es[i].terms|;
      }
      i := i + 1;
    }
    assert es[..i] == es;
  }

  class Eliminate {
    /** `jjData->cells`: the table as read, whose unscaled weights `getCost` sums. */
    const table: seq<Cell>
    /** `consistency_eqtns`: the table's equations, right-hand sides scaled. */
    const consistency: seq<IEquation>
    /** `cells`: the scaled cells; elimination changes their status. */
    const cells: array<ECell>
    /** The `removable` flag of each cell. */
    const removable: array<bool>
    /** `grand_total`. */
    const grandTotal: int
    /** `primaryCells`; `nPrimaryCells` is its length. */
    const primaries: seq<int>
    /** `cell_bounds` and `savedCellBounds`. */
    const bounds: array<IBounds>
    const savedBounds: array<IBounds>
    /** `OrderedCells`. */
    const ordered: array<int>
    /** `consolidated_eqtns`; `no_consolidated_eqtns` is its length. */
    var consolidated: seq<IEquation>
    /** `saved_consolidated_equations`. */
    var saved: seq<IEquation>
    /** `processing_eqtns_lower` and `processing_eqtns_upper`, `biggestConsEqn` slots per equation. */
    var procLower: array<IProcessing>
    var procUpper: array<IProcessing>
    var biggest: nat
    /** `initial_nsup_found_1` and `initial_nsup_bounds_broken_1`. */
    var initialFound: nat
    var initialBroken: nat
    /** `number_of_secondary_cells_removed`. */
    var removed: nat

    ghost predicate Valid()
      reads this
    {
      cells.Length == |table| && removable.Length == |table| && bounds.Length == |table| &&
      savedBounds.Length == |table| && ordered.Length == |table| && bounds != savedBounds &&
      procLower != procUpper && grandTotal >= 0 &&
      AllIn(consolidated, |table|) && AllIn(saved, |table|) &&
      forall k :: 0 <= k < |primaries| ==> 0 <= primaries[k] < |table|
    }

    /** The equations fit the processing arrays as allocated. */
    ghost predicate Fits(es: seq<IEquation>)
      reads this
    {
      procLower.Length == procUpper.Length && FitsIn(es, biggest, procLower.Length)
    }

    /** The processing equations of term `k` of consolidated equation `i` are in their slots. */
    ghost predicate Filled(i: int, k: int)
      requires 0 <= i < |consolidated| && 0 <= k < |consolidated[i].terms|
      reads this, procLower, procUpper
    {
      var e := consolidated[i];
      0 <= Index(i, k, biggest) < procLower.Length && Index(i, k, biggest) < procUpper.Length &&
      procLower[Index(i, k, biggest)] == LowerProcessing(e, k, |e.terms|) &&
      procUpper[Index(i, k, biggest)] == UpperProcessing(e, k, |e.terms|)
    }

    /** What `SetUpProcessingEquationsForCurrentConsolidatedEquations` leaves. */
    ghost predicate Prepared()
      reads this, procLower, procUpper
    {
      forall i, k :: 0 <= i < |consolidated| && 0 <= k < |consolidated[i].terms| ==> Filled(i, k)
    }

    /**
     * The constructor: each cell scaled, `grand_total` the largest scaled
     * nominal value (at least 0), `primaryCells` the primary cells in
     * order; no equations are consolidated and nothing is allocated.
     */
    constructor (table: seq<Cell>, equations: seq<Equation>)
      ensures Valid() && fresh(cells) && fresh(removable) && fresh(bounds) && fresh(savedBounds) && fresh(ordered)
      ensures this.table == table && consistency == ScaledEquations(equations) && cells[..] == ScaledCells(table)
      ensures grandTotal == GrandTotal(cells[..]) && primaries == Primaries(cells[..])
      ensures consolidated == [] && saved == [] && biggest == 0 && removed == 0
      ensures initialFound == 0 && initialBroken == 0
    {
      var n := |table|;
      var cs, g := ScaleTable(table);
      var ps := PrimaryCells(cs);
      this.table := table;
      consistency := ScaledEquations(equations);
      cells := cs;
      removable := new bool[n];
      grandTotal := g;
      primaries := ps;
      bounds := new IBounds[n];
      savedBounds := new IBounds[n];
      ordered := new int[n];
      consolidated := [];
      saved := [];
      procLower := new IProcessing[0];
      procUpper := new IProcessing[0];
      biggest := 0;
      initialFound := 0;
      initialBroken := 0;
      removed := 0;
    }

    /** `init_cell_bounds`: suppressed cells in [0, grand_total], the others pinned at their value. */
    method InitCellBounds()
      requires Valid()
      modifies bounds
      ensures bounds[..] == InitialBounds(cells[..], grandTotal)
    {
      var i := 0;
      while i < bounds.Length
        invariant 0 <= i <= bounds.Length
        invariant forall k :: 0 <= k < i ==> bounds[k] == InitialBound(cells[k], grandTotal)
      {
        if cells[i].status == Primary || cells[i].status == Secondary {
          bounds[i] := IBounds(0, grandTotal);
        } else {
          bounds[i] := IBounds(cells[i].nominal, cells[i].nominal);
        }
        i := i + 1;
      }
    }

    /** `backup_Consolidated_Equations`: the equations that still have terms. */
    method BackupEquations()
      requires Valid()
      modifies this`saved
      ensures Valid() && saved == NonEmptyOf(consolidated)
    {
      var s: seq<IEquation> := [];
      var i := 0;
      while i < |consolidated|
        invariant 0 <= i <= |consolidated| && s == NonEmptyOf(consolidated[..i])
      {
        assert consolidated[..i + 1][..i] == consolidated[..i];
        if |consolidated[i].terms| > 0 {
          s := s + [consolidated[i]];
        }
        i := i + 1;
      }
      assert consolidated[..i] == consolidated;
      NonEmptyOfIn(consolidated, |table|);
      saved := s;
    }

    /** `restoreConsolidated_EquationsFromBackup`. */
    method RestoreEquations()
      requires Valid()
      modifies this`consolidated
      ensures Valid() && consolidated == saved
    {
      consolidated := saved;
    }

    /** `backupCellBounds`: a fatal error on a table without cells. */
    method BackupCellBounds() returns (r: Result<()>)
      requires Valid()
      modifies savedBounds
      ensures cells.Length == 0 ==> r == Err(1)
      ensures cells.Length > 0 ==> r == Ok(()) && savedBounds[..] == bounds[..]
    {
      if cells.Length == 0 {
        return Err(1);
      }
      var i := 0;
      while i < cells.Length
        invariant 0 <= i <= cells.Length && savedBounds[..i] == bounds[..i]
      {
        savedBounds[i] := bounds[i];
        i := i + 1;
      }
      assert savedBounds[..] == savedBounds[..i] && bounds[..] == bounds[..i];
      r := Ok(());
    }

    /** `restoreSavedCellBounds`: a fatal error on a table without cells. */
    method RestoreCellBounds() returns (r: Result<()>)
      requires Valid()
      modifies bounds
      ensures cells.Length == 0 ==> r == Err(1)
      ensures cells.Length > 0 ==> r == Ok(()) && bounds[..] == savedBounds[..]
    {
      if cells.Length == 0 {
        return Err(1);
      }
      var i := 0;
      while i < cells.Length
        invariant 0 <= i <= cells.Length && bounds[..i] == savedBounds[..i]
      {
        bounds[i] := savedBounds[i];
        i := i + 1;
      }
      assert bounds[..] == bounds[..i] && savedBounds[..] == savedBounds[..i];
      r := Ok(());
    }

    /** `tidy_up_the_consolidated_equations`. */
    method TidyUp()
      requires Valid()
      modifies this`consolidated
      ensures Valid() && consolidated == TidyAll(old(consolidated))
    {
      var i := 0;
      while i < |consolidated|
        invariant 0 <= i <= |consolidated| == |old(consolidated)|
        invariant consolidated[..i] == TidyAll(old(consolidated))[..i] && consolidated[i..] == old(consolidated)[i..]
      {
        var e := consolidated[i];
        if e.rhs < 0 {
          e := IEquation(-e.rhs, U.Negated(e.terms));
        }
        consolidated := consolidated[i := e];
        i := i + 1;
      }
      assert consolidated == consolidated[..i];
    }

    /** The counting loop over one consistency equation: its suppressed cells in the table. */
    method CountSuppressed(e: IEquation) returns (m: nat)
      ensures m == |SuppressedTerms(e.terms, cells[..])|
    {
      ghost var cs := cells[..];
      m := 0;
      var j := 0;
      while j < |e.terms|
        invariant 0 <= j <= |e.terms|
        invariant m == |SuppressedTerms(e.terms[..j], cs)|
      {
        assert e.terms[..j + 1][..j] == e.terms[..j];
        var c := e.terms[j].cell;
        assert 0 <= c < cells.Length ==> cells[c] == cs[c];
        if 0 <= c < cells.Length && (cells[c].status == Primary || cells[c].status == Secondary) {
          m := m + 1;
        }
        j := j + 1;
      }
      assert e.terms[..j] == e.terms;
    }

    /** The copying loop over one kept equation: published cells move to the right-hand side. */
    method ReduceEquation(e: IEquation) returns (r: IEquation)
      ensures r == Reduced(e, cells[..])
    {
      ghost var cs := cells[..];
      var rhs := e.rhs;
      var terms: seq<Term> := [];
      var j := 0;
      while j < |e.terms|
        invariant 0 <= j <= |e.terms|
        invariant terms == SuppressedTerms(e.terms[..j], cs)
        invariant rhs == e.rhs - PublishedSum(e.terms[..j], cs)
      {
        assert e.terms[..j + 1][..j] == e.terms[..j];
        var t := e.terms[j];
        assert 0 <= t.cell < cells.Length ==> cells[t.cell] == cs[t.cell];
        if 0 <= t.cell < cells.Length {
          if cells[t.cell].status == Primary || cells[t.cell].status == Secondary {
            terms := terms + [t];
          } else {
            rhs := rhs - Times(t.sign, cells[t.cell].nominal);
          }
        }
        j := j + 1;
      }
      assert e.terms[..j] == e.terms;
      r := IEquation(rhs, terms);
    }

    /** The first pass of `consolidate_the_consistency_equations`. */
    method CountKept() returns (n: nat)
      ensures n == NumberWithSuppressed(consistency, cells[..])
    {
      n := 0;
      var i := 0;
      while i < |consistency|
        invariant 0 <= i <= |consistency|
        invariant n == NumberWithSuppressed(consistency[..i], cells[..])
      {
        assert consistency[..i + 1][..i] == consistency[..i];
        var m := CountSuppressed(consistency[i]);
        if m > 0 {
          n := n + 1;
        }
        i := i + 1;
      }
      assert consistency[..i] == consistency;
    }

    /** The second pass: an array of the counted size filled with the reduced equations. */
    method FillKept(n: nat) returns (out: array<IEquation>)
      requires n == NumberWithSuppressed(consistency, cells[..])
      ensures fresh(out) && out[..] == Reductions(consistency, cells[..])
    {
      out := new IEquation[n];
      var k := 0;
      var i := 0;
      while i < |consistency|
        invariant 0 <= i <= |consistency|
        invariant k == NumberWithSuppressed(consistency[..i], cells[..]) && k <= out.Length
        invariant out[..k] == Reductions(consistency[..i], cells[..])
      {
        ReductionsSnoc(consistency, cells[..], i);
        NumberWithSuppressedMonotone(consistency, cells[..], i + 1);
        var m := CountSuppressed(consistency[i]);
        if m > 0 {
          var r := ReduceEquation(consistency[i]);
          ghost var before := out[..k];
          out[k] := r;
          assert out[..k + 1] == before + [r];
          k := k + 1;
        }
        i := i + 1;
      }
      assert consistency[..i] == consistency;
      assert out[..] == out[..k];
    }

    /**
     * `consolidate_the_consistency_equations`: the equations with a
     * suppressed cell, over their suppressed cells only, tidied.
     */
    method Consolidate()
      requires Valid()
      modifies this`consolidated
      ensures Valid() && consolidated == Consolidation(consistency, cells[..])
    {
      var n := CountKept();
      var out := FillKept(n);
      consolidated := out[..];
      TidyUp();
    }
  
    /** One equation of `simplify_the_consistency_equations`, with the number of terms removed. */
    method SimplifyEquationIn(e: IEquation) returns (r: IEquation, m: nat)
      requires Valid() && U.TermsIn(e.terms, bounds.Length)
      ensures (r, m) == SimplifyEquation(e, bounds[..])
    {
      r, m := e, 0;
      if |e.terms| == 0 {
      } else if |e.terms| == 1 {
        var c := e.terms[0].cell;
        if bounds[c].lower == bounds[c].upper {
          r, m := IEquation(e.rhs, []), 1;
        }
      } else {
        var j := 0;
        while j < |r.terms|
          invariant U.TermsIn(r.terms, bounds.Length)
          invariant SimplifyFrom(e, 0, bounds[..]) ==
                    (SimplifyFrom(r, j, bounds[..]).0, SimplifyFrom(r, j, bounds[..]).1 + m)
          decreases |r.terms| - j
        {
          var c := r.terms[j].cell;
          if bounds[c].lower == bounds[c].upper {
            var rhs := if r.terms[j].sign == 1 then r.rhs - bounds[c].upper else r.rhs + bounds[c].upper;
            var terms := r.terms[..j] + r.terms[j + 1..];
            assert forall k :: 0 <= k < |terms| ==> terms[k] in r.terms;
            r := IEquation(rhs, terms);
            m := m + 1;
          }
          j := j + 1;
        }
      }
    }

    /** The `for i` loop of `simplify_the_consistency_equations`: each equation in turn replaced by its simplified form. */
    method SimplifyEachIn(es: seq<IEquation>) returns (r: seq<IEquation>, n: nat)
      requires Valid() && AllIn(es, bounds.Length)
      ensures (r, n) == SimplifyEach(es, bounds[..])
    {
      r, n := [], 0;
      var i := 0;
      while i < |es|
        invariant 0 <= i <= |es|
        invariant (r, n) == SimplifyEach(es[..i], bounds[..])
      {
        SimplifyEachSnoc(es, i, bounds[..]);
        var e, m := SimplifyEquationIn(es[i]);
        r, n := r + [e], n + m;
        i := i + 1;
      }
      assert es[..i] == es;
    }

    /**
     * `simplify_the_consistency_equations`: every equation simplified, then
     * tidied; returns the number of terms removed.
     */
    method Simplify() returns (n: nat)
      requires Valid()
      modifies this`consolidated
      ensures Valid() && (consolidated, n) == Simplified(old(consolidated), bounds[..])
    {
      var r;
      r, n := SimplifyEachIn(consolidated);
      consolidated := r;
      TidyUp();
    }

    /** One equation of `set_initial_lower_and_upper_bounds`. */
    method SetInitialFor(e: IEquation)
      requires Valid() && U.TermsIn(e.terms, bounds.Length)
      modifies bounds
      ensures bounds[..] == SetInitialEquation(e, old(bounds[..]))
    {
      if |e.terms| == 1 {
        var c := e.terms[0].cell;
        bounds[c] := IBounds(e.rhs, e.rhs);
      } else if |e.terms| > 1 {
        var plus := 0;
        var j := 0;
        while j < |e.terms|
          invariant 0 <= j <= |e.terms| && 0 <= plus <= j
          invariant plus == j <==> U.AllPlus(e.terms[..j])
        {
          assert e.terms[..j + 1][..j] == e.terms[..j];
          if e.terms[j].sign == 1 {
            plus := plus + 1;
          }
          j := j + 1;
        }
        assert e.terms[..j] == e.terms;
        if plus == |e.terms| {
          j := 0;
          while j < |e.terms|
            invariant 0 <= j <= |e.terms| && U.TermsIn(e.terms[..j], bounds.Length)
            invariant bounds[..] == CapAll(e.terms[..j], e.rhs, old(bounds[..]))
          {
            assert e.terms[..j + 1][..j] == e.terms[..j];
            var c := e.terms[j].cell;
            if bounds[c].lower < 0 {
              bounds[c] := bounds[c].(lower := 0);
            }
            if bounds[c].upper > e.rhs {
              bounds[c] := bounds[c].(upper := e.rhs);
            }
            j := j + 1;
          }
          assert e.terms[..j] == e.terms;
        }
      }
    }

    /**
     * `set_initial_lower_and_upper_bounds`: every consolidated equation in
     * turn; false when one of them has no terms left.
     */
    method SetInitial() returns (rc: bool)
      requires Valid()
      modifies bounds
      ensures Valid()
      ensures bounds[..] == SetInitialAll(consolidated, old(bounds[..])) && rc == NoEmpty(consolidated)
    {
      rc := true;
      var i := 0;
      while i < |consolidated|
        invariant 0 <= i <= |consolidated|
        invariant bounds[..] == SetInitialAll(consolidated[..i], old(bounds[..]))
        invariant rc == NoEmpty(consolidated[..i])
      {
        assert consolidated[..i + 1][..i] == consolidated[..i];
        if |consolidated[i].terms| == 0 {
          rc := false;
        }
        SetInitialFor(consolidated[i]);
        i := i + 1;
      }
      assert consolidated[..i] == consolidated;
    }

    /** `while (simplify_the_consistency_equations() > 0) set_initial_lower_and_upper_bounds();` */
    method SimplifyUntilStable()
      requires Valid()
      modifies this`consolidated, bounds
      ensures Valid() && (consolidated, bounds[..]) == SimplifyLoop(old(consolidated), old(bounds[..]))
    {
      ghost var es, b := consolidated, bounds[..];
      var n := Simplify();
      while n > 0
        invariant Valid()
        invariant SimplifyLoop(es, b) ==
                  if n > 0 then SimplifyLoop(consolidated, SetInitialAll(consolidated, bounds[..]))
                  else (consolidated, bounds[..])
        decreases TotalTerms(consolidated) + if n > 0 then 1 else 0
      {
        var _ := SetInitial();
        n := Simplify();
      }
    }

    /**
     * `allocateMemoryForProcessingEquations`: false when there is no
     * consolidated equation; a fatal error when none has a term; otherwise
     * two arrays of `biggestConsEqn` slots per equation.
     */
    method AllocateProcessing() returns (r: Result<bool>)
      requires Valid()
      modifies this`procLower, this`procUpper, this`biggest
      ensures Valid()
      ensures |consolidated| == 0 ==> r == Ok(false) && procLower == old(procLower) && procUpper == old(procUpper)
      ensures |consolidated| > 0 && Biggest(consolidated) == 0 ==> r == Err(1)
      ensures |consolidated| > 0 && Biggest(consolidated) > 0 ==>
                r == Ok(true) && biggest == Biggest(consolidated) && fresh(procLower) && fresh(procUpper) &&
                procLower.Length == |consolidated| * biggest && Fits(consolidated)
    {
      if |consolidated| == 0 {
        return Ok(false);
      }
      var b := LargestSize(consolidated);
      biggest := b;
      if b == 0 {
        return Err(1);
      }
      MulMonotone(0, |consolidated|, b);
      var size := b * |consolidated|;
      assert size == |consolidated| * b;
      procLower := new IProcessing[size];
      procUpper := new IProcessing[size];
      assert FitsIn(consolidated, biggest, procLower.Length);
      r := Ok(true);
    }

    /** Term `j` of equation `i` written to its slot; every other slot keeps what it held. */
    method WriteSlot(i: nat, j: nat, lo: IProcessing, up: IProcessing)
      requires Valid() && Fits(consolidated) && i < |consolidated| && j < |consolidated[i].terms|
      requires lo == LowerProcessing(consolidated[i], j, |consolidated[i].terms|)
      requires up == UpperProcessing(consolidated[i], j, |consolidated[i].terms|)
      modifies procLower, procUpper
      ensures Filled(i, j)
      ensures forall i2, k :: 0 <= i2 < |consolidated| && 0 <= k < |consolidated[i2].terms| && old(Filled(i2, k)) ==>
                Filled(i2, k)
    {
      IndexBelow(i, j, biggest, |consolidated|);
      IndexInjectiveAll(i, j, biggest);
      procLower[Index(i, j, biggest)] := lo;
      procUpper[Index(i, j, biggest)] := up;
    }

    /**
     * `SetUpProcessingEquationsForCurrentConsolidatedEquations`: every list
     * emptied, then the two processing equations of every term of every
     * consolidated equation written to its slot.
     */
    method SetUpProcessing()
      requires Valid() && Fits(consolidated)
      modifies procLower, procUpper
      ensures Valid() && Fits(consolidated) && Prepared()
    {
      var j := |consolidated| * biggest;
      while j > 0
        invariant 0 <= j
      {
        j := j - 1;
        procLower[j] := procLower[j].(lowerAdds := [], upperAdds := [], lowerSubs := [], upperSubs := []);
        procUpper[j] := procUpper[j].(lowerAdds := [], upperAdds := [], lowerSubs := [], upperSubs := []);
      }
      var i := 0;
      while i < |consolidated|
        invariant 0 <= i <= |consolidated|
        invariant forall i2, k :: 0 <= i2 < i && 0 <= k < |consolidated[i2].terms| ==> Filled(i2, k)
      {
        var e := consolidated[i];
        if |e.terms| > 0 {
          j := 0;
          while j < |e.terms|
            invariant 0 <= j <= |e.terms|
            invariant forall i2, k :: 0 <= i2 < i && 0 <= k < |consolidated[i2].terms| ==> Filled(i2, k)
            invariant forall k :: 0 <= k < j ==> Filled(i, k)
          {
            var lo, up := BuildProcessing(e, j);
            WriteSlot(i, j, lo, up);
            j := j + 1;
          }
        }
        i := i + 1;
      }
    }
  
    /** One of the four `for (j = sz; j > 0;)` loops over a processing equation's list, last cell first. */
    method Accumulate(result: int, cs: seq<int>, lower: bool, add: bool) returns (r: int)
      requires forall k :: 0 <= k < |cs| ==> 0 <= cs[k] < bounds.Length
      ensures r == if add then result + SumBounds(cs, bounds[..], lower) else result - SumBounds(cs, bounds[..], lower)
    {
      r := result;
      var j := |cs|;
      assert cs[..j] == cs;
      while j > 0
        invariant 0 <= j <= |cs|
        invariant (if add then r + SumBounds(cs[..j], bounds[..], lower) else r - SumBounds(cs[..j], bounds[..], lower)) ==
                  (if add then result + SumBounds(cs, bounds[..], lower) else result - SumBounds(cs, bounds[..], lower))
      {
        j := j - 1;
        assert cs[..j + 1][..j] == cs[..j];
        var b := bounds[cs[j]];
        var v := if lower then b.lower else b.upper;
        r := if add then r + v else r - v;
      }
    }

    /** The bound one processing equation gives from the current bounds. */
    method EvaluateIn(p: IProcessing) returns (result: int)
      requires ProcessingIn(p, bounds.Length)
      ensures result == Evaluate(p, bounds[..])
    {
      result := p.rhs;
      result := Accumulate(result, p.lowerAdds, true, true);
      result := Accumulate(result, p.upperAdds, false, true);
      result := Accumulate(result, p.lowerSubs, true, false);
      result := Accumulate(result, p.upperSubs, false, false);
    }

    /**
     * `if (cell_bounds[cellno].lower < result)`, in place: `stop` when the
     * new lower bound had to be corrected and the function returns.
     */
    method RaiseLowerIn(c: int, result: int, rc: bool) returns (rc2: bool, stop: bool)
      requires 0 <= c < bounds.Length
      modifies bounds
      ensures Progress(bounds[..], rc2, stop) == RaiseLower(Progress(old(bounds[..]), rc, false), c, result)
    {
      rc2, stop := rc, false;
      if bounds[c].lower < result {
        var improvement := result - bounds[c].lower;
        bounds[c] := bounds[c].(lower := result);
        if bounds[c].lower < 0 || bounds[c].lower > bounds[c].upper {
          bounds[c] := bounds[c].(lower := bounds[c].upper);
          return false, true;
        } else if improvement > UnpickingPrecision {
          rc2 := true;
        }
      }
    }

    /** `if (cell_bounds[cellno].upper > result)`, in place. */
    method LowerUpperIn(c: int, result: int, rc: bool) returns (rc2: bool, stop: bool)
      requires 0 <= c < bounds.Length
      modifies bounds
      ensures Progress(bounds[..], rc2, stop) == LowerUpper(Progress(old(bounds[..]), rc, false), c, result, grandTotal)
    {
      rc2, stop := rc, false;
      if bounds[c].upper > result {
        var improvement := bounds[c].upper - result;
        bounds[c] := bounds[c].(upper := result);
        if bounds[c].upper < bounds[c].lower || bounds[c].upper > grandTotal {
          bounds[c] := bounds[c].(upper := bounds[c].lower);
          return false, true;
        } else if improvement > UnpickingPrecision {
          rc2 := true;
        }
      }
    }

    /** The lower processing equation of term `k` of equation `i`, read from its slot. */
    method LowerSlot(i: nat, k: nat) returns (p: IProcessing)
      requires Valid() && Prepared() && i < |consolidated| && k < |consolidated[i].terms|
      ensures p == LowerProcessing(consolidated[i], k, |consolidated[i].terms|)
    {
      assert Filled(i, k);
      p := procLower[Index(i, k, biggest)];
    }

    /** The upper processing equation of term `k` of equation `i`. */
    method UpperSlot(i: nat, k: nat) returns (p: IProcessing)
      requires Valid() && Prepared() && i < |consolidated| && k < |consolidated[i].terms|
      ensures p == UpperProcessing(consolidated[i], k, |consolidated[i].terms|)
    {
      assert Filled(i, k);
      p := procUpper[Index(i, k, biggest)];
    }

    /** One step of the lower pass: the processing equation of term `k` evaluated and applied. */
    method LowerStepIn(i: nat, k: nat, ghost start: Progress, rc: bool) returns (rc2: bool, stop: bool)
      requires Valid() && Prepared() && i < |consolidated| && k < |consolidated[i].terms|
      requires |start.bounds| == bounds.Length && !start.stopped
      requires Progress(bounds[..], rc, false) == LowerPass(consolidated[i], k, start)
      modifies bounds
      ensures Progress(bounds[..], rc2, stop) == LowerPass(consolidated[i], k + 1, start)
    {
      LowerPassStep(consolidated[i], k, start);
      var p := LowerSlot(i, k);
      var result := EvaluateIn(p);
      rc2, stop := RaiseLowerIn(p.cell, result, rc);
    }

    /** "Improve lower bounds" for consolidated equation `i`, from the processing slots. */
    method LowerPassIn(i: nat, rc: bool) returns (rc2: bool, stop: bool)
      requires Valid() && Prepared() && i < |consolidated|
      modifies bounds
      ensures var e := consolidated[i];
              Progress(bounds[..], rc2, stop) == LowerPass(e, |e.terms|, Progress(old(bounds[..]), rc, false))
    {
      var e := consolidated[i];
      ghost var start := Progress(bounds[..], rc, false);
      rc2, stop := rc, false;
      var k := 0;
      while k < |e.terms| && !stop
        invariant 0 <= k <= |e.terms|
        invariant Progress(bounds[..], rc2, stop) == LowerPass(e, k, start)
      {
        rc2, stop := LowerStepIn(i, k, start, rc2);
        k := k + 1;
      }
      if stop {
        LowerPassStopped(e, k, |e.terms|, start);
      }
    }

    /** One step of the upper pass: the processing equation of term `k` evaluated and applied. */
    method UpperStepIn(i: nat, k: nat, ghost start: Progress, rc: bool) returns (rc2: bool, stop: bool)
      requires Valid() && Prepared() && i < |consolidated| && k < |consolidated[i].terms|
      requires |start.bounds| == bounds.Length && !start.stopped
      requires Progress(bounds[..], rc, false) == UpperPass(consolidated[i], k, start, grandTotal)
      modifies bounds
      ensures Progress(bounds[..], rc2, stop) == UpperPass(consolidated[i], k + 1, start, grandTotal)
    {
      UpperPassStep(consolidated[i], k, start, grandTotal);
      var p := UpperSlot(i, k);
      var result := EvaluateIn(p);
      rc2, stop := LowerUpperIn(p.cell, result, rc);
    }

    /** "Improve upper bounds" for consolidated equation `i`. */
    method UpperPassIn(i: nat, rc: bool) returns (rc2: bool, stop: bool)
      requires Valid() && Prepared() && i < |consolidated|
      modifies bounds
      ensures var e := consolidated[i];
              Progress(bounds[..], rc2, stop) == UpperPass(e, |e.terms|, Progress(old(bounds[..]), rc, false), grandTotal)
    {
      var e := consolidated[i];
      ghost var start := Progress(bounds[..], rc, false);
      rc2, stop := rc, false;
      var k := 0;
      while k < |e.terms| && !stop
        invariant 0 <= k <= |e.terms|
        invariant Progress(bounds[..], rc2, stop) == UpperPass(e, k, start, grandTotal)
      {
        rc2, stop := UpperStepIn(i, k, start, rc2);
        k := k + 1;
      }
      if stop {
        UpperPassStopped(e, k, |e.terms|, start, grandTotal);
      }
    }

    /** One consolidated equation of `improve_lower_and_upper_bounds`. */
    method ImproveEquationIn(i: nat, rc: bool) returns (rc2: bool, stop: bool)
      requires Valid() && Prepared() && i < |consolidated|
      modifies bounds
      ensures Progress(bounds[..], rc2, stop) == ImproveEquation(consolidated[i], Progress(old(bounds[..]), rc, false), grandTotal)
    {
      var e := consolidated[i];
      rc2, stop := LowerPassIn(i, rc);
      if stop {
        return;
      }
      rc2, stop := UpperPassIn(i, rc2);
    }

    /**
     * `improve_lower_and_upper_bounds`: every consolidated equation in turn;
     * true when some bound moved by more than UNPICKING_PRECISION, false at
     * once when a bound had to be corrected.
     */
    method Improve() returns (rc: bool)
      requires Valid() && Prepared()
      modifies bounds
      ensures bounds[..] == ImproveAll(consolidated, old(bounds[..]), grandTotal).bounds
      ensures rc == ImproveAll(consolidated, old(bounds[..]), grandTotal).rc
    {
      ghost var start := Progress(bounds[..], false, false);
      rc := false;
      var i := 0;
      while i < |consolidated|
        invariant 0 <= i <= |consolidated|
        invariant ImproveFrom(consolidated[..i], start, grandTotal) == Progress(bounds[..], rc, false)
      {
        assert consolidated[..i + 1][..i] == consolidated[..i];
        var stop;
        rc, stop := ImproveEquationIn(i, rc);
        if stop {
          ImproveFromStopped(consolidated, i + 1, start, grandTotal);
          return;
        }
        i := i + 1;
      }
      assert consolidated[..i] == consolidated;
    }

    /** `while (improve_lower_and_upper_bounds())`: until no bound moves by more than UNPICKING_PRECISION. */
    method ImproveToFixpoint()
      requires Valid() && Prepared()
      modifies bounds
      ensures Valid()
      ensures bounds[..] == ImproveUntilStable(consolidated, old(bounds[..]), grandTotal)
    {
      ghost var b := bounds[..];
      ghost var before := bounds[..];
      var improved := Improve();
      ImproveProgress(consolidated, before, grandTotal);
      while improved
        invariant ImproveUntilStable(consolidated, b, grandTotal) ==
                  if improved then ImproveUntilStable(consolidated, bounds[..], grandTotal) else bounds[..]
        decreases if improved then Potential(bounds[..]) + 1 else 0
      {
        before := bounds[..];
        improved := Improve();
        ImproveProgress(consolidated, before, grandTotal);
      }
    }

    /** `while ((improve_lower_and_upper_bounds()) && (iterations < 5)) iterations++;` */
    method ImproveAtMostSix()
      requires Valid() && Prepared()
      modifies bounds
      ensures Valid()
      ensures bounds[..] == ImproveCapped(consolidated, old(bounds[..]), grandTotal, 0)
    {
      ghost var b := bounds[..];
      var iterations := 0;
      var improved := Improve();
      while improved && iterations < 5
        invariant 0 <= iterations <= ImproveCap
        invariant ImproveCapped(consolidated, b, grandTotal, 0) ==
                  if improved && iterations < ImproveCap then ImproveCapped(consolidated, bounds[..], grandTotal, iterations + 1)
                  else bounds[..]
        decreases ImproveCap - iterations
      {
        iterations := iterations + 1;
        improved := Improve();
      }
    }
  
    /** The classification of one primary cell shared by `getSafety` and `RecordExistingExposure`. */
    method ExposureIn(i: int) returns (e: Exposure)
      requires Valid() && 0 <= i < cells.Length
      ensures e == ExposureOf(cells[i], bounds[i])
    {
      var temp := cells[i].nominal - cells[i].lowerProtection;
      if temp < 0 {
        temp := 1;
      }
      if bounds[i].lower == bounds[i].upper {
        e := Found;
      } else if bounds[i].lower + SafetyMargin > temp {
        e := Broken;
      } else if bounds[i].upper - SafetyMargin < cells[i].nominal + cells[i].upperProtection {
        e := Broken;
      } else {
        e := Intact;
      }
    }

    /**
     * `getSafety`: the primary cells in turn; unsafe as soon as more are
     * found, or more have their protection broken, than at the start.
     */
    method GetSafety() returns (safe: bool)
      requires Valid()
      ensures safe == WithinInitial(TallyOf(primaries, cells[..], bounds[..]), initialFound, initialBroken)
    {
      safe := true;
      var t := Tally(0, 0);
      var j := 0;
      while j < |primaries|
        invariant 0 <= j <= |primaries|
        invariant t == TallyOf(primaries[..j], cells[..], bounds[..])
        invariant safe == WithinInitial(t, initialFound, initialBroken)
      {
        TallySnoc(primaries, cells[..], bounds[..], j);
        var e := ExposureIn(primaries[j]);
        t := Counted(t, e);
        if t.found > initialFound || t.broken > initialBroken {
          safe := false;
        }
        j := j + 1;
      }
      assert primaries[..j] == primaries;
    }

    /** The counting loop of `RecordExistingExposure`: the primary cells found and broken. */
    method CountExposed() returns (t: Tally)
      requires Valid()
      ensures t == TallyOf(Primaries(cells[..]), cells[..], bounds[..])
    {
      ghost var st := EStatuses(cells[..]);
      t := Tally(0, 0);
      var i := 0;
      while i < cells.Length
        invariant 0 <= i <= cells.Length
        invariant t == TallyOf(IndicesOf(st[..i], Primary), cells[..], bounds[..])
      {
        PrimaryTallySnoc(cells[..], bounds[..], i);
        if cells[i].status == Primary {
          var e := ExposureIn(i);
          t := Counted(t, e);
        }
        i := i + 1;
      }
      assert st[..i] == st;
    }

    /**
     * `RecordExistingExposure`: the initial bounds; when no equation is
     * empty, the simplification loop and at most six improvements, then the
     * primary cells found and broken become the reference counts (0 and 0
     * otherwise).
     */
    method RecordExistingExposure()
      requires Valid() && Fits(consolidated)
      modifies this`consolidated, this`initialFound, this`initialBroken, bounds, procLower, procUpper
      ensures Valid() && Fits(consolidated)
      ensures var r := Recorded(old(consolidated), old(bounds[..]), grandTotal);
              consolidated == r.0 && bounds[..] == r.1 &&
              Tally(initialFound, initialBroken) ==
                if r.2 then TallyOf(Primaries(cells[..]), cells[..], bounds[..]) else Tally(0, 0)
    {
      ghost var es := consolidated;
      var t := Tally(0, 0);
      var ok := SetInitial();
      if ok {
        t := AttackCapped();
      }
      SetReference(t);
    }

    /** The reference counts `getSafety` compares against. */
    method SetReference(t: Tally)
      requires Valid() && Fits(consolidated)
      modifies this`initialFound, this`initialBroken
      ensures Valid() && Fits(consolidated) && Tally(initialFound, initialBroken) == t
    {
      initialFound := t.found;
      initialBroken := t.broken;
    }

    /** The branch of `RecordExistingExposure` taken when no equation is empty. */
    method AttackCapped() returns (t: Tally)
      requires Valid() && Fits(consolidated)
      modifies this`consolidated, bounds, procLower, procUpper
      ensures Valid() && Fits(consolidated)
      ensures var s := SimplifyLoop(old(consolidated), old(bounds[..]));
              consolidated == s.0 && bounds[..] == ImproveCapped(s.0, s.1, grandTotal, 0)
      ensures t == TallyOf(Primaries(cells[..]), cells[..], bounds[..])
    {
      ghost var es := consolidated;
      SimplifyUntilStable();
      FitsShrunk(es, consolidated, biggest, procLower.Length);
      SetUpProcessing();
      ImproveAtMostSix();
      t := CountExposed();
    }

    /**
     * `SafeToRemoveSecondaryCell`: the attack on the current pattern, then
     * `getSafety`.
     */
    method SafeToRemove() returns (safe: bool)
      requires Valid() && Fits(consolidated)
      modifies this`consolidated, bounds, procLower, procUpper
      ensures Valid() && Fits(consolidated)
      ensures (consolidated, bounds[..]) == Attack(old(consolidated), old(bounds[..]), grandTotal)
      ensures safe == WithinInitial(TallyOf(primaries, cells[..], bounds[..]), initialFound, initialBroken)
    {
      ghost var es := consolidated;
      var _ := Simplify();
      var _ := SetInitial();
      SimplifyUntilStable();
      FitsShrunk(es, consolidated, biggest, procLower.Length);
      SetUpProcessing();
      ImproveToFixpoint();
      safe := GetSafety();
    }
  
    /**
     * One turn of the removal loop of `eliminate_secondary_suppression` for
     * a removable cell j: back up, publish j at its value, attack; keep
     * the result and back it up when safe, otherwise restore.
     */
    method TryRemove(j: int)
      requires Valid() && Fits(consolidated) && 0 <= j < cells.Length
      modifies this`consolidated, this`saved, this`removed, cells, bounds, savedBounds, procLower, procUpper
      ensures Valid() && Fits(consolidated)
      ensures Pattern(cells[..], consolidated, bounds[..], removed) ==
              Trial(Pattern(old(cells[..]), old(consolidated), old(bounds[..]), old(removed)), j,
                    Reference(primaries, grandTotal, initialFound, initialBroken))
      ensures saved == NonEmptyOf(consolidated) && savedBounds[..] == bounds[..]
    {
      ghost var p := Pattern(cells[..], consolidated, bounds[..], removed);
      ghost var rf := Reference(primaries, grandTotal, initialFound, initialBroken);
      var safe := AttackCell(j);
      ghost var a := (consolidated, bounds[..]);
      if safe {
        KeepRemoval(j, p, rf, a);
      } else {
        UndoRemoval(j, p, rf, a);
      }
    }

    /** The backups, cell j published and pinned at its value, and the attack on the result. */
    method AttackCell(j: int) returns (safe: bool)
      requires Valid() && Fits(consolidated) && 0 <= j < cells.Length
      modifies this`consolidated, this`saved, cells, bounds, savedBounds, procLower, procUpper
      ensures Valid() && Fits(consolidated) && Fits(saved) && saved == NonEmptyOf(old(consolidated))
      ensures savedBounds[..] == old(bounds[..])
      ensures cells[..] == old(cells[..])[j := old(cells[j]).(status := Safe)]
      ensures (consolidated, bounds[..]) ==
              AttackPublished(Pattern(old(cells[..]), old(consolidated), old(bounds[..]), old(removed)), j, grandTotal)
      ensures safe == WithinInitial(TallyOf(primaries, cells[..], bounds[..]), initialFound, initialBroken)
    {
      BackupEquations();
      NonEmptyOfFits(consolidated, biggest, procLower.Length);
      var _ := BackupCellBounds();
      Publish(j);
      safe := SafeToRemove();
    }

    /** The safe branch: one more cell removed, and the new state backed up. */
    method KeepRemoval(j: int, ghost p: Pattern, ghost rf: Reference, ghost a: (seq<IEquation>, seq<IBounds>))
      requires Valid() && Fits(consolidated) && PatternOk(p) && 0 <= j < |p.cells| == cells.Length
      requires rf == Reference(primaries, grandTotal, initialFound, initialBroken)
      requires cells[..] == p.cells[j := p.cells[j].(status := Safe)] && removed == p.removed
      requires (consolidated, bounds[..]) == a
      requires WithinInitial(TallyOf(primaries, cells[..], bounds[..]), initialFound, initialBroken)
      modifies this`removed, this`saved, savedBounds
      ensures Valid() && Fits(consolidated) && Pattern(cells[..], consolidated, bounds[..], removed) == Judged(p, j, rf, a)
      ensures saved == NonEmptyOf(consolidated) && savedBounds[..] == bounds[..]
    {
      removed := removed + 1;
      BackupEquations();
      var _ := BackupCellBounds();
    }

    /** The unsafe branch: cell j secondary again, equations and bounds from the backups. */
    method UndoRemoval(j: int, ghost p: Pattern, ghost rf: Reference, ghost a: (seq<IEquation>, seq<IBounds>))
      requires Valid() && Fits(saved) && PatternOk(p) && 0 <= j < |p.cells| == cells.Length
      requires rf == Reference(primaries, grandTotal, initialFound, initialBroken)
      requires cells[..] == p.cells[j := p.cells[j].(status := Safe)] && removed == p.removed
      requires saved == NonEmptyOf(p.es) && savedBounds[..] == p.bounds
      requires (consolidated, bounds[..]) == a
      requires !WithinInitial(TallyOf(primaries, cells[..], bounds[..]), initialFound, initialBroken)
      modifies this`consolidated, cells, bounds
      ensures Valid() && Fits(consolidated) && Pattern(cells[..], consolidated, bounds[..], removed) == Judged(p, j, rf, a)
      ensures saved == NonEmptyOf(consolidated) && savedBounds[..] == bounds[..]
    {
      NonEmptyOfIdempotent(p.es);
      cells[j] := cells[j].(status := Secondary);
      RestoreEquations();
      var _ := RestoreCellBounds();
      assert cells[..] == p.cells[j := p.cells[j].(status := Secondary)];
    }

    /** Cell j published and pinned at its value. */
    method Publish(j: int)
      requires Valid() && 0 <= j < cells.Length
      modifies cells, bounds
      ensures cells[..] == old(cells[..])[j := old(cells[j]).(status := Safe)]
      ensures bounds[..] == old(bounds[..])[j := IBounds(old(cells[j]).nominal, old(cells[j]).nominal)]
    {
      cells[j] := cells[j].(status := Safe);
      bounds[j] := IBounds(cells[j].nominal, cells[j].nominal);
    }

    /** The census loop of a consistency equation: primary, secondary and removable cells. */
    method CensusIn(terms: seq<Term>) returns (c: Census)
      requires U.TermsIn(terms, cells.Length) && removable.Length == cells.Length
      ensures c == CensusOf(terms, cells[..], removable[..])
    {
      c := Census(0, 0, 0);
      var j := 0;
      while j < |terms|
        invariant 0 <= j <= |terms| && c == CensusOf(terms[..j], cells[..], removable[..])
      {
        assert terms[..j + 1][..j] == terms[..j];
        var k := terms[j].cell;
        if cells[k].status == Primary {
          c := c.(primaries := c.primaries + 1);
        } else if cells[k].status == Secondary {
          c := c.(secondaries := c.secondaries + 1);
          if removable[k] {
            c := c.(removable := c.removable + 1);
          }
        }
        j := j + 1;
      }
      assert terms[..j] == terms;
    }

    /** Every secondary cell of the equation flagged as needed. */
    method UnmarkIn(terms: seq<Term>)
      requires U.TermsIn(terms, cells.Length) && removable.Length == cells.Length
      modifies removable
      ensures removable[..] == Unmark(terms, cells[..], old(removable[..]))
    {
      ghost var rem := removable[..];
      var j := 0;
      while j < |terms|
        invariant 0 <= j <= |terms| && removable[..] == Unmark(terms[..j], cells[..], rem)
      {
        assert terms[..j + 1][..j] == terms[..j];
        var k := terms[j].cell;
        if cells[k].status == Secondary {
          removable[k] := false;
        }
        j := j + 1;
      }
      assert terms[..j] == terms;
    }

    /** One consistency equation of a marking pass. */
    method MarkEquationIn(e: IEquation)
      requires U.TermsIn(e.terms, cells.Length) && removable.Length == cells.Length
      modifies removable
      ensures removable[..] == MarkEquation(e, cells[..], old(removable[..]))
    {
      if |e.terms| > 0 {
        var c := CensusIn(e.terms);
        if (c.primaries == 1 && c.secondaries == 1) || (c.primaries == 0 && c.secondaries == 2 && c.removable == 1) {
          UnmarkIn(e.terms);
        }
      }
    }

    /** One pass over the consistency equations. */
    method MarkPassIn()
      requires Valid() && AllIn(consistency, cells.Length)
      modifies removable
      ensures removable[..] == MarkPass(consistency, cells[..], old(removable[..]))
    {
      ghost var rem := removable[..];
      var i := 0;
      while i < |consistency|
        invariant 0 <= i <= |consistency|
        invariant removable[..] == MarkPass(consistency[..i], cells[..], rem)
      {
        assert consistency[..i + 1][..i] == consistency[..i];
        MarkEquationIn(consistency[i]);
        i := i + 1;
      }
      assert consistency[..i] == consistency;
    }

    /**
     * The first part of `eliminate_secondary_suppression`: every secondary
     * cell removable, then six passes flagging the secondary cells some
     * equation needs.
     */
    method MarkCandidates()
      requires Valid() && AllIn(consistency, cells.Length)
      modifies removable
      ensures removable[..] == Candidates(consistency, cells[..])
    {
      var i := 0;
      while i < cells.Length
        invariant 0 <= i <= cells.Length
        invariant forall c :: 0 <= c < i ==> removable[c] == (cells[c].status == Secondary)
      {
        removable[i] := cells[i].status == Secondary;
        i := i + 1;
      }
      assert removable[..] == InitialRemovable(cells[..]);
      var iterations := 0;
      while iterations < MarkingPasses
        invariant 0 <= iterations <= MarkingPasses
        invariant MarkPasses(consistency, cells[..], removable[..], MarkingPasses - iterations) ==
                  Candidates(consistency, cells[..])
      {
        MarkPassIn();
        iterations := iterations + 1;
      }
    }

    /**
     * `init_ordered_cells`: the cells in index order, then the exchange
     * sort into non-increasing weight.
     */
    method InitOrderedCells()
      requires Valid()
      modifies ordered
      ensures multiset(ordered[..]) == multiset(CS.Range(ordered.Length))
      ensures Distinct(ordered[..]) && forall k :: 0 <= k < ordered.Length ==> 0 <= ordered[k] < ordered.Length
      ensures HeaviestFirst(ordered[..], cells[..])
    {
      FillOrderedCells();
      SortOrderedCells();
    }

    /** The first loop of `init_ordered_cells`: the cell numbers in increasing order. */
    method FillOrderedCells()
      requires Valid()
      modifies ordered
      ensures ordered[..] == CS.Range(ordered.Length)
    {
      var n := ordered.Length;
      var i := 0;
      while i < n
        invariant 0 <= i <= n && ordered[..i] == CS.Range(i)
      {
        assert CS.Range(i + 1) == CS.Range(i) + [i];
        ordered[i] := i;
        i := i + 1;
      }
      assert ordered[..] == ordered[..n];
    }

    /** The exchange sort of `init_ordered_cells`: the cells heaviest first. */
    method SortOrderedCells()
      requires Valid() && ordered[..] == CS.Range(ordered.Length)
      modifies ordered
      ensures multiset(ordered[..]) == multiset(CS.Range(ordered.Length))
      ensures Distinct(ordered[..]) && forall k :: 0 <= k < ordered.Length ==> 0 <= ordered[k] < ordered.Length
      ensures HeaviestFirst(ordered[..], cells[..])
    {
      var n := ordered.Length;
      var i := 0;
      while i < n
        invariant 0 <= i <= n
        invariant multiset(ordered[..]) == multiset(CS.Range(n)) && Distinct(ordered[..])
        invariant forall k :: 0 <= k < n ==> 0 <= ordered[k] < n
        invariant Settled(ordered[..], cells[..], i)
      {
        var j := i + 1;
        while j < n
          invariant i < j <= n
          invariant multiset(ordered[..]) == multiset(CS.Range(n)) && Distinct(ordered[..])
          invariant forall k :: 0 <= k < n ==> 0 <= ordered[k] < n
          invariant Settled(ordered[..], cells[..], i)
          invariant forall q :: i < q < j ==> WeightOf(cells[..], ordered[i]) >= WeightOf(cells[..], ordered[q])
        {
          ExchangeKeeps(ordered[..], cells[..], i, j);
          ExchangeIn(i, j);
          j := j + 1;
        }
        SettledNext(ordered[..], cells[..], i);
        i := i + 1;
      }
      SettledHeaviestFirst(ordered[..], cells[..]);
    }

    /** One turn of the inner loop of `init_ordered_cells`. */
    method ExchangeIn(i: int, j: int)
      requires Valid() && 0 <= i < ordered.Length && 0 <= j < ordered.Length
      requires forall k :: 0 <= k < ordered.Length ==> 0 <= ordered[k] < ordered.Length
      modifies ordered
      ensures ordered[..] == Exchange(old(ordered[..]), cells[..], i, j)
      ensures multiset(ordered[..]) == multiset(old(ordered[..]))
      ensures forall k :: 0 <= k < ordered.Length ==> 0 <= ordered[k] < ordered.Length
    {
      var k := ordered[i];
      var l := ordered[j];
      if cells[k].weight < cells[l].weight {
        ordered[i] := l;
        ordered[j] := k;
        assert ordered[..] == Swap(old(ordered[..]), i, j);
        SwapKeeps(old(ordered[..]), i, j);
      }
    }
  
    /**
     * `eliminate_secondary_suppression`: the removable cells marked; the
     * equations consolidated if there are none; the backups, the initial
     * bounds; then every removable cell in the order of `OrderedCells`
     * tried in turn. A table without cells is a fatal error when the bounds
     * are backed up.
     */
    method EliminateSecondary() returns (r: Result<()>)
      requires Valid() && AllIn(consistency, cells.Length)
      requires Fits(consolidated) && Fits(Consolidation(consistency, cells[..]))
      requires forall k :: 0 <= k < ordered.Length ==> 0 <= ordered[k] < ordered.Length
      modifies removable, this`consolidated, this`saved, this`removed, cells, bounds, savedBounds, procLower, procUpper
      ensures Valid() && removable[..] == Candidates(consistency, old(cells[..]))
      ensures r == if cells.Length == 0 then Err(1) else Ok(())
      ensures r.Ok? ==>
                Pattern(cells[..], consolidated, bounds[..], removed) ==
                Eliminated(ordered[..], removable[..],
                           EliminationStart(consistency, old(consolidated), old(cells[..]), grandTotal),
                           Reference(primaries, grandTotal, initialFound, initialBroken))
    {
      MarkCandidates();
      r := PrepareRemoval();
      if r.Ok? {
        RemovalLoop(Pattern(cells[..], consolidated, bounds[..], removed),
                    Reference(primaries, grandTotal, initialFound, initialBroken));
      }
    }

    /**
     * The part of `eliminate_secondary_suppression` before its removal loop:
     * consolidation if needed, the backups and the initial bounds.
     */
    method PrepareRemoval() returns (r: Result<()>)
      requires Valid() && Fits(consolidated) && Fits(Consolidation(consistency, cells[..]))
      modifies this`consolidated, this`saved, this`removed, bounds, savedBounds
      ensures Valid() && Fits(consolidated) && saved == NonEmptyOf(consolidated)
      ensures r == if cells.Length == 0 then Err(1) else Ok(())
      ensures r.Ok? ==> savedBounds[..] == bounds[..]
      ensures r.Ok? ==> Pattern(cells[..], consolidated, bounds[..], removed) ==
                        EliminationStart(consistency, old(consolidated), cells[..], grandTotal)
    {
      if |consolidated| == 0 {
        Consolidate();
      }
      BackupEquations();
      removed := 0;
      InitCellBounds();
      var _ := SetInitial();
      r := BackupCellBounds();
    }

    /** The removal loop of `eliminate_secondary_suppression`, in the order of `OrderedCells`. */
    method RemovalLoop(ghost p: Pattern, ghost rf: Reference)
      requires Valid() && Fits(consolidated) && saved == NonEmptyOf(consolidated) && savedBounds[..] == bounds[..]
      requires p == Pattern(cells[..], consolidated, bounds[..], removed)
      requires rf == Reference(primaries, grandTotal, initialFound, initialBroken)
      requires forall k :: 0 <= k < ordered.Length ==> 0 <= ordered[k] < ordered.Length
      modifies this`consolidated, this`saved, this`removed, cells, bounds, savedBounds, procLower, procUpper
      ensures Valid() && Pattern(cells[..], consolidated, bounds[..], removed) == Eliminated(ordered[..], removable[..], p, rf)
    {
      var i := 0;
      while i < cells.Length
        invariant 0 <= i <= cells.Length && Valid() && Fits(consolidated)
        invariant saved == NonEmptyOf(consolidated) && savedBounds[..] == bounds[..]
        invariant Pattern(cells[..], consolidated, bounds[..], removed) == Eliminated(ordered[..i], removable[..], p, rf)
      {
        RemoveNext(i, p, rf);
        i := i + 1;
      }
      assert ordered[..i] == ordered[..];
    }

    /** One turn of the removal loop: the i-th cell in weight order is tried if it is removable. */
    method RemoveNext(i: int, ghost p: Pattern, ghost rf: Reference)
      requires Valid() && Fits(consolidated) && saved == NonEmptyOf(consolidated) && savedBounds[..] == bounds[..]
      requires 0 <= i < cells.Length && PatternOk(p) && |p.cells| == cells.Length
      requires rf == Reference(primaries, grandTotal, initialFound, initialBroken)
      requires forall k :: 0 <= k < ordered.Length ==> 0 <= ordered[k] < ordered.Length
      requires Pattern(cells[..], consolidated, bounds[..], removed) == Eliminated(ordered[..i], removable[..], p, rf)
      modifies this`consolidated, this`saved, this`removed, cells, bounds, savedBounds, procLower, procUpper
      ensures Valid() && Fits(consolidated) && saved == NonEmptyOf(consolidated) && savedBounds[..] == bounds[..]
      ensures Pattern(cells[..], consolidated, bounds[..], removed) == Eliminated(ordered[..i + 1], removable[..], p, rf)
    {
      assert ordered[..i + 1][..i] == ordered[..i];
      var j := ordered[i];
      if removable[j] {
        TryRemove(j);
      }
    }

    /** `getCost`: the unscaled weights of the primary and secondary cells. */
    method GetCost() returns (cost: real)
      requires Valid()
      ensures cost == CostOf(table, cells[..])
    {
      cost := 0.0;
      var i := 0;
      while i < cells.Length
        invariant 0 <= i <= cells.Length && cost == CostOf(table[..i], cells[..i])
      {
        assert table[..i + 1][..i] == table[..i] && cells[..i + 1][..i] == cells[..i];
        if cells[i].status == Primary || cells[i].status == Secondary {
          cost := cost + table[i].weight;
        }
        i := i + 1;
      }
      assert table[..i] == table && cells[..i] == cells[..];
    }

    /**
     * `RemoveExcessSuppression`: bounds, consolidation and the processing
     * arrays (a fatal error when there is nothing to allocate), the
     * existing exposure, the weight order, the removal loop and a final
     * consolidation.
     */
    method RemoveExcessSuppression() returns (r: Result<()>)
      requires Valid() && AllIn(consistency, cells.Length)
      modifies this`consolidated, this`saved, this`removed, this`procLower, this`procUpper, this`biggest
      modifies this`initialFound, this`initialBroken, cells, removable, bounds, savedBounds, ordered
      ensures Valid()
      ensures r == Err(1) <==> Consolidation(consistency, old(cells[..])) == []
      ensures r.Ok? ==> removable[..] == Candidates(consistency, old(cells[..]))
      ensures r.Ok? ==> forall c :: 0 <= c < cells.Length ==>
                cells[c] == old(cells[c]) ||
                (removable[c] && old(cells[c]).status == Secondary && cells[c] == old(cells[c]).(status := Safe))
      ensures r.Ok? ==> Count(EStatuses(cells[..]), Safe) == Count(EStatuses(old(cells[..])), Safe) + removed
      ensures r.Ok? && removed > 0 ==>
                WithinInitial(TallyOf(primaries, cells[..], bounds[..]), initialFound, initialBroken)
      ensures r.Ok? ==> HeaviestFirst(ordered[..], old(cells[..])) && consolidated == Consolidation(consistency, cells[..])
    {
      removed := 0;
      r := PrepareTables();
      if r.Err? {
        return;
      }
      RecordAndEliminate();
      Consolidate();
    }

    /** The middle of `RemoveExcessSuppression`: the existing exposure, the weight order, the removal loop. */
    method RecordAndEliminate()
      requires Valid() && AllIn(consistency, cells.Length) && cells.Length > 0
      requires consolidated == Consolidation(consistency, cells[..]) && Fits(consolidated)
      modifies this`consolidated, this`saved, this`removed, this`initialFound, this`initialBroken
      modifies cells, removable, bounds, savedBounds, ordered, procLower, procUpper
      ensures Valid() && removable[..] == Candidates(consistency, old(cells[..]))
      ensures forall c :: 0 <= c < cells.Length ==>
                cells[c] == old(cells[c]) ||
                (removable[c] && old(cells[c]).status == Secondary && cells[c] == old(cells[c]).(status := Safe))
      ensures Count(EStatuses(cells[..]), Safe) == Count(EStatuses(old(cells[..])), Safe) + removed
      ensures removed > 0 ==> WithinInitial(TallyOf(primaries, cells[..], bounds[..]), initialFound, initialBroken)
      ensures HeaviestFirst(ordered[..], old(cells[..]))
    {
      RecordExistingExposure();
      InitOrderedCells();
      var _ := EliminateChecked();
    }

    /** The start of `RemoveExcessSuppression`: bounds, consolidation, the processing arrays. */
    method PrepareTables() returns (r: Result<()>)
      requires Valid()
      modifies this`consolidated, this`procLower, this`procUpper, this`biggest, bounds
      ensures Valid()
      ensures r == Err(1) <==> Consolidation(consistency, cells[..]) == []
      ensures r.Ok? ==> cells.Length > 0 && consolidated == Consolidation(consistency, cells[..]) && Fits(consolidated)
      ensures r.Ok? ==> fresh(procLower) && fresh(procUpper)
    {
      InitCellBounds();
      Consolidate();
      var a := AllocateProcessing();
      if a != Ok(true) {
        return Err(1);
      }
      r := Ok(());
    }

    /**
     * `eliminate_secondary_suppression` with what its loop establishes: only
     * secondary cells flagged as candidates are published,
     * `number_of_secondary_cells_removed` counts them, and once one is
     * removed the last attack finds and breaks no more primary cells than
     * the original pattern.
     */
    method EliminateChecked() returns (r: Result<()>)
      requires Valid() && AllIn(consistency, cells.Length) && cells.Length > 0
      requires Fits(consolidated) && Fits(Consolidation(consistency, cells[..]))
      requires forall k :: 0 <= k < ordered.Length ==> 0 <= ordered[k] < ordered.Length
      requires Distinct(ordered[..])
      modifies removable, this`consolidated, this`saved, this`removed, cells, bounds, savedBounds, procLower, procUpper
      ensures Valid() && r == Ok(()) && removable[..] == Candidates(consistency, old(cells[..]))
      ensures forall c :: 0 <= c < cells.Length ==>
                cells[c] == old(cells[c]) ||
                (removable[c] && old(cells[c]).status == Secondary && cells[c] == old(cells[c]).(status := Safe))
      ensures Count(EStatuses(cells[..]), Safe) == Count(EStatuses(old(cells[..])), Safe) + removed
      ensures removed > 0 ==> WithinInitial(TallyOf(primaries, cells[..], bounds[..]), initialFound, initialBroken)
    {
      ghost var p := EliminationStart(consistency, consolidated, cells[..], grandTotal);
      ghost var rf := Reference(primaries, grandTotal, initialFound, initialBroken);
      r := EliminateSecondary();
      EliminationOutcome(ordered[..], removable[..], p, rf);
    }
  }
}
