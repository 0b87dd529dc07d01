/**
 * The elimination of excess secondary suppression (`Eliminate.cpp`): the
 * table is scaled to integers, and the secondary cells are tried one at a
 * time, largest weight first; a cell is published when an intruder who
 * propagates bounds through the consistency equations learns no more about
 * the primary cells than before. All arithmetic is on integers (the
 * source's `int_fast64_t`).
 */
module Eliminations {
  import opened Common
  import opened JJData
  import U = Unpickers
  import CS = CellStores

  /** INT64_PRECISION, `(int_fast64_t)(1 / FLOAT_PRECISION)`: the scale factor from doubles to integers. */
  const Int64Precision: int := 10000
  /** UNPICKING_PRECISION: a bound must move by more than this for `improve` to report progress. */
  const UnpickingPrecision: int := 10
  /** The `safety_margin` of the exposure tests. */
  const SafetyMargin: int := 1

  // ---------------------------------------------------------------------------
  // Scaling to integers
  // ---------------------------------------------------------------------------

  /** The C conversion from double to integer: truncation toward zero. */
  function Truncate(v: real): (r: int)
    ensures v >= 0.0 ==> 0 <= r && r as real <= v < r as real + 1.0
    ensures v < 0.0 ==> r <= 0 && r as real - 1.0 < v <= r as real
  {
    if v >= 0.0 then v.Floor else -((-v).Floor)
  }

  /** A double of the JJ table as an integer: multiplied by INT64_PRECISION and truncated. */
  function Scaled(v: real): int
  {
    Truncate(v * Int64Precision as real)
  }

  /** `Eliminate::Cell`: the fields elimination uses, scaled. */
  datatype ECell = ECell(nominal: int, weight: int, status: char, lowerProtection: int, upperProtection: int)

  function ScaledCell(c: Cell): ECell
  {
    ECell(Scaled(c.nominal), Scaled(c.weight), c.status, Scaled(c.lowerProtection), Scaled(c.upperProtection))
  }

  function ScaledCells(cells: seq<Cell>): (r: seq<ECell>)
    ensures |r| == |cells| && forall i :: 0 <= i < |cells| ==> r[i] == ScaledCell(cells[i])
  {
    seq(|cells|, i requires 0 <= i < |cells| => ScaledCell(cells[i]))
  }

  /** A consistency or consolidated equation with its right-hand side scaled. */
  datatype IEquation = IEquation(rhs: int, terms: seq<Term>)

  function ScaledEquations(es: seq<Equation>): (r: seq<IEquation>)
    ensures |r| == |es| && forall i :: 0 <= i < |es| ==> r[i] == IEquation(Scaled(es[i].rhs), es[i].terms)
  {
    seq(|es|, i requires 0 <= i < |es| => IEquation(Scaled(es[i].rhs), es[i].terms))
  }

  /** `struct CellBounds` over integers. */
  datatype IBounds = IBounds(lower: int, upper: int)

  /** The status letters of the scaled cells. */
  function EStatuses(cells: seq<ECell>): (r: seq<char>)
    ensures |r| == |cells| && forall i :: 0 <= i < |cells| ==> r[i] == cells[i].status
  {
    seq(|cells|, i requires 0 <= i < |cells| => cells[i].status)
  }

  /**
   * `grand_total`: the largest scaled nominal value, or 0 when none is
   * positive; it is the upper bound of every suppressed cell.
   */
  function GrandTotal(cells: seq<ECell>): (g: int)
    ensures g >= 0 && forall c :: 0 <= c < |cells| ==> cells[c].nominal <= g
    ensures g == 0 || exists c :: 0 <= c < |cells| && cells[c].nominal == g
  {
    if cells == [] then 0
    else
      var n := |cells| - 1;
      var g := GrandTotal(cells[..n]);
      assert forall c :: 0 <= c < n ==> cells[..n][c] == cells[c];
      if cells[n].nominal > g then cells[n].nominal else g
  }

  /** `primaryCells`: the indices of the primary cells, in increasing order. */
  function Primaries(cells: seq<ECell>): (r: seq<int>)
    ensures forall k :: 0 <= k < |r| ==> 0 <= r[k] < |cells| && cells[r[k]].status == Primary
    ensures forall c :: 0 <= c < |cells| && cells[c].status == Primary ==> c in r
    ensures forall k, l :: 0 <= k < l < |r| ==> r[k] < r[l]
  {
    var r := IndicesOf(EStatuses(cells), Primary);
    IndicesOfComplete(EStatuses(cells), Primary);
    r
  }

  lemma {:induction false} IndicesOfComplete<T>(s: seq<T>, c: T)
    ensures forall i :: 0 <= i < |s| && s[i] == c ==> i in IndicesOf(s, c)
  {
    if s != [] {
      var n := |s| - 1;
      IndicesOfComplete(s[..n], c);
      forall i | 0 <= i < |s| && s[i] == c
        ensures i in IndicesOf(s, c)
      {
        if i < n {
          assert s[..n][i] == s[i];
        }
      }
    }
  }

  // ---------------------------------------------------------------------------
  // Values, equations and bounds
  // ---------------------------------------------------------------------------

  /** `plus_or_minus * value`, written out for the signs +1 and -1. */
  function Times(sign: int, v: int): int
  {
    if sign == 1 then v else if sign == -1 then -v else sign * v
  }

  /** The signed sum of the terms under the cell values `x`. */
  function SignedSum(terms: seq<Term>, x: seq<int>): int
    requires U.TermsIn(terms, |x|)
  {
    if terms == [] then 0
    else SignedSum(terms[..|terms| - 1], x) + Times(terms[|terms| - 1].sign, x[terms[|terms| - 1].cell])
  }

  /** The cell values satisfy the equation; an equation left with no terms constrains nothing. */
  predicate Satisfies(e: IEquation, x: seq<int>)
    requires U.TermsIn(e.terms, |x|)
  {
    e.terms == [] || SignedSum(e.terms, x) == e.rhs
  }

  /** Every equation names cells of the table with signs of +1 or -1. */
  predicate WellSigned(es: seq<IEquation>, n: int)
  {
    forall i :: 0 <= i < |es| ==> U.TermsIn(es[i].terms, n) && U.Signed(es[i].terms)
  }

  /** Every equation names cells of the table. */
  predicate AllIn(es: seq<IEquation>, n: int)
  {
    forall i :: 0 <= i < |es| ==> U.TermsIn(es[i].terms, n)
  }

  /** The values satisfy every equation. */
  predicate SatisfiesAll(es: seq<IEquation>, x: seq<int>)
    requires AllIn(es, |x|)
  {
    forall i :: 0 <= i < |es| ==> Satisfies(es[i], x)
  }

  /**
   * `x` could be the scaled table: every value lies in [0, grand_total] and
   * every published cell has its published value.
   */
  predicate Feasible(x: seq<int>, cells: seq<ECell>, g: int)
  {
    |x| == |cells| &&
    forall c :: 0 <= c < |x| ==> 0 <= x[c] <= g && (!IsSuppressed(cells[c].status) ==> x[c] == cells[c].nominal)
  }

  /**
   * The bounds hold the values and stay within [0, grand_total]: the state
   * in which no bound `improve` computes can ever need correcting.
   */
  predicate Holds(x: seq<int>, bounds: seq<IBounds>, g: int)
  {
    |x| == |bounds| &&
    forall c :: 0 <= c < |x| ==> 0 <= bounds[c].lower <= x[c] <= bounds[c].upper <= g
  }

  lemma {:induction false} SignedSumAppend(a: seq<Term>, b: seq<Term>, x: seq<int>)
    requires U.TermsIn(a, |x|) && U.TermsIn(b, |x|)
    ensures U.TermsIn(a + b, |x|)
    ensures SignedSum(a + b, x) == SignedSum(a, x) + SignedSum(b, x)
  {
    if b != [] {
      var n := |b| - 1;
      assert (a + b)[..|a + b| - 1] == a + b[..n];
      assert (a + b)[|a + b| - 1] == b[n];
      assert U.TermsIn(b[..n], |x|);
      SignedSumAppend(a, b[..n], x);
    } else {
      assert a + b == a;
    }
  }

  // ---------------------------------------------------------------------------
  // Initial bounds
  // ---------------------------------------------------------------------------

  /** `init_cell_bounds` for one cell: suppressed cells in [0, grand_total], the others pinned. */
  function InitialBound(c: ECell, g: int): IBounds
  {
    if IsSuppressed(c.status) then IBounds(0, g) else IBounds(c.nominal, c.nominal)
  }

  function InitialBounds(cells: seq<ECell>, g: int): (r: seq<IBounds>)
    ensures |r| == |cells| && forall c :: 0 <= c < |cells| ==> r[c] == InitialBound(cells[c], g)
  {
    seq(|cells|, i requires 0 <= i < |cells| => InitialBound(cells[i], g))
  }

  /**
   * The initial bounds hold every table the published figures allow, and
   * pin each published cell at its value.
   */
  lemma InitialBoundsSound(cells: seq<ECell>, x: seq<int>)
    requires Feasible(x, cells, GrandTotal(cells))
    ensures Holds(x, InitialBounds(cells, GrandTotal(cells)), GrandTotal(cells))
    ensures forall c :: 0 <= c < |cells| && !IsSuppressed(cells[c].status) ==>
              InitialBounds(cells, GrandTotal(cells))[c] == IBounds(x[c], x[c])
  {
  }

  // ---------------------------------------------------------------------------
  // Consolidation and tidying
  // ---------------------------------------------------------------------------

  /** A term whose cell is in the table and suppressed. */
  predicate KeptTerm(t: Term, cells: seq<ECell>)
  {
    0 <= t.cell < |cells| && IsSuppressed(cells[t.cell].status)
  }

  /** The suppressed terms, in their original order. */
  function SuppressedTerms(terms: seq<Term>, cells: seq<ECell>): (r: seq<Term>)
    ensures |r| <= |terms|
    ensures forall k :: 0 <= k < |r| ==> KeptTerm(r[k], cells)
  {
    if terms == [] then []
    else
      var t := terms[|terms| - 1];
      var front := SuppressedTerms(terms[..|terms| - 1], cells);
      assert forall k :: 0 <= k < |terms| - 1 ==> terms[k] == terms[..|terms| - 1][k];
      if KeptTerm(t, cells) then front + [t] else front
  }

  /** The suppressed terms are exactly the equation's terms over in-range suppressed cells. */
  lemma {:induction false} SuppressedTermsMembers(terms: seq<Term>, cells: seq<ECell>)
    ensures forall k :: 0 <= k < |SuppressedTerms(terms, cells)| ==> SuppressedTerms(terms, cells)[k] in terms
    ensures forall k :: 0 <= k < |terms| && KeptTerm(terms[k], cells) ==> terms[k] in SuppressedTerms(terms, cells)
  {
    if terms != [] {
      var n := |terms| - 1;
      var front := terms[..n];
      SuppressedTermsMembers(front, cells);
      assert forall k :: 0 <= k < n ==> terms[k] == front[k];
    }
  }

  /** The signed sum of the published values of the published terms in the table. */
  function PublishedSum(terms: seq<Term>, cells: seq<ECell>): int
  {
    if terms == [] then 0
    else
      var t := terms[|terms| - 1];
      PublishedSum(terms[..|terms| - 1], cells) +
        if 0 <= t.cell < |cells| && !IsSuppressed(cells[t.cell].status)
        then Times(t.sign, cells[t.cell].nominal) else 0
  }

  /** The equation over the suppressed cells only, the published part moved to the right-hand side. */
  function Reduced(e: IEquation, cells: seq<ECell>): IEquation
  {
    IEquation(e.rhs - PublishedSum(e.terms, cells), SuppressedTerms(e.terms, cells))
  }

  predicate HasSuppressed(e: IEquation, cells: seq<ECell>)
  {
    SuppressedTerms(e.terms, cells) != []
  }

  /** The first pass of `consolidate_the_consistency_equations`: how many equations it keeps. */
  function NumberWithSuppressed(es: seq<IEquation>, cells: seq<ECell>): (n: nat)
    ensures n <= |es|
  {
    if es == [] then 0
    else NumberWithSuppressed(es[..|es| - 1], cells) + if HasSuppressed(es[|es| - 1], cells) then 1 else 0
  }

  lemma {:induction false} NumberWithSuppressedMonotone(es: seq<IEquation>, cells: seq<ECell>, i: nat)
    requires i <= |es|
    ensures NumberWithSuppressed(es[..i], cells) <= NumberWithSuppressed(es, cells)
  {
    if i < |es| {
      var n := |es| - 1;
      assert es[..n][..i] == es[..i];
      NumberWithSuppressedMonotone(es[..n], cells, i);
    } else {
      assert es[..i] == es;
    }
  }

  /** The second pass: the reduced equations that have a suppressed cell, in order. */
  function Reductions(es: seq<IEquation>, cells: seq<ECell>): (r: seq<IEquation>)
    ensures |r| == NumberWithSuppressed(es, cells)
    ensures forall i :: 0 <= i < |r| ==> r[i].terms != [] && U.TermsIn(r[i].terms, |cells|)
  {
    if es == [] then []
    else
      var e := es[|es| - 1];
      var front := Reductions(es[..|es| - 1], cells);
      if HasSuppressed(e, cells) then front + [Reduced(e, cells)] else front
  }

  lemma ReductionsSnoc(es: seq<IEquation>, cells: seq<ECell>, i: nat)
    requires i < |es|
    ensures NumberWithSuppressed(es[..i + 1], cells) ==
            NumberWithSuppressed(es[..i], cells) + if HasSuppressed(es[i], cells) then 1 else 0
    ensures Reductions(es[..i + 1], cells) ==
            Reductions(es[..i], cells) + if HasSuppressed(es[i], cells) then [Reduced(es[i], cells)] else []
  {
    assert es[..i + 1][..i] == es[..i];
  }

  /** An equation with a negative right-hand side is multiplied by -1. */
  function Tidy(e: IEquation): (r: IEquation)
    ensures r.rhs >= 0 && |r.terms| == |e.terms|
    ensures forall k :: 0 <= k < |r.terms| ==>
              r.terms[k] == Term(e.terms[k].cell, if e.rhs < 0 then -e.terms[k].sign else e.terms[k].sign)
  {
    if e.rhs < 0 then IEquation(-e.rhs, U.Negated(e.terms)) else e
  }

  function TidyAll(es: seq<IEquation>): (r: seq<IEquation>)
    ensures |r| == |es| && forall i :: 0 <= i < |r| ==> r[i] == Tidy(es[i])
  {
    seq(|es|, i requires 0 <= i < |es| => Tidy(es[i]))
  }

  /** Every right-hand side is at least 0. */
  predicate Tidied(es: seq<IEquation>)
  {
    forall i :: 0 <= i < |es| ==> es[i].rhs >= 0
  }

  /** What `set_initial_lower_and_upper_bounds` returns: false when an equation has no terms left. */
  predicate NoEmpty(es: seq<IEquation>)
  {
    forall i :: 0 <= i < |es| ==> es[i].terms != []
  }

  /** What consolidation leaves. */
  function Consolidation(es: seq<IEquation>, cells: seq<ECell>): (r: seq<IEquation>)
    ensures Tidied(r) && NoEmpty(r) && AllIn(r, |cells|)
  {
    TidyAll(Reductions(es, cells))
  }

  lemma {:induction false} NegatedSum(terms: seq<Term>, x: seq<int>)
    requires U.TermsIn(terms, |x|)
    ensures U.TermsIn(U.Negated(terms), |x|)
    ensures SignedSum(U.Negated(terms), x) == -SignedSum(terms, x)
  {
    if terms != [] {
      NegatedSum(terms[..|terms| - 1], x);
      assert U.Negated(terms)[..|terms| - 1] == U.Negated(terms[..|terms| - 1]);
    }
  }

  /** Tidying keeps the terms' cells and signs (up to one common flip) and the equation's solutions. */
  lemma TidySound(e: IEquation, x: seq<int>)
    requires U.TermsIn(e.terms, |x|)
    ensures U.TermsIn(Tidy(e).terms, |x|)
    ensures U.Signed(e.terms) ==> U.Signed(Tidy(e).terms)
    ensures Satisfies(Tidy(e), x) <==> Satisfies(e, x)
  {
    NegatedSum(e.terms, x);
  }

  lemma TidyAllSound(es: seq<IEquation>, x: seq<int>)
    requires WellSigned(es, |x|) && SatisfiesAll(es, x)
    ensures WellSigned(TidyAll(es), |x|) && Tidied(TidyAll(es)) && SatisfiesAll(TidyAll(es), x)
  {
    forall i | 0 <= i < |es|
      ensures U.TermsIn(TidyAll(es)[i].terms, |x|) && U.Signed(TidyAll(es)[i].terms) && Satisfies(TidyAll(es)[i], x)
    {
      TidySound(es[i], x);
    }
  }

  lemma {:induction false} SumSplits(terms: seq<Term>, cells: seq<ECell>, g: int, x: seq<int>)
    requires Feasible(x, cells, g) && U.TermsIn(terms, |x|)
    ensures U.TermsIn(SuppressedTerms(terms, cells), |x|)
    ensures SignedSum(terms, x) == SignedSum(SuppressedTerms(terms, cells), x) + PublishedSum(terms, cells)
  {
    if terms != [] {
      var n := |terms| - 1;
      SumSplits(terms[..n], cells, g, x);
      var t := terms[n];
      if KeptTerm(t, cells) {
        var front := SuppressedTerms(terms[..n], cells);
        assert (front + [t])[..|front|] == front;
      }
    }
  }

  lemma {:induction false} SuppressedSigned(terms: seq<Term>, cells: seq<ECell>)
    requires U.Signed(terms)
    ensures U.Signed(SuppressedTerms(terms, cells))
  {
    if terms != [] {
      SuppressedSigned(terms[..|terms| - 1], cells);
    }
  }

  lemma {:induction false} ReductionsSound(es: seq<IEquation>, cells: seq<ECell>, g: int, x: seq<int>)
    requires Feasible(x, cells, g) && WellSigned(es, |cells|) && SatisfiesAll(es, x)
    ensures WellSigned(Reductions(es, cells), |cells|) && SatisfiesAll(Reductions(es, cells), x)
  {
    if es != [] {
      var n := |es| - 1;
      var front := es[..n];
      assert forall i :: 0 <= i < n ==> front[i] == es[i];
      ReductionsSound(front, cells, g, x);
      var e := es[n];
      if HasSuppressed(e, cells) {
        SumSplits(e.terms, cells, g, x);
        SuppressedSigned(e.terms, cells);
        var r := Reductions(front, cells);
        var d := Reduced(e, cells);
        assert U.TermsIn(d.terms, |x|) && U.Signed(d.terms) && Satisfies(d, x);
        var all := r + [d];
        assert Reductions(es, cells) == all;
        forall i | 0 <= i < |all|
          ensures U.TermsIn(all[i].terms, |x|) && U.Signed(all[i].terms) && Satisfies(all[i], x)
        {
          if i < |r| {
            assert all[i] == r[i];
          }
        }
      } else {
        assert Reductions(es, cells) == Reductions(front, cells);
      }
    }
  }

  /**
   * Consolidation is sound: the equations it keeps are over suppressed
   * cells with signs +1 or -1 and right-hand sides of at least 0, and every
   * table the published figures allow that satisfies the consistency
   * equations satisfies them.
   */
  lemma ConsolidationSound(es: seq<IEquation>, cells: seq<ECell>, g: int, x: seq<int>)
    requires Feasible(x, cells, g) && WellSigned(es, |cells|) && SatisfiesAll(es, x)
    ensures |Consolidation(es, cells)| == NumberWithSuppressed(es, cells)
    ensures WellSigned(Consolidation(es, cells), |cells|) && SatisfiesAll(Consolidation(es, cells), x)
    ensures forall i, k :: 0 <= i < |Consolidation(es, cells)| && 0 <= k < |Consolidation(es, cells)[i].terms| ==>
              IsSuppressed(cells[Consolidation(es, cells)[i].terms[k].cell].status)
  {
    ReductionsSound(es, cells, g, x);
    TidyAllSound(Reductions(es, cells), x);
  }

  // ---------------------------------------------------------------------------
  // Simplification
  // ---------------------------------------------------------------------------

  /** A cell whose bounds coincide: its value is known exactly. */
  predicate Known(b: IBounds)
  {
    b.lower == b.upper
  }

  /**
   * The `for j` loop over an equation of two or more terms, from position
   * `j`: a known cell is removed (the right-hand side taking its value with
   * the term's sign) and the later terms shift down one place; `j` then
   * moves on, so the term that shifted into place `j` waits for the next
   * pass. Also gives the number of terms removed.
   */
  function SimplifyFrom(e: IEquation, j: nat, bounds: seq<IBounds>): (r: (IEquation, nat))
    requires U.TermsIn(e.terms, |bounds|)
    ensures |r.0.terms| + r.1 == |e.terms| && U.TermsIn(r.0.terms, |bounds|)
    ensures forall k :: 0 <= k < |r.0.terms| ==> r.0.terms[k] in e.terms
    decreases |e.terms| - j
  {
    if j >= |e.terms| then (e, 0)
    else if Known(bounds[e.terms[j].cell]) then
      var d := DropKnown(e, j, bounds);
      var r := SimplifyFrom(d, j + 1, bounds);
      (r.0, r.1 + 1)
    else SimplifyFrom(e, j + 1, bounds)
  }

  /** The equation without its term at `j`, the right-hand side taking that cell's upper bound with the term's sign. */
  function DropKnown(e: IEquation, j: nat, bounds: seq<IBounds>): (d: IEquation)
    requires U.TermsIn(e.terms, |bounds|) && j < |e.terms|
    ensures |d.terms| + 1 == |e.terms| && U.TermsIn(d.terms, |bounds|)
    ensures forall k :: 0 <= k < |d.terms| ==> d.terms[k] in e.terms
  {
    var t := e.terms[j];
    var rhs := if t.sign == 1 then e.rhs - bounds[t.cell].upper else e.rhs + bounds[t.cell].upper;
    var rest := e.terms[..j] + e.terms[j + 1..];
    assert forall k :: 0 <= k < |rest| ==> rest[k] in e.terms;
    IEquation(rhs, rest)
  }

  /**
   * One equation's case of the `switch` in `simplify_the_consistency_equations`:
   * a single known term leaves the equation with size 0 (its right-hand
   * side untouched).
   */
  function SimplifyEquation(e: IEquation, bounds: seq<IBounds>): (r: (IEquation, nat))
    requires U.TermsIn(e.terms, |bounds|)
    ensures |r.0.terms| + r.1 == |e.terms| && U.TermsIn(r.0.terms, |bounds|)
    ensures forall k :: 0 <= k < |r.0.terms| ==> r.0.terms[k] in e.terms
  {
    if |e.terms| == 0 then (e, 0)
    else if |e.terms| == 1 then
      if Known(bounds[e.terms[0].cell]) then (IEquation(e.rhs, []), 1) else (e, 0)
    else SimplifyFrom(e, 0, bounds)
  }

  /** The number of terms over all equations. */
  function TotalTerms(es: seq<IEquation>): nat
  {
    if es == [] then 0 else TotalTerms(es[..|es| - 1]) + |es[|es| - 1].terms|
  }

  /** Equation by equation, `b` has no more terms than `a`. */
  predicate Shrunk(a: seq<IEquation>, b: seq<IEquation>)
  {
    |b| == |a| && forall i :: 0 <= i < |a| ==> |b[i].terms| <= |a[i].terms|
  }

  /** The equations after the pass over them (before tidying), and the number of terms removed. */
  function SimplifyEach(es: seq<IEquation>, bounds: seq<IBounds>): (r: (seq<IEquation>, nat))
    requires AllIn(es, |bounds|)
    ensures |r.0| == |es| && TotalTerms(r.0) + r.1 == TotalTerms(es)
    ensures forall i :: 0 <= i < |es| ==> r.0[i] == SimplifyEquation(es[i], bounds).0
  {
    if es == [] then ([], 0)
    else
      var n := |es| - 1;
      var front := SimplifyEach(es[..n], bounds);
      var last := SimplifyEquation(es[n], bounds);
      var r := (front.0 + [last.0], front.1 + last.1);
      assert r.0[..n] == front.0;
      r
  }

  /** One more equation through `SimplifyEach`. */
  lemma {:induction false} SimplifyEachSnoc(es: seq<IEquation>, i: nat, bounds: seq<IBounds>)
    requires AllIn(es, |bounds|) && i < |es|
    ensures SimplifyEach(es[..i + 1], bounds).0 == SimplifyEach(es[..i], bounds).0 + [SimplifyEquation(es[i], bounds).0]
    ensures SimplifyEach(es[..i + 1], bounds).1 == SimplifyEach(es[..i], bounds).1 + SimplifyEquation(es[i], bounds).1
  {
    assert es[..i + 1][..i] == es[..i];
  }

  /**
   * What `simplify_the_consistency_equations` leaves, and what it returns:
   * the number of terms removed, each equation keeping only terms it had.
   */
  function Simplified(es: seq<IEquation>, bounds: seq<IBounds>): (r: (seq<IEquation>, nat))
    requires AllIn(es, |bounds|)
    ensures Tidied(r.0) && AllIn(r.0, |bounds|) && Shrunk(es, r.0)
    ensures TotalTerms(r.0) + r.1 == TotalTerms(es)
  {
    var s := SimplifyEach(es, bounds);
    TotalTermsTidy(s.0);
    (TidyAll(s.0), s.1)
  }

  lemma {:induction false} TotalTermsTidy(es: seq<IEquation>)
    ensures TotalTerms(TidyAll(es)) == TotalTerms(es)
  {
    if es != [] {
      var n := |es| - 1;
      assert TidyAll(es)[..n] == TidyAll(es[..n]);
      TotalTermsTidy(es[..n]);
    }
  }

  lemma RemovedTermSigned(terms: seq<Term>, j: nat)
    requires U.Signed(terms) && j < |terms|
    ensures U.Signed(terms[..j] + terms[j + 1..])
  {
    var rest := terms[..j] + terms[j + 1..];
    forall k | 0 <= k < |rest|
      ensures rest[k].sign == 1 || rest[k].sign == -1
    {
      if k < j {
        assert rest[k] == terms[k];
      } else {
        assert rest[k] == terms[k + 1];
      }
    }
  }

  lemma RemoveTermSum(terms: seq<Term>, j: nat, x: seq<int>)
    requires U.TermsIn(terms, |x|) && j < |terms|
    ensures U.TermsIn(terms[..j] + terms[j + 1..], |x|)
    ensures SignedSum(terms[..j] + terms[j + 1..], x) == SignedSum(terms, x) - Times(terms[j].sign, x[terms[j].cell])
  {
    var a, m, b := terms[..j], [terms[j]], terms[j + 1..];
    assert terms == (a + m) + b;
    assert U.TermsIn(a, |x|) && U.TermsIn(m, |x|) && U.TermsIn(b, |x|);
    SignedSumAppend(a, m, x);
    SignedSumAppend(a + m, b, x);
    SignedSumAppend(a, b, x);
    assert SignedSum(m, x) == Times(terms[j].sign, x[terms[j].cell]) by {
      assert m[..0] == [];
    }
  }

  /** Dropping one known term, its value moved to the right-hand side, keeps the sum minus the right-hand side. */
  lemma KnownTermDropped(e: IEquation, j: nat, bounds: seq<IBounds>, g: int, x: seq<int>)
    requires U.TermsIn(e.terms, |bounds|) && U.Signed(e.terms) && Holds(x, bounds, g)
    requires j < |e.terms| && Known(bounds[e.terms[j].cell])
    ensures var d := DropKnown(e, j, bounds);
            U.Signed(d.terms) && SignedSum(d.terms, x) - d.rhs == SignedSum(e.terms, x) - e.rhs
  {
    var t := e.terms[j];
    assert x[t.cell] == bounds[t.cell].upper;
    assert t.sign == 1 || t.sign == -1;
    RemoveTermSum(e.terms, j, x);
    RemovedTermSigned(e.terms, j);
  }

  /**
   * Removing the known terms leaves the sum minus the right-hand side
   * unchanged for every table within the bounds: a known cell holds exactly
   * its bound.
   */
  lemma {:induction false} SimplifyFromSound(e: IEquation, j: nat, bounds: seq<IBounds>, g: int, x: seq<int>)
    requires U.TermsIn(e.terms, |bounds|) && U.Signed(e.terms) && Holds(x, bounds, g)
    ensures U.Signed(SimplifyFrom(e, j, bounds).0.terms)
    ensures SignedSum(SimplifyFrom(e, j, bounds).0.terms, x) - SimplifyFrom(e, j, bounds).0.rhs ==
            SignedSum(e.terms, x) - e.rhs
    decreases |e.terms| - j
  {
    if j < |e.terms| {
      if Known(bounds[e.terms[j].cell]) {
        KnownTermDropped(e, j, bounds, g, x);
        SimplifyFromSound(DropKnown(e, j, bounds), j + 1, bounds, g, x);
      } else {
        SimplifyFromSound(e, j + 1, bounds, g, x);
      }
    }
  }

  /** Simplifying an equation keeps it satisfied by every table within the bounds. */
  lemma SimplifyEquationSound(e: IEquation, bounds: seq<IBounds>, g: int, x: seq<int>)
    requires U.TermsIn(e.terms, |bounds|) && U.Signed(e.terms) && Holds(x, bounds, g) && Satisfies(e, x)
    ensures U.Signed(SimplifyEquation(e, bounds).0.terms)
    ensures Satisfies(SimplifyEquation(e, bounds).0, x)
  {
    if |e.terms| >= 2 {
      SimplifyFromSound(e, 0, bounds, g, x);
    }
  }

  /**
   * One pass of simplification keeps the equations satisfied by every table
   * within the bounds: unlike the check over doubles, a cell is taken as
   * known only when its bounds are equal, so no further hypothesis is needed.
   */
  lemma SimplifiedSound(es: seq<IEquation>, bounds: seq<IBounds>, g: int, x: seq<int>)
    requires WellSigned(es, |bounds|) && Holds(x, bounds, g) && SatisfiesAll(es, x)
    ensures WellSigned(Simplified(es, bounds).0, |bounds|) && SatisfiesAll(Simplified(es, bounds).0, x)
  {
    var s := SimplifyEach(es, bounds).0;
    forall i | 0 <= i < |es|
      ensures U.TermsIn(s[i].terms, |x|) && U.Signed(s[i].terms) && Satisfies(s[i], x)
    {
      SimplifyEquationSound(es[i], bounds, g, x);
    }
    TidyAllSound(s, x);
  }

  // ---------------------------------------------------------------------------
  // Initial bounds from single equations
  // ---------------------------------------------------------------------------

  /** In an equation of plus terms, a cell can be neither below 0 nor above the right-hand side. */
  function Cap(b: IBounds, rhs: int): IBounds
  {
    IBounds(if b.lower < 0 then 0 else b.lower, if b.upper > rhs then rhs else b.upper)
  }

  function CapAll(terms: seq<Term>, rhs: int, bounds: seq<IBounds>): (r: seq<IBounds>)
    requires U.TermsIn(terms, |bounds|)
    ensures |r| == |bounds|
  {
    if terms == [] then bounds
    else
      var b := CapAll(terms[..|terms| - 1], rhs, bounds);
      var c := terms[|terms| - 1].cell;
      b[c := Cap(b[c], rhs)]
  }

  /**
   * One equation of `set_initial_lower_and_upper_bounds`: a single term is
   * pinned at the right-hand side; an equation of plus terms caps its cells
   * at [0, right-hand side]; anything else gives nothing.
   */
  function SetInitialEquation(e: IEquation, bounds: seq<IBounds>): (r: seq<IBounds>)
    requires U.TermsIn(e.terms, |bounds|)
    ensures |r| == |bounds|
  {
    if |e.terms| == 0 then bounds
    else if |e.terms| == 1 then bounds[e.terms[0].cell := IBounds(e.rhs, e.rhs)]
    else if U.AllPlus(e.terms) then CapAll(e.terms, e.rhs, bounds)
    else bounds
  }

  function SetInitialAll(es: seq<IEquation>, bounds: seq<IBounds>): (r: seq<IBounds>)
    requires AllIn(es, |bounds|)
    ensures |r| == |bounds|
  {
    if es == [] then bounds
    else SetInitialEquation(es[|es| - 1], SetInitialAll(es[..|es| - 1], bounds))
  }

  lemma {:induction false} NonNegativeSum(terms: seq<Term>, x: seq<int>)
    requires U.TermsIn(terms, |x|) && U.AllPlus(terms)
    requires forall c :: 0 <= c < |x| ==> x[c] >= 0
    ensures SignedSum(terms, x) >= 0
  {
    if terms != [] {
      NonNegativeSum(terms[..|terms| - 1], x);
    }
  }

  /** With every value at least 0, one plus term is at most the sum of all of them. */
  lemma {:induction false} TermAtMostSum(terms: seq<Term>, x: seq<int>, k: nat)
    requires U.TermsIn(terms, |x|) && U.AllPlus(terms) && k < |terms|
    requires forall c :: 0 <= c < |x| ==> x[c] >= 0
    ensures 0 <= x[terms[k].cell] <= SignedSum(terms, x)
  {
    var n := |terms| - 1;
    if k < n {
      TermAtMostSum(terms[..n], x, k);
    } else {
      NonNegativeSum(terms[..n], x);
    }
  }

  lemma {:induction false} CapAllSound(terms: seq<Term>, rhs: int, bounds: seq<IBounds>, g: int, x: seq<int>)
    requires U.TermsIn(terms, |bounds|) && Holds(x, bounds, g)
    requires forall k :: 0 <= k < |terms| ==> x[terms[k].cell] <= rhs
    ensures Holds(x, CapAll(terms, rhs, bounds), g)
  {
    if terms != [] {
      CapAllSound(terms[..|terms| - 1], rhs, bounds, g, x);
    }
  }

  /**
   * Setting the initial bounds keeps every table within the bounds that
   * satisfies the tidied equations: a single term with sign -1 and a
   * right-hand side of at least 0 forces the value 0, which is then that
   * right-hand side.
   */
  lemma {:induction false} SetInitialSound(es: seq<IEquation>, bounds: seq<IBounds>, g: int, x: seq<int>)
    requires WellSigned(es, |bounds|) && Tidied(es) && Holds(x, bounds, g) && SatisfiesAll(es, x)
    ensures Holds(x, SetInitialAll(es, bounds), g)
  {
    if es != [] {
      var n := |es| - 1;
      assert forall i :: 0 <= i < n ==> es[..n][i] == es[i];
      SetInitialSound(es[..n], bounds, g, x);
      var e := es[n];
      var b := SetInitialAll(es[..n], bounds);
      if |e.terms| == 1 {
        assert e.terms[..0] == [];
        assert SignedSum(e.terms, x) == Times(e.terms[0].sign, x[e.terms[0].cell]);
      } else if |e.terms| > 1 && U.AllPlus(e.terms) {
        forall k | 0 <= k < |e.terms|
          ensures x[e.terms[k].cell] <= e.rhs
        {
          TermAtMostSum(e.terms, x, k);
        }
        CapAllSound(e.terms, e.rhs, b, g, x);
      }
    }
  }

  // ---------------------------------------------------------------------------
  // Processing equations
  // ---------------------------------------------------------------------------

  /**
   * `struct ProcessingEquation` over integers: a bound for `cell` is the
   * right-hand side plus the lower bounds of `lowerAdds` and the upper
   * bounds of `upperAdds`, minus the lower bounds of `lowerSubs` and the
   * upper bounds of `upperSubs`.
   */
  datatype IProcessing = IProcessing(cell: int, rhs: int, lowerAdds: seq<int>, upperAdds: seq<int>,
                                     lowerSubs: seq<int>, upperSubs: seq<int>)

  /** The right-hand side as the target term sees it: negated for a minus term. */
  function TargetRhs(e: IEquation, j: nat): int
    requires j < |e.terms|
  {
    if e.terms[j].sign == 1 then e.rhs else -e.rhs
  }

  /**
   * The processing equation for a lower bound on term `j`, after the terms
   * before `n`: a term with the target's sign subtracts its upper bound, one
   * with the other sign adds its lower bound.
   */
  function LowerProcessing(e: IEquation, j: nat, n: nat): (p: IProcessing)
    requires j < |e.terms| && n <= |e.terms|
    ensures p.cell == e.terms[j].cell && p.rhs == TargetRhs(e, j) && p.upperAdds == [] && p.lowerSubs == []
  {
    if n == 0 then IProcessing(e.terms[j].cell, TargetRhs(e, j), [], [], [], [])
    else
      var p := LowerProcessing(e, j, n - 1);
      var t := e.terms[n - 1];
      if n - 1 == j then p
      else if (t.sign == 1) == (e.terms[j].sign == 1) then p.(upperSubs := p.upperSubs + [t.cell])
      else p.(lowerAdds := p.lowerAdds + [t.cell])
  }

  /**
   * The processing equation for an upper bound on term `j`: a term with the
   * target's sign subtracts its lower bound, one with the other sign adds
   * its upper bound.
   */
  function UpperProcessing(e: IEquation, j: nat, n: nat): (p: IProcessing)
    requires j < |e.terms| && n <= |e.terms|
    ensures p.cell == e.terms[j].cell && p.rhs == TargetRhs(e, j) && p.lowerAdds == [] && p.upperSubs == []
  {
    if n == 0 then IProcessing(e.terms[j].cell, TargetRhs(e, j), [], [], [], [])
    else
      var p := UpperProcessing(e, j, n - 1);
      var t := e.terms[n - 1];
      if n - 1 == j then p
      else if (t.sign == 1) == (e.terms[j].sign == 1) then p.(lowerSubs := p.lowerSubs + [t.cell])
      else p.(upperAdds := p.upperAdds + [t.cell])
  }

  /** The cells of the terms before `n` other than term `j`. */
  function OtherCells(terms: seq<Term>, j: nat, n: nat): seq<int>
    requires n <= |terms|
  {
    if n == 0 then [] else OtherCells(terms, j, n - 1) + if n - 1 == j then [] else [terms[n - 1].cell]
  }

  /**
   * Every other term of the equation lands in exactly one list of each
   * processing equation, and the lower and the upper equation split the
   * terms the same way: the cells subtracted from one are those subtracted
   * from the other, and likewise for the cells added.
   */
  lemma {:induction false} ProcessingLists(e: IEquation, j: nat, n: nat)
    requires j < |e.terms| && n <= |e.terms|
    ensures LowerProcessing(e, j, n).upperSubs == UpperProcessing(e, j, n).lowerSubs
    ensures LowerProcessing(e, j, n).lowerAdds == UpperProcessing(e, j, n).upperAdds
    ensures multiset(LowerProcessing(e, j, n).upperSubs) + multiset(LowerProcessing(e, j, n).lowerAdds) ==
            multiset(OtherCells(e.terms, j, n))
  {
    if n > 0 {
      ProcessingLists(e, j, n - 1);
      var lo := LowerProcessing(e, j, n - 1);
      var c := e.terms[n - 1].cell;
      if n - 1 != j {
        if (e.terms[n - 1].sign == 1) == (e.terms[j].sign == 1) {
          assert multiset(lo.upperSubs + [c]) == multiset(lo.upperSubs) + multiset{c};
        } else {
          assert multiset(lo.lowerAdds + [c]) == multiset(lo.lowerAdds) + multiset{c};
        }
        assert multiset(OtherCells(e.terms, j, n)) == multiset(OtherCells(e.terms, j, n - 1)) + multiset{c};
      }
    }
  }

  /** The sum of the lower (or upper) bounds of the listed cells. */
  function SumBounds(cs: seq<int>, bounds: seq<IBounds>, lower: bool): int
    requires forall k :: 0 <= k < |cs| ==> 0 <= cs[k] < |bounds|
  {
    if cs == [] then 0
    else
      var b := bounds[cs[|cs| - 1]];
      SumBounds(cs[..|cs| - 1], bounds, lower) + if lower then b.lower else b.upper
  }

  /** Every cell a processing equation names is in the table. */
  predicate ProcessingIn(p: IProcessing, n: int)
  {
    0 <= p.cell < n &&
    (forall k :: 0 <= k < |p.lowerAdds| ==> 0 <= p.lowerAdds[k] < n) &&
    (forall k :: 0 <= k < |p.upperAdds| ==> 0 <= p.upperAdds[k] < n) &&
    (forall k :: 0 <= k < |p.lowerSubs| ==> 0 <= p.lowerSubs[k] < n) &&
    (forall k :: 0 <= k < |p.upperSubs| ==> 0 <= p.upperSubs[k] < n)
  }

  /** The bound a processing equation gives, from the current bounds. */
  function Evaluate(p: IProcessing, bounds: seq<IBounds>): int
    requires ProcessingIn(p, |bounds|)
  {
    p.rhs + SumBounds(p.lowerAdds, bounds, true) + SumBounds(p.upperAdds, bounds, false)
      - SumBounds(p.lowerSubs, bounds, true) - SumBounds(p.upperSubs, bounds, false)
  }

  lemma AddLower(p: IProcessing, c: int, bounds: seq<IBounds>)
    requires ProcessingIn(p, |bounds|) && 0 <= c < |bounds|
    ensures ProcessingIn(p.(lowerAdds := p.lowerAdds + [c]), |bounds|)
    ensures Evaluate(p.(lowerAdds := p.lowerAdds + [c]), bounds) == Evaluate(p, bounds) + bounds[c].lower
  {
    assert (p.lowerAdds + [c])[..|p.lowerAdds|] == p.lowerAdds;
  }

  lemma AddUpper(p: IProcessing, c: int, bounds: seq<IBounds>)
    requires ProcessingIn(p, |bounds|) && 0 <= c < |bounds|
    ensures ProcessingIn(p.(upperAdds := p.upperAdds + [c]), |bounds|)
    ensures Evaluate(p.(upperAdds := p.upperAdds + [c]), bounds) == Evaluate(p, bounds) + bounds[c].upper
  {
    assert (p.upperAdds + [c])[..|p.upperAdds|] == p.upperAdds;
  }

  lemma SubLower(p: IProcessing, c: int, bounds: seq<IBounds>)
    requires ProcessingIn(p, |bounds|) && 0 <= c < |bounds|
    ensures ProcessingIn(p.(lowerSubs := p.lowerSubs + [c]), |bounds|)
    ensures Evaluate(p.(lowerSubs := p.lowerSubs + [c]), bounds) == Evaluate(p, bounds) - bounds[c].lower
  {
    assert (p.lowerSubs + [c])[..|p.lowerSubs|] == p.lowerSubs;
  }

  lemma SubUpper(p: IProcessing, c: int, bounds: seq<IBounds>)
    requires ProcessingIn(p, |bounds|) && 0 <= c < |bounds|
    ensures ProcessingIn(p.(upperSubs := p.upperSubs + [c]), |bounds|)
    ensures Evaluate(p.(upperSubs := p.upperSubs + [c]), bounds) == Evaluate(p, bounds) - bounds[c].upper
  {
    assert (p.upperSubs + [c])[..|p.upperSubs|] == p.upperSubs;
  }

  /** The signed sum of the terms before `n` other than term `j`. */
  function OthersSum(terms: seq<Term>, j: nat, n: nat, x: seq<int>): int
    requires n <= |terms| && U.TermsIn(terms, |x|)
  {
    if n == 0 then 0
    else OthersSum(terms, j, n - 1, x) + if n - 1 == j then 0 else Times(terms[n - 1].sign, x[terms[n - 1].cell])
  }

  lemma {:induction false} OthersSumSplits(terms: seq<Term>, j: nat, n: nat, x: seq<int>)
    requires n <= |terms| && U.TermsIn(terms, |x|) && j < |terms|
    ensures SignedSum(terms[..n], x) ==
            OthersSum(terms, j, n, x) + if j < n then Times(terms[j].sign, x[terms[j].cell]) else 0
  {
    if n > 0 {
      assert terms[..n][..n - 1] == terms[..n - 1];
      OthersSumSplits(terms, j, n - 1, x);
    }
  }

  lemma {:induction false} LowerProcessingBelow(e: IEquation, j: nat, n: nat, bounds: seq<IBounds>, g: int, x: seq<int>)
    requires j < |e.terms| && n <= |e.terms| && U.TermsIn(e.terms, |x|) && U.Signed(e.terms) && Holds(x, bounds, g)
    ensures ProcessingIn(LowerProcessing(e, j, n), |bounds|)
    ensures Evaluate(LowerProcessing(e, j, n), bounds) <=
            TargetRhs(e, j) - Times(e.terms[j].sign, OthersSum(e.terms, j, n, x))
  {
    if n > 0 {
      LowerProcessingBelow(e, j, n - 1, bounds, g, x);
      LowerProcessingStep(e, j, n, bounds, g, x);
    }
  }

  /** The step of `LowerProcessingBelow`: term `n - 1` keeps the bound. */
  lemma {:induction false} LowerProcessingStep(e: IEquation, j: nat, n: nat, bounds: seq<IBounds>, g: int, x: seq<int>)
    requires j < |e.terms| && 0 < n <= |e.terms| && U.TermsIn(e.terms, |x|) && U.Signed(e.terms) && Holds(x, bounds, g)
    requires ProcessingIn(LowerProcessing(e, j, n - 1), |bounds|)
    requires Evaluate(LowerProcessing(e, j, n - 1), bounds) <=
             TargetRhs(e, j) - Times(e.terms[j].sign, OthersSum(e.terms, j, n - 1, x))
    ensures ProcessingIn(LowerProcessing(e, j, n), |bounds|)
    ensures Evaluate(LowerProcessing(e, j, n), bounds) <=
            TargetRhs(e, j) - Times(e.terms[j].sign, OthersSum(e.terms, j, n, x))
  {
    var p := LowerProcessing(e, j, n - 1);
    var t := e.terms[n - 1];
    if n - 1 != j {
      assert e.terms[j].sign == 1 || e.terms[j].sign == -1;
      assert t.sign == 1 || t.sign == -1;
      assert bounds[t.cell].lower <= x[t.cell] <= bounds[t.cell].upper;
      if (t.sign == 1) == (e.terms[j].sign == 1) {
        assert LowerProcessing(e, j, n) == p.(upperSubs := p.upperSubs + [t.cell]);
        SubUpper(p, t.cell, bounds);
      } else {
        assert LowerProcessing(e, j, n) == p.(lowerAdds := p.lowerAdds + [t.cell]);
        AddLower(p, t.cell, bounds);
      }
    }
  }

  lemma {:induction false} UpperProcessingAbove(e: IEquation, j: nat, n: nat, bounds: seq<IBounds>, g: int, x: seq<int>)
    requires j < |e.terms| && n <= |e.terms| && U.TermsIn(e.terms, |x|) && U.Signed(e.terms) && Holds(x, bounds, g)
    ensures ProcessingIn(UpperProcessing(e, j, n), |bounds|)
    ensures Evaluate(UpperProcessing(e, j, n), bounds) >=
            TargetRhs(e, j) - Times(e.terms[j].sign, OthersSum(e.terms, j, n, x))
  {
    if n > 0 {
      UpperProcessingAbove(e, j, n - 1, bounds, g, x);
      UpperProcessingStep(e, j, n, bounds, g, x);
    }
  }

  /** The step of `UpperProcessingAbove`: term `n - 1` keeps the bound. */
  lemma {:induction false} UpperProcessingStep(e: IEquation, j: nat, n: nat, bounds: seq<IBounds>, g: int, x: seq<int>)
    requires j < |e.terms| && 0 < n <= |e.terms| && U.TermsIn(e.terms, |x|) && U.Signed(e.terms) && Holds(x, bounds, g)
    requires ProcessingIn(UpperProcessing(e, j, n - 1), |bounds|)
    requires Evaluate(UpperProcessing(e, j, n - 1), bounds) >=
             TargetRhs(e, j) - Times(e.terms[j].sign, OthersSum(e.terms, j, n - 1, x))
    ensures ProcessingIn(UpperProcessing(e, j, n), |bounds|)
    ensures Evaluate(UpperProcessing(e, j, n), bounds) >=
            TargetRhs(e, j) - Times(e.terms[j].sign, OthersSum(e.terms, j, n, x))
  {
    var p := UpperProcessing(e, j, n - 1);
    var t := e.terms[n - 1];
    if n - 1 != j {
      assert e.terms[j].sign == 1 || e.terms[j].sign == -1;
      assert t.sign == 1 || t.sign == -1;
      assert bounds[t.cell].lower <= x[t.cell] <= bounds[t.cell].upper;
      if (t.sign == 1) == (e.terms[j].sign == 1) {
        assert UpperProcessing(e, j, n) == p.(lowerSubs := p.lowerSubs + [t.cell]);
        SubLower(p, t.cell, bounds);
      } else {
        assert UpperProcessing(e, j, n) == p.(upperAdds := p.upperAdds + [t.cell]);
        AddUpper(p, t.cell, bounds);
      }
    }
  }

  /**
   * The processing equations for term `j` bound its cell's value from
   * below and from above, for every table within the current bounds that
   * satisfies the equation.
   */
  lemma ProcessingSound(e: IEquation, j: nat, bounds: seq<IBounds>, g: int, x: seq<int>)
    requires j < |e.terms| && U.TermsIn(e.terms, |x|) && U.Signed(e.terms) && Holds(x, bounds, g)
    requires Satisfies(e, x)
    ensures ProcessingIn(LowerProcessing(e, j, |e.terms|), |bounds|)
    ensures ProcessingIn(UpperProcessing(e, j, |e.terms|), |bounds|)
    ensures Evaluate(LowerProcessing(e, j, |e.terms|), bounds) <= x[e.terms[j].cell]
    ensures x[e.terms[j].cell] <= Evaluate(UpperProcessing(e, j, |e.terms|), bounds)
  {
    var n := |e.terms|;
    LowerProcessingBelow(e, j, n, bounds, g, x);
    UpperProcessingAbove(e, j, n, bounds, g, x);
    OthersSumSplits(e.terms, j, n, x);
    assert e.terms[..n] == e.terms;
  }

  lemma {:induction false} LowerProcessingIn(e: IEquation, j: nat, n: nat, m: int)
    requires j < |e.terms| && n <= |e.terms| && U.TermsIn(e.terms, m)
    ensures ProcessingIn(LowerProcessing(e, j, n), m)
  {
    if n > 0 {
      LowerProcessingIn(e, j, n - 1, m);
    }
  }

  lemma {:induction false} UpperProcessingIn(e: IEquation, j: nat, n: nat, m: int)
    requires j < |e.terms| && n <= |e.terms| && U.TermsIn(e.terms, m)
    ensures ProcessingIn(UpperProcessing(e, j, n), m)
  {
    if n > 0 {
      UpperProcessingIn(e, j, n - 1, m);
    }
  }

  // ---------------------------------------------------------------------------
  // Improving the bounds
  // ---------------------------------------------------------------------------

  /**
   * What `improve_lower_and_upper_bounds` carries from one processing
   * equation to the next: the bounds, the value it will return, and whether
   * it has already returned after having to correct a bound.
   */
  datatype Progress = Progress(bounds: seq<IBounds>, rc: bool, stopped: bool)

  /**
   * `if (cell_bounds[cellno].lower < result)`: the greater lower bound is
   * taken; one below 0 or above the upper bound is corrected to the upper
   * bound and the function returns false; otherwise a rise of more than
   * UNPICKING_PRECISION makes it return true.
   */
  function RaiseLower(st: Progress, c: int, result: int): (r: Progress)
    requires 0 <= c < |st.bounds|
    ensures |r.bounds| == |st.bounds|
  {
    var b := st.bounds[c];
    if b.lower < result then
      if result < 0 || result > b.upper then Progress(st.bounds[c := b.(lower := b.upper)], false, true)
      else Progress(st.bounds[c := b.(lower := result)], st.rc || result - b.lower > UnpickingPrecision, st.stopped)
    else st
  }

  /**
   * `if (cell_bounds[cellno].upper > result)`: the smaller upper bound is
   * taken; one below the lower bound or above the grand total is corrected
   * to the lower bound and the function returns false.
   */
  function LowerUpper(st: Progress, c: int, result: int, g: int): (r: Progress)
    requires 0 <= c < |st.bounds|
    ensures |r.bounds| == |st.bounds|
  {
    var b := st.bounds[c];
    if b.upper > result then
      if result < b.lower || result > g then Progress(st.bounds[c := b.(upper := b.lower)], false, true)
      else Progress(st.bounds[c := b.(upper := result)], st.rc || b.upper - result > UnpickingPrecision, st.stopped)
    else st
  }

  /**
   * "Improve lower bounds": the lower processing equations of the first `n`
   * terms in turn, each evaluated on the bounds the earlier ones left; once
   * the function has returned, nothing more happens.
   */
  function LowerPass(e: IEquation, n: nat, st: Progress): (r: Progress)
    requires U.TermsIn(e.terms, |st.bounds|) && n <= |e.terms|
    ensures |r.bounds| == |st.bounds|
    ensures st.stopped ==> r == st
  {
    if n == 0 then st else LowerStep(e, n - 1, LowerPass(e, n - 1, st))
  }

  /** Term `k` of the lower pass: nothing once the function has returned. */
  function LowerStep(e: IEquation, k: nat, prev: Progress): (r: Progress)
    requires U.TermsIn(e.terms, |prev.bounds|) && k < |e.terms|
    ensures |r.bounds| == |prev.bounds|
    ensures prev.stopped ==> r == prev
  {
    if prev.stopped then prev
    else
      LowerProcessingIn(e, k, |e.terms|, |prev.bounds|);
      var p := LowerProcessing(e, k, |e.terms|);
      RaiseLower(prev, p.cell, Evaluate(p, prev.bounds))
  }

  /** "Improve upper bounds": the same with the upper processing equations. */
  function UpperPass(e: IEquation, n: nat, st: Progress, g: int): (r: Progress)
    requires U.TermsIn(e.terms, |st.bounds|) && n <= |e.terms|
    ensures |r.bounds| == |st.bounds|
    ensures st.stopped ==> r == st
  {
    if n == 0 then st else UpperStep(e, n - 1, UpperPass(e, n - 1, st, g), g)
  }

  /** Term `k` of the upper pass: nothing once the function has returned. */
  function UpperStep(e: IEquation, k: nat, prev: Progress, g: int): (r: Progress)
    requires U.TermsIn(e.terms, |prev.bounds|) && k < |e.terms|
    ensures |r.bounds| == |prev.bounds|
    ensures prev.stopped ==> r == prev
  {
    if prev.stopped then prev
    else
      UpperProcessingIn(e, k, |e.terms|, |prev.bounds|);
      var p := UpperProcessing(e, k, |e.terms|);
      LowerUpper(prev, p.cell, Evaluate(p, prev.bounds), g)
  }

  /** One consolidated equation: the lower pass, then the upper pass. */
  function ImproveEquation(e: IEquation, st: Progress, g: int): (r: Progress)
    requires U.TermsIn(e.terms, |st.bounds|)
    ensures |r.bounds| == |st.bounds|
    ensures st.stopped ==> r == st
  {
    UpperPass(e, |e.terms|, LowerPass(e, |e.terms|, st), g)
  }

  /** The consolidated equations in turn. */
  function ImproveFrom(es: seq<IEquation>, st: Progress, g: int): (r: Progress)
    requires AllIn(es, |st.bounds|)
    ensures |r.bounds| == |st.bounds|
    ensures st.stopped ==> r == st
  {
    if es == [] then st
    else ImproveEquation(es[|es| - 1], ImproveFrom(es[..|es| - 1], st, g), g)
  }

  /**
   * What `improve_lower_and_upper_bounds` leaves and returns (`rc`), and
   * whether it returned early after correcting a bound (`stopped`, with
   * `rc` false).
   */
  function ImproveAll(es: seq<IEquation>, bounds: seq<IBounds>, g: int): (r: Progress)
    requires AllIn(es, |bounds|)
    ensures |r.bounds| == |bounds|
  {
    ImproveFrom(es, Progress(bounds, false, false), g)
  }

  /** One step of the lower pass, unfolded. */
  lemma LowerPassStep(e: IEquation, k: nat, st: Progress)
    requires U.TermsIn(e.terms, |st.bounds|) && k < |e.terms|
    ensures ProcessingIn(LowerProcessing(e, k, |e.terms|), |st.bounds|)
    ensures var prev := LowerPass(e, k, st);
            LowerPass(e, k + 1, st) ==
              if prev.stopped then prev
              else RaiseLower(prev, e.terms[k].cell, Evaluate(LowerProcessing(e, k, |e.terms|), prev.bounds))
  {
    LowerProcessingIn(e, k, |e.terms|, |st.bounds|);
  }

  /** One step of the upper pass, unfolded. */
  lemma UpperPassStep(e: IEquation, k: nat, st: Progress, g: int)
    requires U.TermsIn(e.terms, |st.bounds|) && k < |e.terms|
    ensures ProcessingIn(UpperProcessing(e, k, |e.terms|), |st.bounds|)
    ensures var prev := UpperPass(e, k, st, g);
            UpperPass(e, k + 1, st, g) ==
              if prev.stopped then prev
              else LowerUpper(prev, e.terms[k].cell, Evaluate(UpperProcessing(e, k, |e.terms|), prev.bounds), g)
  {
    UpperProcessingIn(e, k, |e.terms|, |st.bounds|);
  }

  /** Once a pass has returned, the later terms change nothing. */
  lemma {:induction false} LowerPassStopped(e: IEquation, k: nat, n: nat, st: Progress)
    requires U.TermsIn(e.terms, |st.bounds|) && k <= n <= |e.terms| && LowerPass(e, k, st).stopped
    ensures LowerPass(e, n, st) == LowerPass(e, k, st)
  {
    if k < n {
      LowerPassStopped(e, k, n - 1, st);
    }
  }

  lemma {:induction false} UpperPassStopped(e: IEquation, k: nat, n: nat, st: Progress, g: int)
    requires U.TermsIn(e.terms, |st.bounds|) && k <= n <= |e.terms| && UpperPass(e, k, st, g).stopped
    ensures UpperPass(e, n, st, g) == UpperPass(e, k, st, g)
  {
    if k < n {
      UpperPassStopped(e, k, n - 1, st, g);
    }
  }

  /** Once an equation has made the function return, the later equations change nothing. */
  lemma {:induction false} ImproveFromStopped(es: seq<IEquation>, k: nat, st: Progress, g: int)
    requires AllIn(es, |st.bounds|) && k <= |es| && ImproveFrom(es[..k], st, g).stopped
    ensures ImproveFrom(es, st, g) == ImproveFrom(es[..k], st, g)
  {
    if k < |es| {
      var n := |es| - 1;
      assert es[..n][..k] == es[..k];
      ImproveFromStopped(es[..n], k, st, g);
    } else {
      assert es[..k] == es;
    }
  }

  // --- Termination of the unbounded loop --------------------------------------

  /** The width of an interval, 0 when it is empty or a point. */
  function Gap(b: IBounds): nat
  {
    if b.upper > b.lower then b.upper - b.lower else 0
  }

  /** The total width of the bounds. */
  function Potential(bs: seq<IBounds>): nat
  {
    if bs == [] then 0 else Potential(bs[..|bs| - 1]) + Gap(bs[|bs| - 1])
  }

  lemma {:induction false} PotentialUpdate(bs: seq<IBounds>, c: int, nb: IBounds)
    requires 0 <= c < |bs|
    ensures Potential(bs[c := nb]) == Potential(bs) - Gap(bs[c]) + Gap(nb)
  {
    var n := |bs| - 1;
    if c < n {
      assert bs[c := nb][..n] == bs[..n][c := nb];
      PotentialUpdate(bs[..n], c, nb);
    } else {
      assert bs[c := nb][..n] == bs[..n];
    }
  }

  /**
   * `r` follows `st` as improvement does: a state that stopped reports
   * false; otherwise the total width has not grown, and a report of true
   * that `st` did not have comes with a fall of more than UNPICKING_PRECISION.
   */
  ghost predicate Descends(st: Progress, r: Progress)
  {
    if r.stopped then !r.rc
    else
      Potential(r.bounds) <= Potential(st.bounds) &&
      (r.rc ==> st.rc || Potential(r.bounds) + UnpickingPrecision < Potential(st.bounds))
  }

  lemma DescendsTransitive(a: Progress, b: Progress, c: Progress)
    requires Descends(a, b) && Descends(b, c) && (b.stopped ==> c == b)
    ensures Descends(a, c)
  {
  }

  lemma RaiseLowerDescends(st: Progress, c: int, result: int)
    requires 0 <= c < |st.bounds| && !st.stopped
    ensures Descends(st, RaiseLower(st, c, result))
  {
    var b := st.bounds[c];
    if b.lower < result && !(result < 0 || result > b.upper) {
      PotentialUpdate(st.bounds, c, b.(lower := result));
    }
  }

  lemma LowerUpperDescends(st: Progress, c: int, result: int, g: int)
    requires 0 <= c < |st.bounds| && !st.stopped
    ensures Descends(st, LowerUpper(st, c, result, g))
  {
    var b := st.bounds[c];
    if b.upper > result && !(result < b.lower || result > g) {
      PotentialUpdate(st.bounds, c, b.(upper := result));
    }
  }

  lemma {:induction false} LowerPassDescends(e: IEquation, n: nat, st: Progress)
    requires U.TermsIn(e.terms, |st.bounds|) && n <= |e.terms| && !st.stopped
    ensures Descends(st, LowerPass(e, n, st))
  {
    if n > 0 {
      LowerPassDescends(e, n - 1, st);
      LowerPassStep(e, n - 1, st);
      var prev := LowerPass(e, n - 1, st);
      if !prev.stopped {
        var r := RaiseLower(prev, e.terms[n - 1].cell, Evaluate(LowerProcessing(e, n - 1, |e.terms|), prev.bounds));
        RaiseLowerDescends(prev, e.terms[n - 1].cell, Evaluate(LowerProcessing(e, n - 1, |e.terms|), prev.bounds));
        DescendsTransitive(st, prev, r);
      }
    }
  }

  lemma {:induction false} UpperPassDescends(e: IEquation, n: nat, st: Progress, g: int)
    requires U.TermsIn(e.terms, |st.bounds|) && n <= |e.terms| && !st.stopped
    ensures Descends(st, UpperPass(e, n, st, g))
  {
    if n > 0 {
      UpperPassDescends(e, n - 1, st, g);
      UpperPassStep(e, n - 1, st, g);
      var prev := UpperPass(e, n - 1, st, g);
      if !prev.stopped {
        var r := LowerUpper(prev, e.terms[n - 1].cell, Evaluate(UpperProcessing(e, n - 1, |e.terms|), prev.bounds), g);
        LowerUpperDescends(prev, e.terms[n - 1].cell, Evaluate(UpperProcessing(e, n - 1, |e.terms|), prev.bounds), g);
        DescendsTransitive(st, prev, r);
      }
    }
  }

  lemma {:induction false} ImproveFromDescends(es: seq<IEquation>, st: Progress, g: int)
    requires AllIn(es, |st.bounds|) && !st.stopped
    ensures Descends(st, ImproveFrom(es, st, g))
  {
    if es != [] {
      var n := |es| - 1;
      var e := es[n];
      ImproveFromDescends(es[..n], st, g);
      var prev := ImproveFrom(es[..n], st, g);
      if !prev.stopped {
        var lo := LowerPass(e, |e.terms|, prev);
        LowerPassDescends(e, |e.terms|, prev);
        if !lo.stopped {
          UpperPassDescends(e, |e.terms|, lo, g);
        }
        DescendsTransitive(prev, lo, ImproveEquation(e, prev, g));
        DescendsTransitive(st, prev, ImproveFrom(es, st, g));
      }
    }
  }

  /**
   * A call of `improve_lower_and_upper_bounds` that returns true has
   * narrowed the bounds by more than UNPICKING_PRECISION in total, and no
   * call that runs to the end widens them: the width is the measure that
   * makes `while (improve_lower_and_upper_bounds())` terminate.
   */
  lemma ImproveProgress(es: seq<IEquation>, bounds: seq<IBounds>, g: int)
    requires AllIn(es, |bounds|)
    ensures ImproveAll(es, bounds, g).stopped ==> !ImproveAll(es, bounds, g).rc
    ensures !ImproveAll(es, bounds, g).stopped ==> Potential(ImproveAll(es, bounds, g).bounds) <= Potential(bounds)
    ensures ImproveAll(es, bounds, g).rc ==> Potential(ImproveAll(es, bounds, g).bounds) + UnpickingPrecision < Potential(bounds)
  {
    ImproveFromDescends(es, Progress(bounds, false, false), g);
  }

  // --- Monotonicity -----------------------------------------------------------

  /** Every lower bound is at most its upper bound. */
  predicate Ordered(bs: seq<IBounds>)
  {
    forall c :: 0 <= c < |bs| ==> bs[c].lower <= bs[c].upper
  }

  /** No lower bound has fallen and no upper bound has risen. */
  predicate Narrower(before: seq<IBounds>, after: seq<IBounds>)
  {
    |before| == |after| &&
    forall c :: 0 <= c < |before| ==> before[c].lower <= after[c].lower && after[c].upper <= before[c].upper
  }

  lemma RaiseLowerNarrows(st: Progress, c: int, result: int)
    requires 0 <= c < |st.bounds| && Ordered(st.bounds)
    ensures Ordered(RaiseLower(st, c, result).bounds) && Narrower(st.bounds, RaiseLower(st, c, result).bounds)
  {
  }

  lemma LowerUpperNarrows(st: Progress, c: int, result: int, g: int)
    requires 0 <= c < |st.bounds| && Ordered(st.bounds)
    ensures Ordered(LowerUpper(st, c, result, g).bounds) && Narrower(st.bounds, LowerUpper(st, c, result, g).bounds)
  {
  }

  lemma {:induction false} LowerPassNarrows(e: IEquation, n: nat, st: Progress)
    requires U.TermsIn(e.terms, |st.bounds|) && n <= |e.terms| && Ordered(st.bounds)
    ensures Ordered(LowerPass(e, n, st).bounds) && Narrower(st.bounds, LowerPass(e, n, st).bounds)
  {
    if n > 0 {
      LowerPassNarrows(e, n - 1, st);
      LowerPassStep(e, n - 1, st);
      var prev := LowerPass(e, n - 1, st);
      if !prev.stopped {
        RaiseLowerNarrows(prev, e.terms[n - 1].cell, Evaluate(LowerProcessing(e, n - 1, |e.terms|), prev.bounds));
      }
    }
  }

  lemma {:induction false} UpperPassNarrows(e: IEquation, n: nat, st: Progress, g: int)
    requires U.TermsIn(e.terms, |st.bounds|) && n <= |e.terms| && Ordered(st.bounds)
    ensures Ordered(UpperPass(e, n, st, g).bounds) && Narrower(st.bounds, UpperPass(e, n, st, g).bounds)
  {
    if n > 0 {
      UpperPassNarrows(e, n - 1, st, g);
      UpperPassStep(e, n - 1, st, g);
      var prev := UpperPass(e, n - 1, st, g);
      if !prev.stopped {
        LowerUpperNarrows(prev, e.terms[n - 1].cell, Evaluate(UpperProcessing(e, n - 1, |e.terms|), prev.bounds), g);
      }
    }
  }

  lemma {:induction false} ImproveFromNarrows(es: seq<IEquation>, st: Progress, g: int)
    requires AllIn(es, |st.bounds|) && Ordered(st.bounds)
    ensures Ordered(ImproveFrom(es, st, g).bounds) && Narrower(st.bounds, ImproveFrom(es, st, g).bounds)
  {
    if es != [] {
      var n := |es| - 1;
      var e := es[n];
      ImproveFromNarrows(es[..n], st, g);
      var prev := ImproveFrom(es[..n], st, g);
      LowerPassNarrows(e, |e.terms|, prev);
      UpperPassNarrows(e, |e.terms|, LowerPass(e, |e.terms|, prev), g);
    }
  }

  /**
   * On ordered bounds, improvement (corrections included) only raises lower
   * bounds and lowers upper bounds, and leaves them ordered.
   */
  lemma ImproveNarrows(es: seq<IEquation>, bounds: seq<IBounds>, g: int)
    requires AllIn(es, |bounds|) && Ordered(bounds)
    ensures Ordered(ImproveAll(es, bounds, g).bounds) && Narrower(bounds, ImproveAll(es, bounds, g).bounds)
  {
    ImproveFromNarrows(es, Progress(bounds, false, false), g);
  }

  // --- Soundness --------------------------------------------------------------

  /** A lower bound below the value keeps the value within the bounds and needs no correction. */
  lemma LowerPassSoundStep(st: Progress, c: int, result: int, g: int, x: seq<int>)
    requires 0 <= c < |st.bounds| && Holds(x, st.bounds, g) && !st.stopped && result <= x[c]
    ensures !RaiseLower(st, c, result).stopped && Holds(x, RaiseLower(st, c, result).bounds, g)
  {
  }

  /** An upper bound above the value keeps the value within the bounds and needs no correction. */
  lemma UpperPassSoundStep(st: Progress, c: int, result: int, g: int, x: seq<int>)
    requires 0 <= c < |st.bounds| && Holds(x, st.bounds, g) && !st.stopped && x[c] <= result
    ensures !LowerUpper(st, c, result, g).stopped && Holds(x, LowerUpper(st, c, result, g).bounds, g)
  {
  }

  lemma LowerStepSound(e: IEquation, k: nat, st: Progress, g: int, x: seq<int>)
    requires U.TermsIn(e.terms, |st.bounds|) && |x| == |st.bounds| && k < |e.terms| && U.Signed(e.terms) && Satisfies(e, x)
    requires !LowerPass(e, k, st).stopped && Holds(x, LowerPass(e, k, st).bounds, g)
    ensures !LowerPass(e, k + 1, st).stopped && Holds(x, LowerPass(e, k + 1, st).bounds, g)
  {
    LowerPassStep(e, k, st);
    var prev := LowerPass(e, k, st);
    ProcessingSound(e, k, prev.bounds, g, x);
    LowerPassSoundStep(prev, e.terms[k].cell, Evaluate(LowerProcessing(e, k, |e.terms|), prev.bounds), g, x);
  }

  lemma UpperStepSound(e: IEquation, k: nat, st: Progress, g: int, x: seq<int>)
    requires U.TermsIn(e.terms, |st.bounds|) && |x| == |st.bounds| && k < |e.terms| && U.Signed(e.terms) && Satisfies(e, x)
    requires !UpperPass(e, k, st, g).stopped && Holds(x, UpperPass(e, k, st, g).bounds, g)
    ensures !UpperPass(e, k + 1, st, g).stopped && Holds(x, UpperPass(e, k + 1, st, g).bounds, g)
  {
    UpperPassStep(e, k, st, g);
    var prev := UpperPass(e, k, st, g);
    ProcessingSound(e, k, prev.bounds, g, x);
    UpperPassSoundStep(prev, e.terms[k].cell, Evaluate(UpperProcessing(e, k, |e.terms|), prev.bounds), g, x);
  }

  lemma {:induction false} LowerPassSound(e: IEquation, n: nat, st: Progress, g: int, x: seq<int>)
    requires U.TermsIn(e.terms, |st.bounds|) && n <= |e.terms| && U.Signed(e.terms)
    requires Holds(x, st.bounds, g) && Satisfies(e, x) && !st.stopped
    ensures !LowerPass(e, n, st).stopped && Holds(x, LowerPass(e, n, st).bounds, g)
  {
    if n > 0 {
      LowerPassSound(e, n - 1, st, g, x);
      LowerStepSound(e, n - 1, st, g, x);
    }
  }

  lemma {:induction false} UpperPassSound(e: IEquation, n: nat, st: Progress, g: int, x: seq<int>)
    requires U.TermsIn(e.terms, |st.bounds|) && n <= |e.terms| && U.Signed(e.terms)
    requires Holds(x, st.bounds, g) && Satisfies(e, x) && !st.stopped
    ensures !UpperPass(e, n, st, g).stopped && Holds(x, UpperPass(e, n, st, g).bounds, g)
  {
    if n > 0 {
      UpperPassSound(e, n - 1, st, g, x);
      UpperStepSound(e, n - 1, st, g, x);
    }
  }

  lemma {:induction false} ImproveFromSound(es: seq<IEquation>, st: Progress, g: int, x: seq<int>)
    requires WellSigned(es, |st.bounds|) && Holds(x, st.bounds, g) && SatisfiesAll(es, x) && !st.stopped
    ensures !ImproveFrom(es, st, g).stopped && Holds(x, ImproveFrom(es, st, g).bounds, g)
  {
    if es != [] {
      var n := |es| - 1;
      var e := es[n];
      assert forall i :: 0 <= i < n ==> es[..n][i] == es[i];
      ImproveFromSound(es[..n], st, g, x);
      var prev := ImproveFrom(es[..n], st, g);
      LowerPassSound(e, |e.terms|, prev, g, x);
      UpperPassSound(e, |e.terms|, LowerPass(e, |e.terms|, prev), g, x);
    }
  }

  /**
   * Improvement is sound: for a table within the bounds and [0, grand
   * total] that satisfies the consolidated equations, no bound ever needs
   * correcting, and the table stays within the improved bounds.
   */
  lemma ImproveSound(es: seq<IEquation>, bounds: seq<IBounds>, g: int, x: seq<int>)
    requires WellSigned(es, |bounds|) && Holds(x, bounds, g) && SatisfiesAll(es, x)
    ensures !ImproveAll(es, bounds, g).stopped && Holds(x, ImproveAll(es, bounds, g).bounds, g)
  {
    ImproveFromSound(es, Progress(bounds, false, false), g, x);
  }

  // ---------------------------------------------------------------------------
  // The loops of the attack
  // ---------------------------------------------------------------------------

  /**
   * `while (simplify_the_consistency_equations() > 0)
   * set_initial_lower_and_upper_bounds();`: every turn that goes on has
   * removed at least one term.
   */
  function SimplifyLoop(es: seq<IEquation>, bounds: seq<IBounds>): (r: (seq<IEquation>, seq<IBounds>))
    requires AllIn(es, |bounds|)
    ensures |r.1| == |bounds| && AllIn(r.0, |bounds|) && Shrunk(es, r.0) && Tidied(r.0)
    decreases TotalTerms(es)
  {
    var s := Simplified(es, bounds);
    if s.1 > 0 then SimplifyLoop(s.0, SetInitialAll(s.0, bounds)) else (s.0, bounds)
  }

  /**
   * The simplification loop is sound: a table within the bounds and
   * [0, grand total] that satisfies the equations satisfies those the loop
   * leaves and lies within the bounds it leaves.
   */
  lemma {:induction false} SimplifyLoopSound(es: seq<IEquation>, bounds: seq<IBounds>, g: int, x: seq<int>)
    requires WellSigned(es, |bounds|) && Holds(x, bounds, g) && SatisfiesAll(es, x)
    ensures WellSigned(SimplifyLoop(es, bounds).0, |bounds|) && SatisfiesAll(SimplifyLoop(es, bounds).0, x)
    ensures Holds(x, SimplifyLoop(es, bounds).1, g)
    decreases TotalTerms(es)
  {
    var s := Simplified(es, bounds);
    SimplifiedSound(es, bounds, g, x);
    if s.1 > 0 {
      SetInitialSound(s.0, bounds, g, x);
      SimplifyLoopSound(s.0, SetInitialAll(s.0, bounds), g, x);
    }
  }

  /**
   * `while (improve_lower_and_upper_bounds())`, with no cap on the number
   * of calls: each call that returns true narrows the bounds by more than
   * UNPICKING_PRECISION in total, so the loop ends.
   */
  function ImproveUntilStable(es: seq<IEquation>, bounds: seq<IBounds>, g: int): (r: seq<IBounds>)
    requires AllIn(es, |bounds|)
    ensures |r| == |bounds|
    decreases Potential(bounds)
  {
    var u := ImproveAll(es, bounds, g);
    if u.rc then
      ImproveProgress(es, bounds, g);
      ImproveUntilStable(es, u.bounds, g)
    else u.bounds
  }

  /** The number of calls of `improve_lower_and_upper_bounds` the unbounded loop makes. */
  function ImproveCalls(es: seq<IEquation>, bounds: seq<IBounds>, g: int): nat
    requires AllIn(es, |bounds|)
    decreases Potential(bounds)
  {
    var u := ImproveAll(es, bounds, g);
    if u.rc then
      ImproveProgress(es, bounds, g);
      1 + ImproveCalls(es, u.bounds, g)
    else 1
  }

  /**
   * The unbounded loop makes at most one call more than the total width of
   * the bounds divided by UNPICKING_PRECISION + 1.
   */
  lemma {:induction false} ImproveCallsBound(es: seq<IEquation>, bounds: seq<IBounds>, g: int)
    requires AllIn(es, |bounds|)
    ensures (ImproveCalls(es, bounds, g) - 1) * (UnpickingPrecision + 1) <= Potential(bounds)
    decreases Potential(bounds)
  {
    var u := ImproveAll(es, bounds, g);
    if u.rc {
      ImproveProgress(es, bounds, g);
      ImproveCallsBound(es, u.bounds, g);
    }
  }

  /** The unbounded loop is sound. */
  lemma {:induction false} ImproveUntilStableSound(es: seq<IEquation>, bounds: seq<IBounds>, g: int, x: seq<int>)
    requires WellSigned(es, |bounds|) && Holds(x, bounds, g) && SatisfiesAll(es, x)
    ensures Holds(x, ImproveUntilStable(es, bounds, g), g)
    decreases Potential(bounds)
  {
    ImproveSound(es, bounds, g, x);
    var u := ImproveAll(es, bounds, g);
    if u.rc {
      ImproveProgress(es, bounds, g);
      ImproveUntilStableSound(es, u.bounds, g, x);
    }
  }

  /** On ordered bounds, the unbounded loop only narrows them. */
  lemma {:induction false} ImproveUntilStableNarrows(es: seq<IEquation>, bounds: seq<IBounds>, g: int)
    requires AllIn(es, |bounds|) && Ordered(bounds)
    ensures Ordered(ImproveUntilStable(es, bounds, g)) && Narrower(bounds, ImproveUntilStable(es, bounds, g))
    decreases Potential(bounds)
  {
    ImproveNarrows(es, bounds, g);
    var u := ImproveAll(es, bounds, g);
    if u.rc {
      ImproveProgress(es, bounds, g);
      ImproveUntilStableNarrows(es, u.bounds, g);
    }
  }

  /** The cap on `iterations` in `RecordExistingExposure`. */
  const ImproveCap: nat := 5

  /**
   * `while ((improve_lower_and_upper_bounds()) && (iterations < 5))
   * iterations++;`: at most six calls.
   */
  function ImproveCapped(es: seq<IEquation>, bounds: seq<IBounds>, g: int, iterations: nat): (r: seq<IBounds>)
    requires AllIn(es, |bounds|) && iterations <= ImproveCap
    ensures |r| == |bounds|
    decreases ImproveCap - iterations
  {
    var u := ImproveAll(es, bounds, g);
    if u.rc && iterations < ImproveCap then ImproveCapped(es, u.bounds, g, iterations + 1) else u.bounds
  }

  lemma {:induction false} ImproveCappedSound(es: seq<IEquation>, bounds: seq<IBounds>, g: int, iterations: nat, x: seq<int>)
    requires WellSigned(es, |bounds|) && Holds(x, bounds, g) && SatisfiesAll(es, x) && iterations <= ImproveCap
    ensures Holds(x, ImproveCapped(es, bounds, g, iterations), g)
    decreases ImproveCap - iterations
  {
    ImproveSound(es, bounds, g, x);
    var u := ImproveAll(es, bounds, g);
    if u.rc && iterations < ImproveCap {
      ImproveCappedSound(es, u.bounds, g, iterations + 1, x);
    }
  }

  /**
   * `SafeToRemoveSecondaryCell` up to `getSafety`: one simplification and
   * one setting of the initial bounds (results ignored), the simplification
   * loop, then improvement until nothing more moves.
   */
  function Attack(es: seq<IEquation>, bounds: seq<IBounds>, g: int): (r: (seq<IEquation>, seq<IBounds>))
    requires AllIn(es, |bounds|)
    ensures AllIn(r.0, |bounds|) && |r.1| == |bounds| && Shrunk(es, r.0)
  {
    var s1 := Simplified(es, bounds).0;
    var s := SimplifyLoop(s1, SetInitialAll(s1, bounds));
    (s.0, ImproveUntilStable(s.0, s.1, g))
  }

  /**
   * The attack is sound: every table within the bounds and [0, grand total]
   * that satisfies the consolidated equations satisfies the equations it
   * leaves and lies within the bounds it computes.
   */
  lemma AttackSound(es: seq<IEquation>, bounds: seq<IBounds>, g: int, x: seq<int>)
    requires WellSigned(es, |bounds|) && Holds(x, bounds, g) && SatisfiesAll(es, x)
    ensures SatisfiesAll(Attack(es, bounds, g).0, x) && Holds(x, Attack(es, bounds, g).1, g)
  {
    var s1 := Simplified(es, bounds).0;
    SimplifiedSound(es, bounds, g, x);
    SetInitialSound(s1, bounds, g, x);
    var s := SimplifyLoop(s1, SetInitialAll(s1, bounds));
    SimplifyLoopSound(s1, SetInitialAll(s1, bounds), g, x);
    ImproveUntilStableSound(s.0, s.1, g, x);
  }

  /**
   * The attack of `RecordExistingExposure`: the initial bounds are always
   * set; only when no equation is empty do the simplification loop and at
   * most six improvements follow. The flag says whether they did.
   */
  function Recorded(es: seq<IEquation>, bounds: seq<IBounds>, g: int): (r: (seq<IEquation>, seq<IBounds>, bool))
    requires AllIn(es, |bounds|)
    ensures AllIn(r.0, |bounds|) && |r.1| == |bounds| && Shrunk(es, r.0) && (r.2 <==> NoEmpty(es))
  {
    var b := SetInitialAll(es, bounds);
    if NoEmpty(es) then
      var s := SimplifyLoop(es, b);
      (s.0, ImproveCapped(s.0, s.1, g, 0), true)
    else (es, b, false)
  }

  lemma RecordedSound(es: seq<IEquation>, bounds: seq<IBounds>, g: int, x: seq<int>)
    requires WellSigned(es, |bounds|) && Tidied(es) && Holds(x, bounds, g) && SatisfiesAll(es, x)
    ensures SatisfiesAll(Recorded(es, bounds, g).0, x) && Holds(x, Recorded(es, bounds, g).1, g)
  {
    SetInitialSound(es, bounds, g, x);
    var b := SetInitialAll(es, bounds);
    if NoEmpty(es) {
      SimplifyLoopSound(es, b, g, x);
      var s := SimplifyLoop(es, b);
      ImproveCappedSound(s.0, s.1, g, 0, x);
    }
  }

  // ---------------------------------------------------------------------------
  // Exposure of the primary cells
  // ---------------------------------------------------------------------------

  /** `temp`: the nominal value less the lower protection level, or 1 when that is negative. */
  function LowerTarget(c: ECell): (t: int)
    ensures t >= 0 && (c.nominal - c.lowerProtection >= 0 ==> t == c.nominal - c.lowerProtection)
    ensures c.nominal - c.lowerProtection < 0 ==> t == 1
  {
    if c.nominal - c.lowerProtection < 0 then 1 else c.nominal - c.lowerProtection
  }

  /** What the intruder learns about a primary cell. */
  datatype Exposure = Found | Broken | Intact

  /**
   * The tests of `getSafety` and `RecordExistingExposure`: bounds that
   * coincide find the value; a lower bound within the safety margin above
   * the lower target, or an upper bound within it below the nominal value
   * plus the upper protection, break the protection.
   */
  function ExposureOf(c: ECell, b: IBounds): (r: Exposure)
    ensures r == Found <==> b.lower == b.upper
    ensures r == Intact <==>
              b.lower != b.upper && b.lower + SafetyMargin <= LowerTarget(c) &&
              c.nominal + c.upperProtection <= b.upper - SafetyMargin
  {
    if b.lower == b.upper then Found
    else if b.lower + SafetyMargin > LowerTarget(c) then Broken
    else if b.upper - SafetyMargin < c.nominal + c.upperProtection then Broken
    else Intact
  }

  /** `nsup_found_1` and `nsup_bounds_broken_1`. */
  datatype Tally = Tally(found: nat, broken: nat)

  function Counted(t: Tally, e: Exposure): Tally
  {
    match e
    case Found => t.(found := t.found + 1)
    case Broken => t.(broken := t.broken + 1)
    case Intact => t
  }

  /** The two counters over the listed cells. */
  function TallyOf(ps: seq<int>, cells: seq<ECell>, bounds: seq<IBounds>): (t: Tally)
    requires |bounds| == |cells| && forall k :: 0 <= k < |ps| ==> 0 <= ps[k] < |cells|
    ensures t.found + t.broken <= |ps|
  {
    if ps == [] then Tally(0, 0)
    else
      var c := ps[|ps| - 1];
      Counted(TallyOf(ps[..|ps| - 1], cells, bounds), ExposureOf(cells[c], bounds[c]))
  }

  lemma TallySnoc(ps: seq<int>, cells: seq<ECell>, bounds: seq<IBounds>, i: nat)
    requires |bounds| == |cells| && forall k :: 0 <= k < |ps| ==> 0 <= ps[k] < |cells|
    requires i < |ps|
    ensures TallyOf(ps[..i + 1], cells, bounds) == Counted(TallyOf(ps[..i], cells, bounds), ExposureOf(cells[ps[i]], bounds[ps[i]]))
  {
    assert ps[..i + 1][..i] == ps[..i];
  }

  /** Scanning one more cell adds its exposure when it is primary. */
  lemma PrimaryTallySnoc(cells: seq<ECell>, bounds: seq<IBounds>, i: nat)
    requires |bounds| == |cells| && i < |cells|
    ensures var st := EStatuses(cells);
            TallyOf(IndicesOf(st[..i + 1], Primary), cells, bounds) ==
              if cells[i].status == Primary
              then Counted(TallyOf(IndicesOf(st[..i], Primary), cells, bounds), ExposureOf(cells[i], bounds[i]))
              else TallyOf(IndicesOf(st[..i], Primary), cells, bounds)
  {
    var st := EStatuses(cells);
    CountPrefix(st, i + 1, Primary);
    var ps := IndicesOf(st[..i], Primary);
    if cells[i].status == Primary {
      assert (ps + [i])[..|ps|] == ps;
      assert TallyOf(ps + [i], cells, bounds) == Counted(TallyOf(ps, cells, bounds), ExposureOf(cells[i], bounds[i]));
    } else {
      assert IndicesOf(st[..i + 1], Primary) == ps;
    }
  }

  /** No more cells found and no more protections broken than recorded at the start. */
  predicate WithinInitial(t: Tally, found0: int, broken0: int)
  {
    t.found <= found0 && t.broken <= broken0
  }

  /** The counters only grow along the list. */
  lemma {:induction false} TallyPrefix(ps: seq<int>, cells: seq<ECell>, bounds: seq<IBounds>, i: nat)
    requires |bounds| == |cells| && forall k :: 0 <= k < |ps| ==> 0 <= ps[k] < |cells|
    requires i <= |ps|
    ensures TallyOf(ps[..i], cells, bounds).found <= TallyOf(ps, cells, bounds).found
    ensures TallyOf(ps[..i], cells, bounds).broken <= TallyOf(ps, cells, bounds).broken
  {
    if i < |ps| {
      var n := |ps| - 1;
      assert ps[..n][..i] == ps[..i];
      TallyPrefix(ps[..n], cells, bounds, i);
    } else {
      assert ps[..i] == ps;
    }
  }

  /**
   * Narrower ordered bounds never un-expose a cell: a found cell stays
   * found, and a broken one stays broken or becomes found.
   */
  lemma ExposureNarrowing(c: ECell, b: IBounds, b2: IBounds)
    requires b.lower <= b.upper && b.lower <= b2.lower <= b2.upper <= b.upper
    ensures ExposureOf(c, b) == Found ==> ExposureOf(c, b2) == Found
    ensures ExposureOf(c, b) == Broken ==> ExposureOf(c, b2) != Intact
  {
  }

  /**
   * More information never makes the count of exposed primaries fall:
   * over narrower ordered bounds the found count does not fall, nor does
   * the found and broken count together.
   */
  lemma {:induction false} TallyNarrowing(ps: seq<int>, cells: seq<ECell>, b: seq<IBounds>, b2: seq<IBounds>)
    requires |b| == |cells| && forall k :: 0 <= k < |ps| ==> 0 <= ps[k] < |cells|
    requires Ordered(b) && Ordered(b2) && Narrower(b, b2)
    ensures TallyOf(ps, cells, b).found <= TallyOf(ps, cells, b2).found
    ensures TallyOf(ps, cells, b).found + TallyOf(ps, cells, b).broken <=
            TallyOf(ps, cells, b2).found + TallyOf(ps, cells, b2).broken
  {
    if ps != [] {
      var c := ps[|ps| - 1];
      TallyNarrowing(ps[..|ps| - 1], cells, b, b2);
      ExposureNarrowing(cells[c], b[c], b2[c]);
    }
  }

  // ---------------------------------------------------------------------------
  // The candidates for removal
  // ---------------------------------------------------------------------------

  /** The counts of the marking loop over one consistency equation. */
  datatype Census = Census(primaries: nat, secondaries: nat, removable: nat)

  function CensusOf(terms: seq<Term>, cells: seq<ECell>, rem: seq<bool>): (r: Census)
    requires U.TermsIn(terms, |cells|) && |rem| == |cells|
    ensures r.removable <= r.secondaries && r.primaries + r.secondaries <= |terms|
  {
    if terms == [] then Census(0, 0, 0)
    else
      var r := CensusOf(terms[..|terms| - 1], cells, rem);
      var c := terms[|terms| - 1].cell;
      if cells[c].status == Primary then r.(primaries := r.primaries + 1)
      else if cells[c].status == Secondary then
        r.(secondaries := r.secondaries + 1, removable := r.removable + if rem[c] then 1 else 0)
      else r
  }

  /**
   * The equation needs all its secondary cells: one primary protected by a
   * single secondary, or two secondaries protecting each other of which
   * one is already kept.
   */
  predicate Protecting(c: Census)
  {
    (c.primaries == 1 && c.secondaries == 1) || (c.primaries == 0 && c.secondaries == 2 && c.removable == 1)
  }

  /** The cells of the terms, in order. */
  function CellsOf(terms: seq<Term>): (r: seq<int>)
    ensures |r| == |terms| && forall k :: 0 <= k < |terms| ==> r[k] == terms[k].cell
  {
    seq(|terms|, k requires 0 <= k < |terms| => terms[k].cell)
  }

  /** Every secondary cell of the equation marked as not removable, and nothing else changed. */
  function Unmark(terms: seq<Term>, cells: seq<ECell>, rem: seq<bool>): (r: seq<bool>)
    requires U.TermsIn(terms, |cells|) && |rem| == |cells|
    ensures |r| == |rem|
    ensures forall c :: 0 <= c < |r| ==> (r[c] <==> rem[c] && !(cells[c].status == Secondary && c in CellsOf(terms)))
  {
    if terms == [] then rem
    else
      var n := |terms| - 1;
      var r := Unmark(terms[..n], cells, rem);
      var c := terms[n].cell;
      assert CellsOf(terms) == CellsOf(terms[..n]) + [c];
      if cells[c].status == Secondary then r[c := false] else r
  }

  /** One consistency equation of a marking pass. */
  function MarkEquation(e: IEquation, cells: seq<ECell>, rem: seq<bool>): (r: seq<bool>)
    requires U.TermsIn(e.terms, |cells|) && |rem| == |cells|
    ensures |r| == |rem| && forall c :: 0 <= c < |r| && r[c] ==> rem[c]
  {
    if |e.terms| > 0 && Protecting(CensusOf(e.terms, cells, rem)) then Unmark(e.terms, cells, rem) else rem
  }

  /** One pass over the consistency equations. */
  function MarkPass(es: seq<IEquation>, cells: seq<ECell>, rem: seq<bool>): (r: seq<bool>)
    requires AllIn(es, |cells|) && |rem| == |cells|
    ensures |r| == |rem| && forall c :: 0 <= c < |r| && r[c] ==> rem[c]
  {
    if es == [] then rem
    else MarkEquation(es[|es| - 1], cells, MarkPass(es[..|es| - 1], cells, rem))
  }

  /** `k` passes. */
  function MarkPasses(es: seq<IEquation>, cells: seq<ECell>, rem: seq<bool>, k: nat): (r: seq<bool>)
    requires AllIn(es, |cells|) && |rem| == |cells|
    ensures |r| == |rem| && forall c :: 0 <= c < |r| && r[c] ==> rem[c]
    decreases k
  {
    if k == 0 then rem else MarkPasses(es, cells, MarkPass(es, cells, rem), k - 1)
  }

  /** The number of marking passes. */
  const MarkingPasses: nat := 6

  /** Every secondary cell starts as a candidate. */
  function InitialRemovable(cells: seq<ECell>): (r: seq<bool>)
    ensures |r| == |cells| && forall c :: 0 <= c < |cells| ==> (r[c] <==> cells[c].status == Secondary)
  {
    seq(|cells|, c requires 0 <= c < |cells| => cells[c].status == Secondary)
  }

  /** The `removable` flags after the six marking passes; only secondary cells are candidates. */
  function Candidates(es: seq<IEquation>, cells: seq<ECell>): (r: seq<bool>)
    requires AllIn(es, |cells|)
    ensures |r| == |cells| && forall c :: 0 <= c < |cells| && r[c] ==> cells[c].status == Secondary
  {
    MarkPasses(es, cells, InitialRemovable(cells), MarkingPasses)
  }

  /** A secondary cell that is the only one protecting a single primary is kept after a pass. */
  lemma {:induction false} MarkPassKeepsLoneSecondary(es: seq<IEquation>, cells: seq<ECell>, rem: seq<bool>, i: nat, k: nat)
    requires AllIn(es, |cells|) && |rem| == |cells| && i < |es| && k < |es[i].terms|
    requires CensusOf(es[i].terms, cells, rem).primaries == 1 && CensusOf(es[i].terms, cells, rem).secondaries == 1
    requires cells[es[i].terms[k].cell].status == Secondary
    ensures !MarkPass(es, cells, rem)[es[i].terms[k].cell]
  {
    var n := |es| - 1;
    var c := es[i].terms[k].cell;
    assert c == CellsOf(es[i].terms)[k];
    if i < n {
      assert es[..n][i] == es[i];
      MarkPassKeepsLoneSecondary(es[..n], cells, rem, i, k);
    } else {
      var prev := MarkPass(es[..n], cells, rem);
      CensusOfPrimariesSecondaries(es[i].terms, cells, rem, prev);
    }
  }

  /** The primary and secondary counts of the census do not depend on the flags. */
  lemma {:induction false} CensusOfPrimariesSecondaries(terms: seq<Term>, cells: seq<ECell>, rem: seq<bool>, rem2: seq<bool>)
    requires U.TermsIn(terms, |cells|) && |rem| == |cells| == |rem2|
    ensures CensusOf(terms, cells, rem).primaries == CensusOf(terms, cells, rem2).primaries
    ensures CensusOf(terms, cells, rem).secondaries == CensusOf(terms, cells, rem2).secondaries
  {
    if terms != [] {
      CensusOfPrimariesSecondaries(terms[..|terms| - 1], cells, rem, rem2);
    }
  }

  /**
   * After the six marking passes, every secondary cell of a consistency
   * equation with exactly one primary and one secondary cell is kept.
   */
  lemma CandidatesKeepLoneSecondary(es: seq<IEquation>, cells: seq<ECell>, i: nat, k: nat)
    requires AllIn(es, |cells|) && i < |es| && k < |es[i].terms|
    requires CensusOf(es[i].terms, cells, InitialRemovable(cells)).primaries == 1
    requires CensusOf(es[i].terms, cells, InitialRemovable(cells)).secondaries == 1
    requires cells[es[i].terms[k].cell].status == Secondary
    ensures !Candidates(es, cells)[es[i].terms[k].cell]
  {
    var rem := InitialRemovable(cells);
    MarkPassKeepsLoneSecondary(es, cells, rem, i, k);
  }

  // ---------------------------------------------------------------------------
  // Backups and the order of the candidates
  // ---------------------------------------------------------------------------

  /** What `backup_Consolidated_Equations` saves: the equations that still have terms. */
  function NonEmptyOf(es: seq<IEquation>): (r: seq<IEquation>)
    ensures NoEmpty(r) && |r| <= |es| && (NoEmpty(es) ==> r == es)
    ensures forall i :: 0 <= i < |r| ==> r[i] in es
  {
    if es == [] then []
    else
      var n := |es| - 1;
      var front := NonEmptyOf(es[..n]);
      assert forall i :: 0 <= i < n ==> es[..n][i] in es;
      if es[n].terms != [] then front + [es[n]] else front
  }

  /** A backup taken after a restore is the same backup: restoring after a backup is idempotent. */
  lemma NonEmptyOfIdempotent(es: seq<IEquation>)
    ensures NonEmptyOf(NonEmptyOf(es)) == NonEmptyOf(es)
  {
  }

  /** The weight of a cell, 0 outside the table. */
  function WeightOf(cells: seq<ECell>, x: int): int
  {
    if 0 <= x < |cells| then cells[x].weight else 0
  }

  /** `OrderedCells` in non-increasing weight, largest first. */
  predicate HeaviestFirst(o: seq<int>, cells: seq<ECell>)
  {
    forall p, q :: 0 <= p < q < |o| ==> WeightOf(cells, o[p]) >= WeightOf(cells, o[q])
  }

  /**
   * While the exchange sort of `init_ordered_cells` runs: every one of the
   * first `i` positions weighs at least as much as every later position.
   */
  predicate Settled(o: seq<int>, cells: seq<ECell>, i: int)
  {
    forall p, q :: 0 <= p < q < |o| && p < i ==> WeightOf(cells, o[p]) >= WeightOf(cells, o[q])
  }

  /** Settling every position is ordering by weight. */
  lemma SettledHeaviestFirst(o: seq<int>, cells: seq<ECell>)
    requires Settled(o, cells, |o|)
    ensures HeaviestFirst(o, cells)
  {
  }

  // ---------------------------------------------------------------------------
  // The flat arrays of processing equations
  // ---------------------------------------------------------------------------

  /** `index(x, y)`: the slot of term `y` of consolidated equation `x`, rows of `b` slots. */
  function Index(x: int, y: int, b: int): int
  {
    x * b + y
  }

  lemma MulMonotone(a: int, c: int, b: int)
    requires 0 <= a <= c && 0 <= b
    ensures a * b <= c * b
  {
  }

  /** Every slot of the first `n` rows lies in an array of `n * b` entries. */
  lemma IndexBelow(x: int, y: int, b: int, n: int)
    requires 0 <= x < n && 0 <= y < b
    ensures 0 <= Index(x, y, b) < n * b
  {
    MulMonotone(x + 1, n, b);
  }

  /** Distinct (equation, term) pairs have distinct slots, as long as no row overflows. */
  lemma IndexInjective(x: int, y: int, x2: int, y2: int, b: int)
    requires 0 <= x && 0 <= x2 && 0 <= y < b && 0 <= y2 < b
    requires Index(x, y, b) == Index(x2, y2, b)
    ensures x == x2 && y == y2
  {
    if x < x2 {
      MulMonotone(x + 1, x2, b);
    } else if x2 < x {
      MulMonotone(x2 + 1, x, b);
    }
  }

  lemma IndexInjectiveAll(x: int, y: int, b: int)
    requires 0 <= x && 0 <= y < b
    ensures forall x2, y2 :: 0 <= x2 && 0 <= y2 < b && Index(x2, y2, b) == Index(x, y, b) ==> x2 == x && y2 == y
  {
    forall x2, y2 | 0 <= x2 && 0 <= y2 < b && Index(x2, y2, b) == Index(x, y, b)
      ensures x2 == x && y2 == y
    {
      IndexInjective(x2, y2, x, y, b);
    }
  }

  /** `biggestConsEqn`: the size of the largest equation, 0 when there is none with a term. */
  function Biggest(es: seq<IEquation>): (b: nat)
    ensures forall i :: 0 <= i < |es| ==> |es[i].terms| <= b
    ensures b == 0 <==> forall i :: 0 <= i < |es| ==> es[i].terms == []
    ensures b > 0 ==> exists i :: 0 <= i < |es| && |es[i].terms| == b
  {
    if es == [] then 0
    else
      var n := |es| - 1;
      var b := Biggest(es[..n]);
      assert forall i :: 0 <= i < n ==> es[..n][i] == es[i];
      if |es[n].terms| > b then |es[n].terms| else b
  }

  /** The equations fit arrays of `len` entries laid out in rows of `b` slots. */
  predicate FitsIn(es: seq<IEquation>, b: int, len: int)
  {
    |es| * b <= len && forall i :: 0 <= i < |es| ==> |es[i].terms| <= b
  }

  /** Simplification keeps the equations within the arrays allocated for them. */
  lemma FitsShrunk(a: seq<IEquation>, c: seq<IEquation>, b: int, len: int)
    requires FitsIn(a, b, len) && Shrunk(a, c)
    ensures FitsIn(c, b, len)
  {
  }

  /** So does a backup. */
  lemma NonEmptyOfFits(es: seq<IEquation>, b: int, len: int)
    requires FitsIn(es, b, len) && b >= 0
    ensures FitsIn(NonEmptyOf(es), b, len)
  {
    var r := NonEmptyOf(es);
    MulMonotone(|r|, |es|, b);
    forall i | 0 <= i < |r|
      ensures |r[i].terms| <= b
    {
      var k :| 0 <= k < |es| && es[k] == r[i];
    }
  }

  /** A backup names only cells the equations named. */
  lemma NonEmptyOfIn(es: seq<IEquation>, n: int)
    requires AllIn(es, n)
    ensures AllIn(NonEmptyOf(es), n)
  {
    var r := NonEmptyOf(es);
    forall i | 0 <= i < |r|
      ensures U.TermsIn(r[i].terms, n)
    {
      var k :| 0 <= k < |es| && es[k] == r[i];
    }
  }

  // ---------------------------------------------------------------------------
  // The cost of a suppression pattern
  // ---------------------------------------------------------------------------

  /** `getCost`: the unscaled weights of the cells the pattern suppresses. */
  function CostOf(table: seq<Cell>, cells: seq<ECell>): real
    requires |table| == |cells|
  {
    if table == [] then 0.0
    else
      var n := |table| - 1;
      CostOf(table[..n], cells[..n]) + if IsSuppressed(cells[n].status) then table[n].weight else 0.0
  }

  /** Publishing a secondary cell lowers the cost by exactly its weight. */
  lemma {:induction false} CostOfPublishing(table: seq<Cell>, cells: seq<ECell>, j: int)
    requires |table| == |cells| && 0 <= j < |cells| && cells[j].status == Secondary
    ensures CostOf(table, cells[j := cells[j].(status := Safe)]) == CostOf(table, cells) - table[j].weight
  {
    var n := |table| - 1;
    var after := cells[j := cells[j].(status := Safe)];
    if j < n {
      assert after[..n] == cells[..n][j := cells[j].(status := Safe)];
      CostOfPublishing(table[..n], cells[..n], j);
    } else {
      assert after[..n] == cells[..n];
    }
  }

  // ---------------------------------------------------------------------------
  // The exchange sort of `init_ordered_cells`
  // ---------------------------------------------------------------------------

  /** One turn of the inner loop: positions i and j exchanged when the cell at j weighs more. */
  function Exchange(o: seq<int>, cells: seq<ECell>, i: int, j: int): (r: seq<int>)
    requires 0 <= i < |o| && 0 <= j < |o|
    ensures multiset(r) == multiset(o) && |r| == |o|
  {
    if WeightOf(cells, o[i]) < WeightOf(cells, o[j]) then SwapKeeps(o, i, j); Swap(o, i, j) else o
  }

  /** No two positions hold the same cell. */
  predicate Distinct(o: seq<int>)
  {
    forall p, q :: 0 <= p < q < |o| ==> o[p] != o[q]
  }

  /**
   * A turn of the inner loop keeps the first i positions settled, makes
   * position i at least as heavy as every position up to j, and keeps the
   * entries distinct.
   */
  lemma ExchangeKeeps(o: seq<int>, cells: seq<ECell>, i: int, j: int)
    requires 0 <= i < j < |o| && Settled(o, cells, i) && Distinct(o)
    requires forall q :: i < q < j ==> WeightOf(cells, o[i]) >= WeightOf(cells, o[q])
    ensures var r := Exchange(o, cells, i, j);
            Settled(r, cells, i) && Distinct(r) &&
            forall q :: i < q <= j ==> WeightOf(cells, r[i]) >= WeightOf(cells, r[q])
  {
    var r := Exchange(o, cells, i, j);
    if WeightOf(cells, o[i]) < WeightOf(cells, o[j]) {
      forall p, q | 0 <= p < q < |r| && p < i
        ensures WeightOf(cells, r[p]) >= WeightOf(cells, r[q])
      {
        if q == i {
          assert r[q] == o[j];
        } else if q == j {
          assert r[q] == o[i];
        }
      }
      forall p, q | 0 <= p < q < |r|
        ensures r[p] != r[q]
      {
        var p' := if p == i then j else if p == j then i else p;
        var q' := if q == i then j else if q == j then i else q;
        assert r[p] == o[p'] && r[q] == o[q'] && p' != q';
      }
    }
  }

  /** Finishing the inner loop settles position i. */
  lemma SettledNext(o: seq<int>, cells: seq<ECell>, i: int)
    requires 0 <= i < |o| && Settled(o, cells, i)
    requires forall q :: i < q < |o| ==> WeightOf(cells, o[i]) >= WeightOf(cells, o[q])
    ensures Settled(o, cells, i + 1)
  {
  }

  // ---------------------------------------------------------------------------
  // The greedy removal of `eliminate_secondary_suppression`
  // ---------------------------------------------------------------------------

  /**
   * What the removal loop carries from one cell to the next: the cells,
   * the consolidated equations, the bounds and
   * `number_of_secondary_cells_removed`. The backups always equal the
   * equations that still have terms and the bounds.
   */
  datatype Pattern = Pattern(cells: seq<ECell>, es: seq<IEquation>, bounds: seq<IBounds>, removed: nat)

  predicate PatternOk(p: Pattern)
  {
    |p.bounds| == |p.cells| && AllIn(p.es, |p.cells|)
  }

  /** What the removal is judged against: the primary cells, `grand_total` and the initial counts. */
  datatype Reference = Reference(primaries: seq<int>, g: int, found: int, broken: int)

  predicate ReferenceOk(rf: Reference, n: int)
  {
    forall k :: 0 <= k < |rf.primaries| ==> 0 <= rf.primaries[k] < n
  }

  /** The attack on the pattern with cell j published and pinned at its value. */
  function AttackPublished(p: Pattern, j: int, g: int): (a: (seq<IEquation>, seq<IBounds>))
    requires PatternOk(p) && 0 <= j < |p.cells|
    ensures AllIn(a.0, |p.cells|) && |a.1| == |p.cells| && Shrunk(p.es, a.0)
  {
    Attack(p.es, p.bounds[j := IBounds(p.cells[j].nominal, p.cells[j].nominal)], g)
  }

  /**
   * One removable cell j, given the attack `a` on the pattern with j
   * published: kept published when no more primary cells are found or
   * broken than at the start, otherwise marked secondary again with the
   * equations and bounds restored from the backups.
   */
  function Judged(p: Pattern, j: int, rf: Reference, a: (seq<IEquation>, seq<IBounds>)): (r: Pattern)
    requires PatternOk(p) && 0 <= j < |p.cells| && ReferenceOk(rf, |p.cells|)
    requires AllIn(a.0, |p.cells|) && |a.1| == |p.cells|
    ensures PatternOk(r) && |r.cells| == |p.cells|
    ensures (r.removed == p.removed + 1 && r.cells == p.cells[j := p.cells[j].(status := Safe)]) ||
            (r.removed == p.removed && r.cells == p.cells[j := p.cells[j].(status := Secondary)] &&
             r.bounds == p.bounds)
  {
    var published := p.cells[j := p.cells[j].(status := Safe)];
    if WithinInitial(TallyOf(rf.primaries, published, a.1), rf.found, rf.broken)
    then Pattern(published, a.0, a.1, p.removed + 1)
    else
      NonEmptyOfIn(p.es, |p.cells|);
      Pattern(p.cells[j := p.cells[j].(status := Secondary)], NonEmptyOf(p.es), p.bounds, p.removed)
  }

  /** One turn of the removal loop for a removable cell j: publish, attack, judge. */
  function Trial(p: Pattern, j: int, rf: Reference): (r: Pattern)
    requires PatternOk(p) && 0 <= j < |p.cells| && ReferenceOk(rf, |p.cells|)
    ensures PatternOk(r) && |r.cells| == |p.cells|
    ensures (r.removed == p.removed + 1 && r.cells == p.cells[j := p.cells[j].(status := Safe)]) ||
            (r.removed == p.removed && r.cells == p.cells[j := p.cells[j].(status := Secondary)] &&
             r.bounds == p.bounds)
  {
    Judged(p, j, rf, AttackPublished(p, j, rf.g))
  }

  /**
   * The state the removal loop starts from: the consolidated equations
   * (consolidated afresh when there are none), the initial bounds narrowed
   * by `set_initial_lower_and_upper_bounds`, nothing removed yet.
   */
  function EliminationStart(consistency: seq<IEquation>, es: seq<IEquation>, cells: seq<ECell>, g: int): (p: Pattern)
    requires AllIn(es, |cells|)
    ensures PatternOk(p) && p.cells == cells && p.removed == 0 && (es != [] ==> p.es == es)
  {
    var es1 := if es == [] then Consolidation(consistency, cells) else es;
    Pattern(cells, es1, SetInitialAll(es1, InitialBounds(cells, g)), 0)
  }

  /** The removal loop over the cells of `o` in turn, trying those flagged removable. */
  function Eliminated(o: seq<int>, rem: seq<bool>, p: Pattern, rf: Reference): (r: Pattern)
    requires PatternOk(p) && |rem| == |p.cells| && ReferenceOk(rf, |p.cells|)
    requires forall k :: 0 <= k < |o| ==> 0 <= o[k] < |p.cells|
    ensures PatternOk(r) && |r.cells| == |p.cells| && r.removed <= p.removed + |o|
  {
    if o == [] then p
    else
      var q := Eliminated(o[..|o| - 1], rem, p, rf);
      var j := o[|o| - 1];
      if rem[j] then Trial(q, j, rf) else q
  }

  /** The exposure of a cell does not depend on its status. */
  lemma {:induction false} TallyIgnoresStatus(ps: seq<int>, cells: seq<ECell>, bounds: seq<IBounds>, j: int, s: char)
    requires |bounds| == |cells| && 0 <= j < |cells| && forall k :: 0 <= k < |ps| ==> 0 <= ps[k] < |cells|
    ensures TallyOf(ps, cells[j := cells[j].(status := s)], bounds) == TallyOf(ps, cells, bounds)
  {
    if ps != [] {
      TallyIgnoresStatus(ps[..|ps| - 1], cells, bounds, j, s);
    }
  }

  /**
   * Once a cell has been removed, the current bounds (those of the last
   * successful attack) find and break no more primary cells than at the
   * start: the published pattern is as safe as the original.
   */
  lemma {:induction false} EliminatedSafe(o: seq<int>, rem: seq<bool>, p: Pattern, rf: Reference)
    requires PatternOk(p) && |rem| == |p.cells| && ReferenceOk(rf, |p.cells|)
    requires forall k :: 0 <= k < |o| ==> 0 <= o[k] < |p.cells|
    ensures var r := Eliminated(o, rem, p, rf);
            r.removed > p.removed ==> WithinInitial(TallyOf(rf.primaries, r.cells, r.bounds), rf.found, rf.broken)
  {
    if o != [] {
      var q := Eliminated(o[..|o| - 1], rem, p, rf);
      var j := o[|o| - 1];
      EliminatedSafe(o[..|o| - 1], rem, p, rf);
      if rem[j] {
        TallyIgnoresStatus(rf.primaries, q.cells, q.bounds, j, Secondary);
      }
    }
  }

  /** Cells outside `o` unchanged; those in it unchanged or, when flagged and secondary, published. */
  predicate OnlyPublished(before: seq<ECell>, after: seq<ECell>, o: seq<int>, rem: seq<bool>)
    requires |after| == |before| == |rem|
  {
    forall c :: 0 <= c < |before| ==>
      if c in o then
        after[c] == before[c] || (rem[c] && before[c].status == Secondary && after[c] == before[c].(status := Safe))
      else after[c] == before[c]
  }

  /** The last cell of `o` is not among the ones before it. */
  lemma DistinctLast(o: seq<int>)
    requires Distinct(o) && |o| > 0
    ensures o[|o| - 1] !in o[..|o| - 1]
  {
    var n := |o| - 1;
    forall k | 0 <= k < n
      ensures o[..n][k] != o[n]
    {
      assert o[k] != o[n];
    }
  }

  /** One more trial keeps `OnlyPublished`. */
  lemma OnlyPublishedStep(before: seq<ECell>, mid: seq<ECell>, after: seq<ECell>, o: seq<int>, j: int, rem: seq<bool>)
    requires |mid| == |before| == |rem| == |after| && 0 <= j < |before| && j !in o
    requires OnlyPublished(before, mid, o, rem)
    requires rem[j] ==> before[j].status == Secondary
    requires after == mid || (rem[j] && after == mid[j := mid[j].(status := Safe)]) ||
             (rem[j] && after == mid[j := mid[j].(status := Secondary)])
    ensures OnlyPublished(before, after, o + [j], rem)
  {
    assert mid[j] == before[j];
    forall c | 0 <= c < |before|
      ensures c in o + [j] <==> c in o || c == j
    {
    }
  }

  /**
   * Only flagged cells of `o` change, each from secondary to published,
   * provided every flagged cell is secondary and `o` holds no cell twice.
   */
  lemma {:induction false} EliminatedPublishesOnly(o: seq<int>, rem: seq<bool>, p: Pattern, rf: Reference)
    requires PatternOk(p) && |rem| == |p.cells| && ReferenceOk(rf, |p.cells|)
    requires forall k :: 0 <= k < |o| ==> 0 <= o[k] < |p.cells|
    requires Distinct(o) && forall c :: 0 <= c < |rem| && rem[c] ==> p.cells[c].status == Secondary
    ensures OnlyPublished(p.cells, Eliminated(o, rem, p, rf).cells, o, rem)
  {
    if o == [] {
    } else {
      var n := |o| - 1;
      var q := Eliminated(o[..n], rem, p, rf);
      var j := o[n];
      EliminatedPublishesOnly(o[..n], rem, p, rf);
      DistinctLast(o);
      assert o == o[..n] + [j];
      OnlyPublishedStep(p.cells, q.cells, Eliminated(o, rem, p, rf).cells, o[..n], j, rem);
    }
  }

  /** Setting position j to `x` changes the count of `c` by what it held and what it holds. */
  lemma {:induction false} CountUpdate<T>(s: seq<T>, j: int, x: T, c: T)
    requires 0 <= j < |s|
    ensures Count(s[j := x], c) + (if s[j] == c then 1 else 0) == Count(s, c) + (if x == c then 1 else 0)
  {
    var n := |s| - 1;
    if j < n {
      assert s[j := x][..n] == s[..n][j := x];
      CountUpdate(s[..n], j, x, c);
    } else {
      assert s[j := x][..n] == s[..n];
    }
  }

  /** Publishing a secondary cell adds one safe cell. */
  lemma PublishCount(cells: seq<ECell>, j: int)
    requires 0 <= j < |cells| && cells[j].status == Secondary
    ensures Count(EStatuses(cells[j := cells[j].(status := Safe)]), Safe) == Count(EStatuses(cells), Safe) + 1
  {
    var st := EStatuses(cells);
    assert EStatuses(cells[j := cells[j].(status := Safe)]) == st[j := Safe];
    CountUpdate(st, j, Safe, Safe);
  }

  /**
   * `number_of_secondary_cells_removed` counts exactly the cells the loop
   * published: the number of safe cells grows by it.
   */
  lemma {:induction false} EliminatedCount(o: seq<int>, rem: seq<bool>, p: Pattern, rf: Reference)
    requires PatternOk(p) && |rem| == |p.cells| && ReferenceOk(rf, |p.cells|)
    requires forall k :: 0 <= k < |o| ==> 0 <= o[k] < |p.cells|
    requires Distinct(o) && forall c :: 0 <= c < |rem| && rem[c] ==> p.cells[c].status == Secondary
    ensures var r := Eliminated(o, rem, p, rf);
            Count(EStatuses(r.cells), Safe) == Count(EStatuses(p.cells), Safe) + r.removed - p.removed
  {
    if o != [] {
      var n := |o| - 1;
      var q := Eliminated(o[..n], rem, p, rf);
      var j := o[n];
      EliminatedCount(o[..n], rem, p, rf);
      if rem[j] {
        EliminatedPublishesOnly(o[..n], rem, p, rf);
        DistinctLast(o);
        assert q.cells[j] == p.cells[j];
        var r := Trial(q, j, rf);
        if r.removed > q.removed {
          PublishCount(q.cells, j);
        } else {
          assert r.cells == q.cells;
        }
      }
    }
  }

  /**
   * What the removal loop guarantees, from a start with nothing removed:
   * only flagged secondary cells are published, the counter counts them,
   * and after a removal the bounds are those of an attack that found and
   * broke no more primary cells than at the start.
   */
  lemma EliminationOutcome(o: seq<int>, rem: seq<bool>, p: Pattern, rf: Reference)
    requires PatternOk(p) && |rem| == |p.cells| && ReferenceOk(rf, |p.cells|) && p.removed == 0
    requires forall k :: 0 <= k < |o| ==> 0 <= o[k] < |p.cells|
    requires Distinct(o) && forall c :: 0 <= c < |rem| && rem[c] ==> p.cells[c].status == Secondary
    ensures var r := Eliminated(o, rem, p, rf);
            (forall c :: 0 <= c < |p.cells| ==>
               r.cells[c] == p.cells[c] ||
               (rem[c] && p.cells[c].status == Secondary && r.cells[c] == p.cells[c].(status := Safe))) &&
            Count(EStatuses(r.cells), Safe) == Count(EStatuses(p.cells), Safe) + r.removed &&
            (r.removed > 0 ==> WithinInitial(TallyOf(rf.primaries, r.cells, r.bounds), rf.found, rf.broken))
  {
    EliminatedPublishesOnly(o, rem, p, rf);
    EliminatedCount(o, rem, p, rf);
    EliminatedSafe(o, rem, p, rf);
  }
}
