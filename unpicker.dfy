/**
 * The disclosure checker over doubles (`Unpicker.cpp`): it rewrites the
 * consistency equations of a suppressed table into equations over the
 * suppressed cells only, narrows an interval for every suppressed cell by
 * propagating bounds through those equations, and counts the primary cells
 * whose value an intruder can then pin down exactly or within their
 * protection levels. Doubles are modelled as `real`.
 */
module Unpickers {
  import opened Common
  import opened JJData

  /** `struct CellBounds`: what is known about the value of one cell. */
  datatype Bounds = Bounds(lower: real, upper: real)

  // ---------------------------------------------------------------------------
  // Values of the cells and the equations they satisfy
  // ---------------------------------------------------------------------------

  /** Every term names one of `n` cells. */
  predicate TermsIn(terms: seq<Term>, n: int)
  {
    forall k :: 0 <= k < |terms| ==> 0 <= terms[k].cell < n
  }

  /** Every sign is +1 or -1, as in a JJ file. */
  predicate Signed(terms: seq<Term>)
  {
    forall k :: 0 <= k < |terms| ==> terms[k].sign == 1 || terms[k].sign == -1
  }

  /** `plus_or_minus * value`, written out for the signs +1 and -1 of a JJ file. */
  function Scale(sign: int, v: real): real
  {
    if sign == 1 then v else if sign == -1 then -v else sign as real * v
  }

  lemma ScaleNegated(sign: int, v: real)
    ensures Scale(-sign, v) == -Scale(sign, v)
  {
  }

  /** The signed sum of the terms under the cell values `x`. */
  function SignedSum(terms: seq<Term>, x: seq<real>): real
    requires TermsIn(terms, |x|)
  {
    if terms == [] then 0.0
    else SignedSum(terms[..|terms| - 1], x) + Scale(terms[|terms| - 1].sign, x[terms[|terms| - 1].cell])
  }

  /**
   * The cell values `x` satisfy the equation. An equation left with no
   * terms constrains nothing: every pass below skips it.
   */
  predicate Satisfies(e: Equation, x: seq<real>)
    requires TermsIn(e.terms, |x|)
  {
    e.terms == [] || SignedSum(e.terms, x) == e.rhs
  }

  /**
   * `x` could be the true table: every value lies in [0, DBL_MAX] and every
   * published cell has its published value.
   */
  predicate Feasible(x: seq<real>, cells: seq<Cell>)
  {
    |x| == |cells| &&
    forall c :: 0 <= c < |x| ==>
      0.0 <= x[c] <= DblMax && (!IsSuppressed(cells[c].status) ==> x[c] == cells[c].nominal)
  }

  /** Every value lies within its cell's bounds. */
  predicate Within(x: seq<real>, bounds: seq<Bounds>)
  {
    |x| == |bounds| && forall c :: 0 <= c < |x| ==> bounds[c].lower <= x[c] <= bounds[c].upper
  }

  lemma {:induction false} SignedSumAppend(a: seq<Term>, b: seq<Term>, x: seq<real>)
    requires TermsIn(a, |x|) && TermsIn(b, |x|)
    ensures TermsIn(a + b, |x|)
    ensures SignedSum(a + b, x) == SignedSum(a, x) + SignedSum(b, x)
  {
    if b != [] {
      var n := |b| - 1;
      assert (a + b)[..|a + b| - 1] == a + b[..n];
      assert (a + b)[|a + b| - 1] == b[n];
      assert TermsIn(b[..n], |x|);
      SignedSumAppend(a, b[..n], x);
    } else {
      assert a + b == a;
    }
  }

  // ---------------------------------------------------------------------------
  // Initial bounds
  // ---------------------------------------------------------------------------

  /** Suppressed cells may hold anything in [0, DBL_MAX]; the others are pinned at their value. */
  function InitialBound(c: Cell): Bounds
  {
    if IsSuppressed(c.status) then Bounds(0.0, DblMax) else Bounds(c.nominal, c.nominal)
  }

  function InitialBounds(cells: seq<Cell>): (r: seq<Bounds>)
    ensures |r| == |cells|
  {
    seq(|cells|, i requires 0 <= i < |cells| => InitialBound(cells[i]))
  }

  /** The initial bounds hold every table the published figures allow. */
  lemma InitialBoundsSound(cells: seq<Cell>, x: seq<real>)
    requires Feasible(x, cells)
    ensures Within(x, InitialBounds(cells))
    ensures forall c :: 0 <= c < |cells| && !IsSuppressed(cells[c].status) ==>
              InitialBounds(cells)[c].lower == InitialBounds(cells)[c].upper == x[c]
  {
  }

  // ---------------------------------------------------------------------------
  // Consolidation and tidying
  // ---------------------------------------------------------------------------

  /** A term whose cell is in the table and suppressed: the terms consolidation keeps. */
  predicate KeptTerm(t: Term, cells: seq<Cell>)
  {
    0 <= t.cell < |cells| && IsSuppressed(cells[t.cell].status)
  }

  /** The suppressed terms, in their original order. */
  function SuppressedTerms(terms: seq<Term>, cells: seq<Cell>): (r: seq<Term>)
    ensures |r| <= |terms|
    ensures forall k :: 0 <= k < |r| ==> KeptTerm(r[k], cells) && r[k] in terms
    ensures forall k :: 0 <= k < |terms| && KeptTerm(terms[k], cells) ==> terms[k] in r
  {
    if terms == [] then []
    else
      var t := terms[|terms| - 1];
      var front := SuppressedTerms(terms[..|terms| - 1], cells);
      assert forall k :: 0 <= k < |terms| - 1 ==> terms[k] == terms[..|terms| - 1][k];
      if KeptTerm(t, cells) then front + [t] else front
  }

  /** The signed sum of the published values of the published terms in the table. */
  function PublishedSum(terms: seq<Term>, cells: seq<Cell>): real
  {
    if terms == [] then 0.0
    else
      var t := terms[|terms| - 1];
      PublishedSum(terms[..|terms| - 1], cells) +
        if 0 <= t.cell < |cells| && !IsSuppressed(cells[t.cell].status)
        then Scale(t.sign, cells[t.cell].nominal) else 0.0
  }

  /** The equation over the suppressed cells only, the published part moved to the right-hand side. */
  function Reduced(e: Equation, cells: seq<Cell>): Equation
  {
    Equation(e.rhs - PublishedSum(e.terms, cells), SuppressedTerms(e.terms, cells))
  }

  /** Whether consolidation keeps the equation: it has a suppressed cell. */
  predicate HasSuppressed(e: Equation, cells: seq<Cell>)
  {
    SuppressedTerms(e.terms, cells) != []
  }

  /** The first pass of `consolidate_the_consistency_equations`: how many equations it keeps. */
  function NumberWithSuppressed(equations: seq<Equation>, cells: seq<Cell>): (n: nat)
    ensures n <= |equations|
  {
    if equations == [] then 0
    else
      NumberWithSuppressed(equations[..|equations| - 1], cells) +
        if HasSuppressed(equations[|equations| - 1], cells) then 1 else 0
  }

  lemma {:induction false} NumberWithSuppressedMonotone(equations: seq<Equation>, cells: seq<Cell>, i: nat)
    requires i <= |equations|
    ensures NumberWithSuppressed(equations[..i], cells) <= NumberWithSuppressed(equations, cells)
  {
    if i < |equations| {
      var n := |equations| - 1;
      assert equations[..n][..i] == equations[..i];
      NumberWithSuppressedMonotone(equations[..n], cells, i);
    } else {
      assert equations[..i] == equations;
    }
  }

  /** The second pass: the reduced equations that have a suppressed cell, in order. */
  function Reductions(equations: seq<Equation>, cells: seq<Cell>): (r: seq<Equation>)
    ensures |r| == NumberWithSuppressed(equations, cells)
    ensures forall i :: 0 <= i < |r| ==> r[i].terms != [] && TermsIn(r[i].terms, |cells|)
  {
    if equations == [] then []
    else
      var e := equations[|equations| - 1];
      var front := Reductions(equations[..|equations| - 1], cells);
      if HasSuppressed(e, cells) then front + [Reduced(e, cells)] else front
  }

  lemma ReductionsSnoc(equations: seq<Equation>, cells: seq<Cell>, i: nat)
    requires i < |equations|
    ensures NumberWithSuppressed(equations[..i + 1], cells) ==
            NumberWithSuppressed(equations[..i], cells) + if HasSuppressed(equations[i], cells) then 1 else 0
    ensures Reductions(equations[..i + 1], cells) ==
            Reductions(equations[..i], cells) + if HasSuppressed(equations[i], cells) then [Reduced(equations[i], cells)] else []
  {
    assert equations[..i + 1][..i] == equations[..i];
  }

  /** Every sign flipped. */
  function Negated(terms: seq<Term>): (r: seq<Term>)
    ensures |r| == |terms|
    ensures forall k :: 0 <= k < |r| ==> r[k] == Term(terms[k].cell, -terms[k].sign)
  {
    if terms == [] then []
    else
      var t := terms[|terms| - 1];
      Negated(terms[..|terms| - 1]) + [Term(t.cell, -t.sign)]
  }

  /** An equation with a negative right-hand side is multiplied by -1. */
  function Tidy(e: Equation): (r: Equation)
    ensures r.rhs >= 0.0 && |r.terms| == |e.terms|
    ensures forall k :: 0 <= k < |r.terms| ==> r.terms[k].cell == e.terms[k].cell
  {
    if e.rhs < 0.0 then Equation(-e.rhs, Negated(e.terms)) else e
  }

  function TidyAll(es: seq<Equation>): (r: seq<Equation>)
    ensures |r| == |es|
    ensures forall i :: 0 <= i < |r| ==> r[i] == Tidy(es[i])
  {
    seq(|es|, i requires 0 <= i < |es| => Tidy(es[i]))
  }

  /** What consolidation leaves. */
  function Consolidation(equations: seq<Equation>, cells: seq<Cell>): (r: seq<Equation>)
    ensures Tidied(r) && NoEmpty(r)
    ensures forall i :: 0 <= i < |r| ==> TermsIn(r[i].terms, |cells|)
  {
    TidyAll(Reductions(equations, cells))
  }

  /** Whether every equation has a right-hand side of at least 0. */
  predicate Tidied(es: seq<Equation>)
  {
    forall i :: 0 <= i < |es| ==> es[i].rhs >= 0.0
  }

  /** Whether every equation names cells of the table with signs of +1 or -1. */
  predicate WellSigned(es: seq<Equation>, n: int)
  {
    forall i :: 0 <= i < |es| ==> TermsIn(es[i].terms, n) && Signed(es[i].terms)
  }

  lemma {:induction false} NegatedSum(terms: seq<Term>, x: seq<real>)
    requires TermsIn(terms, |x|)
    ensures TermsIn(Negated(terms), |x|)
    ensures SignedSum(Negated(terms), x) == -SignedSum(terms, x)
  {
    if terms != [] {
      NegatedSum(terms[..|terms| - 1], x);
      assert Negated(terms)[..|terms| - 1] == Negated(terms[..|terms| - 1]);
    }
  }

  /** Tidying gives a right-hand side of at least 0 and keeps the equation's solutions. */
  lemma TidySound(e: Equation, x: seq<real>)
    requires TermsIn(e.terms, |x|)
    ensures Tidy(e).rhs >= 0.0 && |Tidy(e).terms| == |e.terms| && TermsIn(Tidy(e).terms, |x|)
    ensures Signed(e.terms) ==> Signed(Tidy(e).terms)
    ensures Satisfies(Tidy(e), x) <==> Satisfies(e, x)
  {
    NegatedSum(e.terms, x);
  }

  /** Splitting a sum into its suppressed and its published terms. */
  lemma {:induction false} SumSplits(terms: seq<Term>, cells: seq<Cell>, x: seq<real>)
    requires Feasible(x, cells) && TermsIn(terms, |x|)
    ensures TermsIn(SuppressedTerms(terms, cells), |x|)
    ensures SignedSum(terms, x) == SignedSum(SuppressedTerms(terms, cells), x) + PublishedSum(terms, cells)
  {
    if terms != [] {
      var n := |terms| - 1;
      SumSplits(terms[..n], cells, x);
      var t := terms[n];
      if KeptTerm(t, cells) {
        var front := SuppressedTerms(terms[..n], cells);
        assert (front + [t])[..|front|] == front;
      }
    }
  }

  /**
   * A table the published figures allow satisfies a reduced equation
   * exactly when it satisfies the original.
   */
  lemma ReducedSound(e: Equation, cells: seq<Cell>, x: seq<real>)
    requires Feasible(x, cells) && TermsIn(e.terms, |x|) && HasSuppressed(e, cells)
    ensures Satisfies(Reduced(e, cells), x) <==> Satisfies(e, x)
  {
    SumSplits(e.terms, cells, x);
  }

  lemma {:induction false} SuppressedSigned(terms: seq<Term>, cells: seq<Cell>)
    requires Signed(terms)
    ensures Signed(SuppressedTerms(terms, cells))
  {
    if terms != [] {
      var n := |terms| - 1;
      SuppressedSigned(terms[..n], cells);
    }
  }

  /** A consolidated equation over suppressed cells, with signs +1 or -1, that `x` satisfies. */
  predicate GoodEquation(e: Equation, cells: seq<Cell>, x: seq<real>)
    requires |x| == |cells|
  {
    e.terms != [] && TermsIn(e.terms, |cells|) && Signed(e.terms) &&
    (forall k :: 0 <= k < |e.terms| ==> IsSuppressed(cells[e.terms[k].cell].status)) &&
    Satisfies(e, x)
  }

  lemma {:induction false} ReductionsSound(equations: seq<Equation>, cells: seq<Cell>, x: seq<real>)
    requires Feasible(x, cells)
    requires WellSigned(equations, |cells|)
    requires forall i :: 0 <= i < |equations| ==> Satisfies(equations[i], x)
    ensures forall i :: 0 <= i < |Reductions(equations, cells)| ==> GoodEquation(Reductions(equations, cells)[i], cells, x)
  {
    if equations != [] {
      var n := |equations| - 1;
      var front := equations[..n];
      assert forall i :: 0 <= i < n ==> front[i] == equations[i];
      ReductionsSound(front, cells, x);
      var e := equations[n];
      if HasSuppressed(e, cells) {
        ReducedSound(e, cells, x);
        SuppressedSigned(e.terms, cells);
        var r := Reductions(front, cells);
        assert Reductions(equations, cells) == r + [Reduced(e, cells)];
        assert GoodEquation(Reduced(e, cells), cells, x);
      }
    }
  }

  /**
   * Consolidation: the first pass counts exactly the equations the second
   * keeps, each kept equation is over suppressed cells only with a
   * right-hand side of at least 0, and every table the published figures
   * allow that satisfies the original equations satisfies the consolidated
   * ones.
   */
  lemma ConsolidationSound(equations: seq<Equation>, cells: seq<Cell>, x: seq<real>)
    requires Feasible(x, cells)
    requires WellSigned(equations, |cells|)
    requires forall i :: 0 <= i < |equations| ==> Satisfies(equations[i], x)
    ensures |Consolidation(equations, cells)| == NumberWithSuppressed(equations, cells)
    ensures Tidied(Consolidation(equations, cells))
    ensures forall i :: 0 <= i < |Consolidation(equations, cells)| ==> GoodEquation(Consolidation(equations, cells)[i], cells, x)
  {
    var r := Reductions(equations, cells);
    ReductionsSound(equations, cells, x);
    forall i | 0 <= i < |r|
      ensures Tidy(r[i]).rhs >= 0.0 && GoodEquation(Tidy(r[i]), cells, x)
    {
      TidySound(r[i], x);
    }
  }

  // ---------------------------------------------------------------------------
  // Simplification
  // ---------------------------------------------------------------------------

  /** A cell whose bounds are within FLOAT_PRECISION of each other: its value is taken as known. */
  predicate Known(b: Bounds)
  {
    Abs(b.upper - b.lower) < FloatPrecision
  }

  /**
   * The `for j` loop over an equation of two or more terms, from position
   * `j`: a known cell is removed (the right-hand side taking its upper bound
   * with the term's sign) and the later terms shift down one place; `j`
   * then moves on, so the term that shifted into place `j` waits for the
   * next pass. Also gives the number of terms removed.
   */
  function SimplifyFrom(e: Equation, j: nat, bounds: seq<Bounds>): (r: (Equation, nat))
    requires TermsIn(e.terms, |bounds|)
    ensures |r.0.terms| + r.1 == |e.terms| && TermsIn(r.0.terms, |bounds|)
    ensures forall k :: 0 <= k < |r.0.terms| ==> r.0.terms[k] in e.terms
    decreases |e.terms| - j
  {
    if j >= |e.terms| then (e, 0)
    else if Known(bounds[e.terms[j].cell]) then
      var r := SimplifyFrom(RemoveTerm(e, j, bounds), j + 1, bounds);
      (r.0, r.1 + 1)
    else SimplifyFrom(e, j + 1, bounds)
  }

  /**
   * The equation with the term at `j` removed, the later terms shifted down,
   * and the right-hand side taking the term's upper bound with its sign.
   */
  function RemoveTerm(e: Equation, j: nat, bounds: seq<Bounds>): (r: Equation)
    requires TermsIn(e.terms, |bounds|) && j < |e.terms|
    ensures r.terms == e.terms[..j] + e.terms[j + 1..]
    ensures |r.terms| == |e.terms| - 1 && TermsIn(r.terms, |bounds|)
    ensures forall k :: 0 <= k < |r.terms| ==> r.terms[k] in e.terms
  {
    var t := e.terms[j];
    var rest := e.terms[..j] + e.terms[j + 1..];
    assert forall k :: 0 <= k < |rest| ==> rest[k] == e.terms[if k < j then k else k + 1];
    Equation(if t.sign == 1 then e.rhs - bounds[t.cell].upper else e.rhs + bounds[t.cell].upper, rest)
  }

  /** One equation's case of the `switch` in `simplify_the_consistency_equations`. */
  function SimplifyEquation(e: Equation, bounds: seq<Bounds>): (r: (Equation, nat))
    requires TermsIn(e.terms, |bounds|)
    ensures |r.0.terms| + r.1 == |e.terms| && TermsIn(r.0.terms, |bounds|)
    ensures forall k :: 0 <= k < |r.0.terms| ==> r.0.terms[k] in e.terms
  {
    if |e.terms| == 0 then (e, 0)
    else if |e.terms| == 1 then
      if Known(bounds[e.terms[0].cell]) then (Equation(e.rhs, []), 1) else (e, 0)
    else SimplifyFrom(e, 0, bounds)
  }

  /** The number of terms over all equations. */
  function TotalTerms(es: seq<Equation>): nat
  {
    if es == [] then 0 else TotalTerms(es[..|es| - 1]) + |es[|es| - 1].terms|
  }

  /** Every equation's terms name cells below `n`. */
  predicate AllTermsIn(es: seq<Equation>, n: int)
  {
    forall i :: 0 <= i < |es| ==> TermsIn(es[i].terms, n)
  }

  /** The equations after the pass over them (before tidying), and the number of terms removed. */
  function SimplifyEach(es: seq<Equation>, bounds: seq<Bounds>): (r: (seq<Equation>, nat))
    requires AllTermsIn(es, |bounds|)
    ensures |r.0| == |es| && TotalTerms(r.0) + r.1 == TotalTerms(es)
    ensures forall i :: 0 <= i < |es| ==> r.0[i] == SimplifyEquation(es[i], bounds).0
  {
    if es == [] then ([], 0)
    else
      var n := |es| - 1;
      var front := SimplifyEach(es[..n], bounds);
      var last := SimplifyEquation(es[n], bounds);
      var r := (front.0 + [last.0], front.1 + last.1);
      assert r.0[..n] == front.0 && r.0[n] == last.0;
      assert TotalTerms(r.0) == TotalTerms(front.0) + |last.0.terms|;
      r
  }

  /** One more equation through `SimplifyEach`. */
  lemma {:induction false} SimplifyEachSnoc(es: seq<Equation>, i: nat, bounds: seq<Bounds>)
    requires i < |es| && AllTermsIn(es, |bounds|)
    ensures SimplifyEach(es[..i + 1], bounds).0 == SimplifyEach(es[..i], bounds).0 + [SimplifyEquation(es[i], bounds).0]
    ensures SimplifyEach(es[..i + 1], bounds).1 == SimplifyEach(es[..i], bounds).1 + SimplifyEquation(es[i], bounds).1
  {
    var p := es[..i + 1];
    assert p[..i] == es[..i] && p[i] == es[i];
    assert AllTermsIn(p, |bounds|) && AllTermsIn(es[..i], |bounds|);
  }

  /** What `simplify_the_consistency_equations` leaves, and what it returns. */
  function Simplified(es: seq<Equation>, bounds: seq<Bounds>): (r: (seq<Equation>, nat))
    requires forall i :: 0 <= i < |es| ==> TermsIn(es[i].terms, |bounds|)
    ensures |r.0| == |es| && Tidied(r.0) && TotalTerms(r.0) + r.1 == TotalTerms(es)
    ensures forall i :: 0 <= i < |r.0| ==> TermsIn(r.0[i].terms, |bounds|)
  {
    var s := SimplifyEach(es, bounds);
    TotalTermsTidy(s.0);
    (TidyAll(s.0), s.1)
  }

  lemma {:induction false} TotalTermsTidy(es: seq<Equation>)
    ensures TotalTerms(TidyAll(es)) == TotalTerms(es)
  {
    if es != [] {
      var n := |es| - 1;
      assert TidyAll(es)[..n] == TidyAll(es[..n]);
      TotalTermsTidy(es[..n]);
    }
  }

  /** Every known cell has the value of its upper bound. */
  predicate ExactWhereKnown(bounds: seq<Bounds>, x: seq<real>)
    requires |x| == |bounds|
  {
    forall c :: 0 <= c < |x| && Known(bounds[c]) ==> x[c] == bounds[c].upper
  }

  lemma RemovedTermSigned(terms: seq<Term>, j: nat)
    requires Signed(terms) && j < |terms|
    ensures Signed(terms[..j] + terms[j + 1..])
  {
    var rest := terms[..j] + terms[j + 1..];
    forall k | 0 <= k < |rest|
      ensures rest[k].sign == 1 || rest[k].sign == -1
    {
      if k < j {
        assert rest[k] == terms[k];
      } else {
        assert rest[k] == terms[k + 1];
      }
    }
  }

  lemma RemoveTermSum(terms: seq<Term>, j: nat, x: seq<real>)
    requires TermsIn(terms, |x|) && j < |terms|
    ensures TermsIn(terms[..j] + terms[j + 1..], |x|)
    ensures SignedSum(terms[..j] + terms[j + 1..], x) ==
            SignedSum(terms, x) - Scale(terms[j].sign, x[terms[j].cell])
  {
    assert terms == terms[..j] + [terms[j]] + terms[j + 1..];
    SignedSumAppend(terms[..j] + [terms[j]], terms[j + 1..], x);
    SignedSumAppend(terms[..j], [terms[j]], x);
    SignedSumAppend(terms[..j], terms[j + 1..], x);
    assert SignedSum([terms[j]], x) == Scale(terms[j].sign, x[terms[j].cell]) by {
      assert [terms[j]][..0] == [];
    }
  }

  /**
   * When every known cell holds its upper bound, removing the known terms
   * leaves the sum minus the right-hand side unchanged.
   */
  lemma {:induction false} SimplifyFromSound(e: Equation, j: nat, bounds: seq<Bounds>, x: seq<real>)
    requires TermsIn(e.terms, |bounds|) && |x| == |bounds| && Signed(e.terms)
    requires ExactWhereKnown(bounds, x)
    ensures Signed(SimplifyFrom(e, j, bounds).0.terms)
    ensures SignedSum(SimplifyFrom(e, j, bounds).0.terms, x) - SimplifyFrom(e, j, bounds).0.rhs ==
            SignedSum(e.terms, x) - e.rhs
    decreases |e.terms| - j, 1
  {
    if j < |e.terms| {
      if Known(bounds[e.terms[j].cell]) {
        SimplifyFromSoundRemoving(e, j, bounds, x);
      } else {
        SimplifyFromSound(e, j + 1, bounds, x);
      }
    }
  }

  /** `SimplifyFromSound` where the term at `j` is known and removed. */
  lemma {:induction false} SimplifyFromSoundRemoving(e: Equation, j: nat, bounds: seq<Bounds>, x: seq<real>)
    requires TermsIn(e.terms, |bounds|) && |x| == |bounds| && Signed(e.terms)
    requires ExactWhereKnown(bounds, x) && j < |e.terms| && Known(bounds[e.terms[j].cell])
    ensures Signed(SimplifyFrom(e, j, bounds).0.terms)
    ensures SignedSum(SimplifyFrom(e, j, bounds).0.terms, x) - SimplifyFrom(e, j, bounds).0.rhs ==
            SignedSum(e.terms, x) - e.rhs
    decreases |e.terms| - j, 0
  {
    RemoveKnownTermSound(e, j, bounds, x);
    SimplifyFromSound(RemoveTerm(e, j, bounds), j + 1, bounds, x);
  }

  /** One removal of a known term keeps the sum minus the right-hand side. */
  lemma {:induction false} RemoveKnownTermSound(e: Equation, j: nat, bounds: seq<Bounds>, x: seq<real>)
    requires TermsIn(e.terms, |bounds|) && |x| == |bounds| && Signed(e.terms)
    requires ExactWhereKnown(bounds, x) && j < |e.terms| && Known(bounds[e.terms[j].cell])
    ensures Signed(RemoveTerm(e, j, bounds).terms)
    ensures SignedSum(RemoveTerm(e, j, bounds).terms, x) - RemoveTerm(e, j, bounds).rhs == SignedSum(e.terms, x) - e.rhs
  {
    RemoveTermSum(e.terms, j, x);
    RemovedTermSigned(e.terms, j);
  }

  /** Simplifying an equation keeps it satisfied when every known cell holds its upper bound. */
  lemma SimplifyEquationSound(e: Equation, bounds: seq<Bounds>, x: seq<real>)
    requires TermsIn(e.terms, |bounds|) && |x| == |bounds| && Signed(e.terms)
    requires ExactWhereKnown(bounds, x) && Satisfies(e, x)
    ensures Signed(SimplifyEquation(e, bounds).0.terms)
    ensures Satisfies(SimplifyEquation(e, bounds).0, x)
  {
    if |e.terms| >= 2 {
      SimplifyFromSound(e, 0, bounds, x);
    }
  }

  /**
   * An instance of the skipped term: with the first two of three cells
   * known, one pass removes the first and leaves the second, which has
   * shifted into place 0 behind the loop.
   */
  lemma SimplifySkipsShiftedTerm()
    ensures var bounds := [Bounds(1.0, 1.0), Bounds(2.0, 2.0), Bounds(0.0, 5.0)];
            var e := Equation(6.0, [Term(0, 1), Term(1, 1), Term(2, 1)]);
            SimplifyEquation(e, bounds) == (Equation(5.0, [Term(1, 1), Term(2, 1)]), 1)
  {
    var bounds := [Bounds(1.0, 1.0), Bounds(2.0, 2.0), Bounds(0.0, 5.0)];
    var e := Equation(6.0, [Term(0, 1), Term(1, 1), Term(2, 1)]);
    var e1 := Equation(5.0, [Term(1, 1), Term(2, 1)]);
    assert e.terms[..0] + e.terms[1..] == e1.terms;
    assert SimplifyFrom(e1, 2, bounds) == (e1, 0);
    assert SimplifyFrom(e1, 1, bounds) == (e1, 0);
  }

  // ---------------------------------------------------------------------------
  // Initial bounds from single equations
  // ---------------------------------------------------------------------------

  /** Whether every term has sign +1. */
  predicate AllPlus(terms: seq<Term>)
  {
    forall k :: 0 <= k < |terms| ==> terms[k].sign == 1
  }

  /** In an equation of non-negative terms, a cell can be neither below 0 nor above the right-hand side. */
  function Cap(b: Bounds, rhs: real): Bounds
  {
    Bounds(if b.lower < 0.0 then 0.0 else b.lower, if b.upper > rhs then rhs else b.upper)
  }

  function CapAll(terms: seq<Term>, rhs: real, bounds: seq<Bounds>): (r: seq<Bounds>)
    requires TermsIn(terms, |bounds|)
    ensures |r| == |bounds|
  {
    if terms == [] then bounds
    else
      var b := CapAll(terms[..|terms| - 1], rhs, bounds);
      var c := terms[|terms| - 1].cell;
      b[c := Cap(b[c], rhs)]
  }

  /**
   * One equation of `set_initial_lower_and_upper_bounds`: a single term is
   * pinned at the right-hand side; an equation of plus terms caps its cells
   * at [0, right-hand side]; anything else gives nothing.
   */
  function SetInitialEquation(e: Equation, bounds: seq<Bounds>): (r: seq<Bounds>)
    requires TermsIn(e.terms, |bounds|)
    ensures |r| == |bounds|
  {
    if |e.terms| == 0 then bounds
    else if |e.terms| == 1 then bounds[e.terms[0].cell := Bounds(e.rhs, e.rhs)]
    else if AllPlus(e.terms) then CapAll(e.terms, e.rhs, bounds)
    else bounds
  }

  function SetInitialAll(es: seq<Equation>, bounds: seq<Bounds>): (r: seq<Bounds>)
    requires forall i :: 0 <= i < |es| ==> TermsIn(es[i].terms, |bounds|)
    ensures |r| == |bounds|
  {
    if es == [] then bounds
    else SetInitialEquation(es[|es| - 1], SetInitialAll(es[..|es| - 1], bounds))
  }

  /** What `set_initial_lower_and_upper_bounds` returns: false when an equation has no terms left. */
  predicate NoEmpty(es: seq<Equation>)
  {
    forall i :: 0 <= i < |es| ==> es[i].terms != []
  }

  /** With every value at least 0, one plus term is at most the sum of all of them. */
  lemma {:induction false} TermAtMostSum(terms: seq<Term>, x: seq<real>, k: nat)
    requires TermsIn(terms, |x|) && AllPlus(terms) && k < |terms|
    requires forall c :: 0 <= c < |x| ==> x[c] >= 0.0
    ensures 0.0 <= x[terms[k].cell] <= SignedSum(terms, x)
  {
    var n := |terms| - 1;
    if k < n {
      TermAtMostSum(terms[..n], x, k);
    } else {
      NonNegativeSum(terms[..n], x);
    }
  }

  lemma {:induction false} NonNegativeSum(terms: seq<Term>, x: seq<real>)
    requires TermsIn(terms, |x|) && AllPlus(terms)
    requires forall c :: 0 <= c < |x| ==> x[c] >= 0.0
    ensures SignedSum(terms, x) >= 0.0
  {
    if terms != [] {
      NonNegativeSum(terms[..|terms| - 1], x);
    }
  }

  lemma {:induction false} CapAllSound(terms: seq<Term>, rhs: real, bounds: seq<Bounds>, x: seq<real>)
    requires TermsIn(terms, |bounds|) && Within(x, bounds)
    requires forall k :: 0 <= k < |terms| ==> 0.0 <= x[terms[k].cell] <= rhs
    ensures Within(x, CapAll(terms, rhs, bounds))
  {
    if terms != [] {
      CapAllSound(terms[..|terms| - 1], rhs, bounds, x);
    }
  }

  /**
   * Setting the initial bounds keeps every value of a non-negative table
   * that satisfies tidied equations within its bounds: a single term with
   * sign -1 and a right-hand side of at least 0 forces the value 0, which
   * is then that right-hand side.
   */
  lemma {:induction false} SetInitialSound(es: seq<Equation>, bounds: seq<Bounds>, x: seq<real>)
    requires WellSigned(es, |bounds|) && Tidied(es) && Within(x, bounds)
    requires forall c :: 0 <= c < |x| ==> x[c] >= 0.0
    requires forall i :: 0 <= i < |es| ==> Satisfies(es[i], x)
    ensures Within(x, SetInitialAll(es, bounds))
  {
    if es != [] {
      var n := |es| - 1;
      SetInitialSound(es[..n], bounds, x);
      var e := es[n];
      var b := SetInitialAll(es[..n], bounds);
      if |e.terms| == 1 {
        assert e.terms[..0] == [];
        assert SignedSum(e.terms, x) == Scale(e.terms[0].sign, x[e.terms[0].cell]);
      } else if |e.terms| > 1 && AllPlus(e.terms) {
        forall k | 0 <= k < |e.terms|
          ensures 0.0 <= x[e.terms[k].cell] <= e.rhs
        {
          TermAtMostSum(e.terms, x, k);
        }
        CapAllSound(e.terms, e.rhs, b, x);
      }
    }
  }

  // ---------------------------------------------------------------------------
  // Processing equations and bound improvement
  // ---------------------------------------------------------------------------

  /**
   * `struct ProcessingEquation`: a bound for `cell` is the right-hand side
   * plus the lower bounds of `lowerAdds` and the upper bounds of
   * `upperAdds`, minus the lower bounds of `lowerSubs` and the upper bounds
   * of `upperSubs`.
   */
  datatype Processing = Processing(cell: int, rhs: real, lowerAdds: seq<int>, upperAdds: seq<int>,
                                   lowerSubs: seq<int>, upperSubs: seq<int>)

  /** The target term's sign applied to the right-hand side. */
  function TargetRhs(e: Equation, j: nat): real
    requires j < |e.terms|
  {
    if e.terms[j].sign == 1 then e.rhs else -e.rhs
  }

  /**
   * The processing equation for a lower bound on term `j`, after the terms
   * before `n`: a term with the target's sign subtracts its upper bound, one
   * with the other sign adds its lower bound.
   */
  function LowerProcessing(e: Equation, j: nat, n: nat): (p: Processing)
    requires j < |e.terms| && n <= |e.terms|
    ensures p.cell == e.terms[j].cell && p.rhs == TargetRhs(e, j) && p.upperAdds == [] && p.lowerSubs == []
  {
    if n == 0 then Processing(e.terms[j].cell, TargetRhs(e, j), [], [], [], [])
    else
      var p := LowerProcessing(e, j, n - 1);
      var t := e.terms[n - 1];
      if n - 1 == j then p
      else if (t.sign == 1) == (e.terms[j].sign == 1) then p.(upperSubs := p.upperSubs + [t.cell])
      else p.(lowerAdds := p.lowerAdds + [t.cell])
  }

  /**
   * The processing equation for an upper bound on term `j`: a term with the
   * target's sign subtracts its lower bound, one with the other sign adds
   * its upper bound.
   */
  function UpperProcessing(e: Equation, j: nat, n: nat): (p: Processing)
    requires j < |e.terms| && n <= |e.terms|
    ensures p.cell == e.terms[j].cell && p.rhs == TargetRhs(e, j) && p.lowerAdds == [] && p.upperSubs == []
  {
    if n == 0 then Processing(e.terms[j].cell, TargetRhs(e, j), [], [], [], [])
    else
      var p := UpperProcessing(e, j, n - 1);
      var t := e.terms[n - 1];
      if n - 1 == j then p
      else if (t.sign == 1) == (e.terms[j].sign == 1) then p.(lowerSubs := p.lowerSubs + [t.cell])
      else p.(upperAdds := p.upperAdds + [t.cell])
  }

  /** The sum of the lower (or upper) bounds of the listed cells. */
  function SumBounds(cs: seq<int>, bounds: seq<Bounds>, lower: bool): real
    requires forall k :: 0 <= k < |cs| ==> 0 <= cs[k] < |bounds|
  {
    if cs == [] then 0.0
    else
      var b := bounds[cs[|cs| - 1]];
      SumBounds(cs[..|cs| - 1], bounds, lower) + if lower then b.lower else b.upper
  }

  /** Every cell a processing equation names is in the table. */
  predicate ProcessingIn(p: Processing, n: int)
  {
    0 <= p.cell < n &&
    (forall k :: 0 <= k < |p.lowerAdds| ==> 0 <= p.lowerAdds[k] < n) &&
    (forall k :: 0 <= k < |p.upperAdds| ==> 0 <= p.upperAdds[k] < n) &&
    (forall k :: 0 <= k < |p.lowerSubs| ==> 0 <= p.lowerSubs[k] < n) &&
    (forall k :: 0 <= k < |p.upperSubs| ==> 0 <= p.upperSubs[k] < n)
  }

  /** The bound a processing equation gives, from the current bounds. */
  function Evaluate(p: Processing, bounds: seq<Bounds>): real
    requires ProcessingIn(p, |bounds|)
  {
    p.rhs + SumBounds(p.lowerAdds, bounds, true) + SumBounds(p.upperAdds, bounds, false)
      - SumBounds(p.lowerSubs, bounds, true) - SumBounds(p.upperSubs, bounds, false)
  }

  lemma AddLower(p: Processing, c: int, bounds: seq<Bounds>)
    requires ProcessingIn(p, |bounds|) && 0 <= c < |bounds|
    ensures ProcessingIn(p.(lowerAdds := p.lowerAdds + [c]), |bounds|)
    ensures Evaluate(p.(lowerAdds := p.lowerAdds + [c]), bounds) == Evaluate(p, bounds) + bounds[c].lower
  {
    assert (p.lowerAdds + [c])[..|p.lowerAdds|] == p.lowerAdds;
  }

  lemma AddUpper(p: Processing, c: int, bounds: seq<Bounds>)
    requires ProcessingIn(p, |bounds|) && 0 <= c < |bounds|
    ensures ProcessingIn(p.(upperAdds := p.upperAdds + [c]), |bounds|)
    ensures Evaluate(p.(upperAdds := p.upperAdds + [c]), bounds) == Evaluate(p, bounds) + bounds[c].upper
  {
    assert (p.upperAdds + [c])[..|p.upperAdds|] == p.upperAdds;
  }

  lemma SubLower(p: Processing, c: int, bounds: seq<Bounds>)
    requires ProcessingIn(p, |bounds|) && 0 <= c < |bounds|
    ensures ProcessingIn(p.(lowerSubs := p.lowerSubs + [c]), |bounds|)
    ensures Evaluate(p.(lowerSubs := p.lowerSubs + [c]), bounds) == Evaluate(p, bounds) - bounds[c].lower
  {
    assert (p.lowerSubs + [c])[..|p.lowerSubs|] == p.lowerSubs;
  }

  lemma SubUpper(p: Processing, c: int, bounds: seq<Bounds>)
    requires ProcessingIn(p, |bounds|) && 0 <= c < |bounds|
    ensures ProcessingIn(p.(upperSubs := p.upperSubs + [c]), |bounds|)
    ensures Evaluate(p.(upperSubs := p.upperSubs + [c]), bounds) == Evaluate(p, bounds) - bounds[c].upper
  {
    assert (p.upperSubs + [c])[..|p.upperSubs|] == p.upperSubs;
  }

  lemma ScaleSame(s: int, t: int, a: real, v: real)
    requires (s == 1 || s == -1) && (t == 1 || t == -1) && ((t == 1) == (s == 1))
    ensures Scale(s, a + Scale(t, v)) == Scale(s, a) + v
  {
  }

  lemma ScaleOther(s: int, t: int, a: real, v: real)
    requires (s == 1 || s == -1) && (t == 1 || t == -1) && ((t == 1) != (s == 1))
    ensures Scale(s, a + Scale(t, v)) == Scale(s, a) - v
  {
  }

  /** The signed sum of the terms before `n` other than term `j`. */
  function OthersSum(terms: seq<Term>, j: nat, n: nat, x: seq<real>): real
    requires n <= |terms| && TermsIn(terms, |x|)
  {
    if n == 0 then 0.0
    else OthersSum(terms, j, n - 1, x) + if n - 1 == j then 0.0 else Scale(terms[n - 1].sign, x[terms[n - 1].cell])
  }

  lemma {:induction false} OthersSumSplits(terms: seq<Term>, j: nat, n: nat, x: seq<real>)
    requires n <= |terms| && TermsIn(terms, |x|) && j < |terms|
    ensures SignedSum(terms[..n], x) ==
            OthersSum(terms, j, n, x) + if j < n then Scale(terms[j].sign, x[terms[j].cell]) else 0.0
  {
    if n > 0 {
      assert terms[..n][..n - 1] == terms[..n - 1];
      OthersSumSplits(terms, j, n - 1, x);
    }
  }

  lemma {:induction false} LowerProcessingBelow(e: Equation, j: nat, n: nat, bounds: seq<Bounds>, x: seq<real>)
    requires j < |e.terms| && n <= |e.terms| && TermsIn(e.terms, |x|) && Signed(e.terms) && Within(x, bounds)
    ensures ProcessingIn(LowerProcessing(e, j, n), |bounds|)
    ensures Evaluate(LowerProcessing(e, j, n), bounds) <=
            TargetRhs(e, j) - Scale(e.terms[j].sign, OthersSum(e.terms, j, n, x))
  {
    if n > 0 {
      LowerProcessingBelow(e, j, n - 1, bounds, x);
      LowerProcessingStep(e, j, n, bounds, x);
    }
  }

  /** The step of `LowerProcessingBelow`: term `n - 1` keeps the bound. */
  lemma {:induction false} LowerProcessingStep(e: Equation, j: nat, n: nat, bounds: seq<Bounds>, x: seq<real>)
    requires j < |e.terms| && 0 < n <= |e.terms| && TermsIn(e.terms, |x|) && Signed(e.terms) && Within(x, bounds)
    requires ProcessingIn(LowerProcessing(e, j, n - 1), |bounds|)
    requires Evaluate(LowerProcessing(e, j, n - 1), bounds) <=
             TargetRhs(e, j) - Scale(e.terms[j].sign, OthersSum(e.terms, j, n - 1, x))
    ensures ProcessingIn(LowerProcessing(e, j, n), |bounds|)
    ensures Evaluate(LowerProcessing(e, j, n), bounds) <=
            TargetRhs(e, j) - Scale(e.terms[j].sign, OthersSum(e.terms, j, n, x))
  {
    var p := LowerProcessing(e, j, n - 1);
    var t := e.terms[n - 1];
    var sj := e.terms[j].sign;
    var prev := OthersSum(e.terms, j, n - 1, x);
    if n - 1 != j {
      var v := x[t.cell];
      assert OthersSum(e.terms, j, n, x) == prev + Scale(t.sign, v);
      if (t.sign == 1) == (sj == 1) {
        assert LowerProcessing(e, j, n) == p.(upperSubs := p.upperSubs + [t.cell]);
        SubUpper(p, t.cell, bounds);
        ScaleSame(sj, t.sign, prev, v);
      } else {
        assert LowerProcessing(e, j, n) == p.(lowerAdds := p.lowerAdds + [t.cell]);
        AddLower(p, t.cell, bounds);
        ScaleOther(sj, t.sign, prev, v);
      }
    }
  }

  lemma {:induction false} UpperProcessingAbove(e: Equation, j: nat, n: nat, bounds: seq<Bounds>, x: seq<real>)
    requires j < |e.terms| && n <= |e.terms| && TermsIn(e.terms, |x|) && Signed(e.terms) && Within(x, bounds)
    ensures ProcessingIn(UpperProcessing(e, j, n), |bounds|)
    ensures Evaluate(UpperProcessing(e, j, n), bounds) >=
            TargetRhs(e, j) - Scale(e.terms[j].sign, OthersSum(e.terms, j, n, x))
  {
    if n > 0 {
      UpperProcessingAbove(e, j, n - 1, bounds, x);
      UpperProcessingStep(e, j, n, bounds, x);
    }
  }

  /** The step of `UpperProcessingAbove`: term `n - 1` keeps the bound. */
  lemma {:induction false} UpperProcessingStep(e: Equation, j: nat, n: nat, bounds: seq<Bounds>, x: seq<real>)
    requires j < |e.terms| && 0 < n <= |e.terms| && TermsIn(e.terms, |x|) && Signed(e.terms) && Within(x, bounds)
    requires ProcessingIn(UpperProcessing(e, j, n - 1), |bounds|)
    requires Evaluate(UpperProcessing(e, j, n - 1), bounds) >=
             TargetRhs(e, j) - Scale(e.terms[j].sign, OthersSum(e.terms, j, n - 1, x))
    ensures ProcessingIn(UpperProcessing(e, j, n), |bounds|)
    ensures Evaluate(UpperProcessing(e, j, n), bounds) >=
            TargetRhs(e, j) - Scale(e.terms[j].sign, OthersSum(e.terms, j, n, x))
  {
    var p := UpperProcessing(e, j, n - 1);
    var t := e.terms[n - 1];
    var sj := e.terms[j].sign;
    var prev := OthersSum(e.terms, j, n - 1, x);
    if n - 1 != j {
      var v := x[t.cell];
      assert OthersSum(e.terms, j, n, x) == prev + Scale(t.sign, v);
      if (t.sign == 1) == (sj == 1) {
        assert UpperProcessing(e, j, n) == p.(lowerSubs := p.lowerSubs + [t.cell]);
        SubLower(p, t.cell, bounds);
        ScaleSame(sj, t.sign, prev, v);
      } else {
        assert UpperProcessing(e, j, n) == p.(upperAdds := p.upperAdds + [t.cell]);
        AddUpper(p, t.cell, bounds);
        ScaleOther(sj, t.sign, prev, v);
      }
    }
  }

  /**
   * The processing equations for term `j` bound its cell's value from
   * below and from above, for every table within the current bounds that
   * satisfies the equation.
   */
  lemma ProcessingSound(e: Equation, j: nat, bounds: seq<Bounds>, x: seq<real>)
    requires j < |e.terms| && TermsIn(e.terms, |x|) && Signed(e.terms) && Within(x, bounds)
    requires Satisfies(e, x)
    ensures ProcessingIn(LowerProcessing(e, j, |e.terms|), |bounds|)
    ensures ProcessingIn(UpperProcessing(e, j, |e.terms|), |bounds|)
    ensures Evaluate(LowerProcessing(e, j, |e.terms|), bounds) <= x[e.terms[j].cell]
    ensures x[e.terms[j].cell] <= Evaluate(UpperProcessing(e, j, |e.terms|), bounds)
  {
    var n := |e.terms|;
    LowerProcessingBelow(e, j, n, bounds, x);
    UpperProcessingAbove(e, j, n, bounds, x);
    OthersSumSplits(e.terms, j, n, x);
    assert e.terms[..n] == e.terms;
  }

  lemma {:induction false} LowerProcessingIn(e: Equation, j: nat, n: nat, m: int)
    requires j < |e.terms| && n <= |e.terms| && TermsIn(e.terms, m)
    ensures ProcessingIn(LowerProcessing(e, j, n), m)
  {
    if n > 0 {
      LowerProcessingIn(e, j, n - 1, m);
    }
  }

  lemma {:induction false} UpperProcessingIn(e: Equation, j: nat, n: nat, m: int)
    requires j < |e.terms| && n <= |e.terms| && TermsIn(e.terms, m)
    ensures ProcessingIn(UpperProcessing(e, j, n), m)
  {
    if n > 0 {
      UpperProcessingIn(e, j, n - 1, m);
    }
  }

  /** No lower bound has fallen and no upper bound has risen. */
  predicate Tighter(before: seq<Bounds>, after: seq<Bounds>)
  {
    |before| == |after| &&
    forall c :: 0 <= c < |before| ==> after[c].lower >= before[c].lower && after[c].upper <= before[c].upper
  }

  /** Some lower bound has risen or some upper bound has fallen. */
  predicate Strict(before: seq<Bounds>, after: seq<Bounds>)
    requires |before| == |after|
  {
    exists c :: 0 <= c < |before| && (after[c].lower > before[c].lower || after[c].upper < before[c].upper)
  }

  lemma TighterTransitive(a: seq<Bounds>, b: seq<Bounds>, c: seq<Bounds>)
    requires Tighter(a, b) && Tighter(b, c)
    ensures Tighter(a, c)
    ensures Strict(a, b) ==> Strict(a, c)
    ensures Strict(b, c) ==> Strict(a, c)
  {
    if Strict(a, b) {
      var k :| 0 <= k < |a| && (b[k].lower > a[k].lower || b[k].upper < a[k].upper);
      assert c[k].lower > a[k].lower || c[k].upper < a[k].upper;
    }
    if Strict(b, c) {
      var k :| 0 <= k < |b| && (c[k].lower > b[k].lower || c[k].upper < b[k].upper);
      assert c[k].lower > a[k].lower || c[k].upper < a[k].upper;
    }
  }

  /** `if (cell_bounds[cellno].lower < result)`: a greater lower bound replaces the old one. */
  function RaiseLower(bounds: seq<Bounds>, c: int, result: real): (r: (seq<Bounds>, bool))
    requires 0 <= c < |bounds|
    ensures Tighter(bounds, r.0)
  {
    if bounds[c].lower < result then
      var b := bounds[c := bounds[c].(lower := result)];
      (b, true)
    else (bounds, false)
  }

  /** `if (cell_bounds[cellno].upper > result)`: a smaller upper bound replaces the old one. */
  function LowerUpper(bounds: seq<Bounds>, c: int, result: real): (r: (seq<Bounds>, bool))
    requires 0 <= c < |bounds|
    ensures Tighter(bounds, r.0)
  {
    if bounds[c].upper > result then
      var b := bounds[c := bounds[c].(upper := result)];
      (b, true)
    else (bounds, false)
  }

  /**
   * "Improve lower bounds": the lower processing equations of the first `n`
   * terms, in turn, each evaluated on the bounds the earlier ones left;
   * also whether any bound changed.
   */
  function LowerPass(e: Equation, n: nat, bounds: seq<Bounds>): (r: (seq<Bounds>, bool))
    requires TermsIn(e.terms, |bounds|) && n <= |e.terms|
    ensures |r.0| == |bounds|
  {
    if n == 0 then (bounds, false)
    else
      var prev := LowerPass(e, n - 1, bounds);
      var u := LowerStep(e, n - 1, prev.0);
      (u.0, prev.1 || u.1)
  }

  /** "Improve upper bounds": the same with the upper processing equations. */
  function UpperPass(e: Equation, n: nat, bounds: seq<Bounds>): (r: (seq<Bounds>, bool))
    requires TermsIn(e.terms, |bounds|) && n <= |e.terms|
    ensures |r.0| == |bounds|
  {
    if n == 0 then (bounds, false)
    else
      var prev := UpperPass(e, n - 1, bounds);
      var u := UpperStep(e, n - 1, prev.0);
      (u.0, prev.1 || u.1)
  }

  /** One turn of the lower pass: term `k`'s lower processing equation, evaluated and applied. */
  function LowerStep(e: Equation, k: nat, bounds: seq<Bounds>): (r: (seq<Bounds>, bool))
    requires TermsIn(e.terms, |bounds|) && k < |e.terms|
    ensures |r.0| == |bounds|
  {
    LowerProcessingIn(e, k, |e.terms|, |bounds|);
    var p := LowerProcessing(e, k, |e.terms|);
    RaiseLower(bounds, p.cell, Evaluate(p, bounds))
  }

  /** One turn of the upper pass: term `k`'s upper processing equation, evaluated and applied. */
  function UpperStep(e: Equation, k: nat, bounds: seq<Bounds>): (r: (seq<Bounds>, bool))
    requires TermsIn(e.terms, |bounds|) && k < |e.terms|
    ensures |r.0| == |bounds|
  {
    UpperProcessingIn(e, k, |e.terms|, |bounds|);
    var p := UpperProcessing(e, k, |e.terms|);
    LowerUpper(bounds, p.cell, Evaluate(p, bounds))
  }

  lemma LowerPassStep(e: Equation, k: nat, bounds: seq<Bounds>)
    requires TermsIn(e.terms, |bounds|) && k < |e.terms|
    ensures ProcessingIn(LowerProcessing(e, k, |e.terms|), |bounds|)
    ensures var prev := LowerPass(e, k, bounds);
            var p := LowerProcessing(e, k, |e.terms|);
            LowerPass(e, k + 1, bounds) ==
              (RaiseLower(prev.0, p.cell, Evaluate(p, prev.0)).0, prev.1 || RaiseLower(prev.0, p.cell, Evaluate(p, prev.0)).1)
  {
    LowerProcessingIn(e, k, |e.terms|, |bounds|);
  }

  lemma UpperPassStep(e: Equation, k: nat, bounds: seq<Bounds>)
    requires TermsIn(e.terms, |bounds|) && k < |e.terms|
    ensures ProcessingIn(UpperProcessing(e, k, |e.terms|), |bounds|)
    ensures var prev := UpperPass(e, k, bounds);
            var p := UpperProcessing(e, k, |e.terms|);
            UpperPass(e, k + 1, bounds) ==
              (LowerUpper(prev.0, p.cell, Evaluate(p, prev.0)).0, prev.1 || LowerUpper(prev.0, p.cell, Evaluate(p, prev.0)).1)
  {
    UpperProcessingIn(e, k, |e.terms|, |bounds|);
  }

  /**
   * `r` only tightens `before`, its flag is set when some bound moved, and
   * an unset flag means nothing changed.
   */
  predicate Reported(before: seq<Bounds>, r: (seq<Bounds>, bool))
  {
    Tighter(before, r.0) && (r.1 ==> Strict(before, r.0)) && (!r.1 ==> r.0 == before)
  }

  /** The pass reports a change exactly when it tightened some bound. */
  lemma {:induction false} LowerPassChanges(e: Equation, n: nat, bounds: seq<Bounds>)
    requires TermsIn(e.terms, |bounds|) && n <= |e.terms|
    ensures Reported(bounds, LowerPass(e, n, bounds))
  {
    if n > 0 {
      LowerPassChanges(e, n - 1, bounds);
      var prev := LowerPass(e, n - 1, bounds);
      LowerStepChanges(e, n - 1, prev.0);
      ChangesCompose(bounds, prev, LowerStep(e, n - 1, prev.0));
    }
  }

  lemma {:induction false} LowerStepChanges(e: Equation, k: nat, bounds: seq<Bounds>)
    requires TermsIn(e.terms, |bounds|) && k < |e.terms|
    ensures Reported(bounds, LowerStep(e, k, bounds))
  {
    LowerProcessingIn(e, k, |e.terms|, |bounds|);
    var p := LowerProcessing(e, k, |e.terms|);
    RaiseLowerChanges(bounds, p.cell, Evaluate(p, bounds));
  }

  lemma {:induction false} UpperStepChanges(e: Equation, k: nat, bounds: seq<Bounds>)
    requires TermsIn(e.terms, |bounds|) && k < |e.terms|
    ensures Reported(bounds, UpperStep(e, k, bounds))
  {
    UpperProcessingIn(e, k, |e.terms|, |bounds|);
    var p := UpperProcessing(e, k, |e.terms|);
    LowerUpperChanges(bounds, p.cell, Evaluate(p, bounds));
  }

  /** The pass reports a change exactly when it tightened some bound. */
  lemma {:induction false} UpperPassChanges(e: Equation, n: nat, bounds: seq<Bounds>)
    requires TermsIn(e.terms, |bounds|) && n <= |e.terms|
    ensures Reported(bounds, UpperPass(e, n, bounds))
  {
    if n > 0 {
      UpperPassChanges(e, n - 1, bounds);
      var prev := UpperPass(e, n - 1, bounds);
      UpperStepChanges(e, n - 1, prev.0);
      ChangesCompose(bounds, prev, UpperStep(e, n - 1, prev.0));
    }
  }

  lemma {:induction false} RaiseLowerChanges(bounds: seq<Bounds>, c: int, result: real)
    requires 0 <= c < |bounds|
    ensures Reported(bounds, RaiseLower(bounds, c, result))
  {
    if bounds[c].lower < result {
      assert RaiseLower(bounds, c, result).0[c].lower > bounds[c].lower;
    }
  }

  lemma {:induction false} LowerUpperChanges(bounds: seq<Bounds>, c: int, result: real)
    requires 0 <= c < |bounds|
    ensures Reported(bounds, LowerUpper(bounds, c, result))
  {
    if bounds[c].upper > result {
      assert LowerUpper(bounds, c, result).0[c].upper < bounds[c].upper;
    }
  }

  /** Two reported tightenings compose into one. */
  lemma {:induction false} ChangesCompose(a: seq<Bounds>, b: (seq<Bounds>, bool), c: (seq<Bounds>, bool))
    requires Reported(a, b) && Reported(b.0, c)
    ensures Reported(a, (c.0, b.1 || c.1))
  {
    TighterTransitive(a, b.0, c.0);
  }

  /** One consolidated equation of `improve_lower_and_upper_bounds`: the lower pass, then the upper pass. */
  function ImproveEquation(e: Equation, bounds: seq<Bounds>): (r: (seq<Bounds>, bool))
    requires TermsIn(e.terms, |bounds|)
    ensures Tighter(bounds, r.0)
  {
    var lo := LowerPass(e, |e.terms|, bounds);
    var up := UpperPass(e, |e.terms|, lo.0);
    LowerPassChanges(e, |e.terms|, bounds);
    UpperPassChanges(e, |e.terms|, lo.0);
    TighterTransitive(bounds, lo.0, up.0);
    (up.0, lo.1 || up.1)
  }

  /** What `improve_lower_and_upper_bounds` leaves, and whether it returns true. */
  function ImproveAll(es: seq<Equation>, bounds: seq<Bounds>): (r: (seq<Bounds>, bool))
    requires forall i :: 0 <= i < |es| ==> TermsIn(es[i].terms, |bounds|)
    ensures Tighter(bounds, r.0)
  {
    if es == [] then (bounds, false)
    else
      var prev := ImproveAll(es[..|es| - 1], bounds);
      var u := ImproveEquation(es[|es| - 1], prev.0);
      TighterTransitive(bounds, prev.0, u.0);
      (u.0, prev.1 || u.1)
  }

  lemma ImproveEquationChanges(e: Equation, bounds: seq<Bounds>)
    requires TermsIn(e.terms, |bounds|)
    ensures ImproveEquation(e, bounds).1 ==> Strict(bounds, ImproveEquation(e, bounds).0)
    ensures !ImproveEquation(e, bounds).1 ==> ImproveEquation(e, bounds).0 == bounds
  {
    var lo := LowerPass(e, |e.terms|, bounds);
    LowerPassChanges(e, |e.terms|, bounds);
    UpperPassChanges(e, |e.terms|, lo.0);
    TighterTransitive(bounds, lo.0, UpperPass(e, |e.terms|, lo.0).0);
  }

  lemma {:induction false} ImproveAllChanges(es: seq<Equation>, bounds: seq<Bounds>)
    requires forall i :: 0 <= i < |es| ==> TermsIn(es[i].terms, |bounds|)
    ensures ImproveAll(es, bounds).1 ==> Strict(bounds, ImproveAll(es, bounds).0)
    ensures !ImproveAll(es, bounds).1 ==> ImproveAll(es, bounds).0 == bounds
  {
    if es != [] {
      var n := |es| - 1;
      ImproveAllChanges(es[..n], bounds);
      var prev := ImproveAll(es[..n], bounds);
      ImproveEquationChanges(es[n], prev.0);
      TighterTransitive(bounds, prev.0, ImproveEquation(es[n], prev.0).0);
    }
  }

  /**
   * Improvement only raises lower bounds and lowers upper bounds, and it
   * reports true exactly when some bound changed.
   */
  lemma ImproveMonotone(es: seq<Equation>, bounds: seq<Bounds>)
    requires forall i :: 0 <= i < |es| ==> TermsIn(es[i].terms, |bounds|)
    ensures Tighter(bounds, ImproveAll(es, bounds).0)
    ensures ImproveAll(es, bounds).1 <==> ImproveAll(es, bounds).0 != bounds
  {
    var r := ImproveAll(es, bounds);
    ImproveAllChanges(es, bounds);
    if r.1 {
      var c :| 0 <= c < |bounds| && (r.0[c].lower > bounds[c].lower || r.0[c].upper < bounds[c].upper);
      assert r.0[c] != bounds[c];
    }
  }

  /** One more term of the lower pass keeps a satisfying table within the bounds. */
  lemma LowerStepSound(e: Equation, k: nat, bounds: seq<Bounds>, x: seq<real>)
    requires TermsIn(e.terms, |bounds|) && k < |e.terms| && Signed(e.terms) && |x| == |bounds| && Satisfies(e, x)
    requires Within(x, LowerPass(e, k, bounds).0)
    ensures Within(x, LowerPass(e, k + 1, bounds).0)
  {
    LowerPassStep(e, k, bounds);
    ProcessingSound(e, k, LowerPass(e, k, bounds).0, x);
  }

  /** One more term of the upper pass keeps a satisfying table within the bounds. */
  lemma UpperStepSound(e: Equation, k: nat, bounds: seq<Bounds>, x: seq<real>)
    requires TermsIn(e.terms, |bounds|) && k < |e.terms| && Signed(e.terms) && |x| == |bounds| && Satisfies(e, x)
    requires Within(x, UpperPass(e, k, bounds).0)
    ensures Within(x, UpperPass(e, k + 1, bounds).0)
  {
    UpperPassStep(e, k, bounds);
    ProcessingSound(e, k, UpperPass(e, k, bounds).0, x);
  }

  lemma {:induction false} LowerPassSound(e: Equation, n: nat, bounds: seq<Bounds>, x: seq<real>)
    requires TermsIn(e.terms, |bounds|) && n <= |e.terms| && Signed(e.terms) && Within(x, bounds) && Satisfies(e, x)
    ensures Within(x, LowerPass(e, n, bounds).0)
  {
    if n > 0 {
      LowerPassSound(e, n - 1, bounds, x);
      LowerStepSound(e, n - 1, bounds, x);
    }
  }

  lemma {:induction false} UpperPassSound(e: Equation, n: nat, bounds: seq<Bounds>, x: seq<real>)
    requires TermsIn(e.terms, |bounds|) && n <= |e.terms| && Signed(e.terms) && Within(x, bounds) && Satisfies(e, x)
    ensures Within(x, UpperPass(e, n, bounds).0)
  {
    if n > 0 {
      UpperPassSound(e, n - 1, bounds, x);
      UpperStepSound(e, n - 1, bounds, x);
    }
  }

  /**
   * Improvement is sound: every table within the bounds that satisfies the
   * consolidated equations stays within the improved bounds.
   */
  lemma {:induction false} ImproveSound(es: seq<Equation>, bounds: seq<Bounds>, x: seq<real>)
    requires WellSigned(es, |bounds|) && Within(x, bounds)
    requires forall i :: 0 <= i < |es| ==> Satisfies(es[i], x)
    ensures Within(x, ImproveAll(es, bounds).0)
  {
    if es != [] {
      var n := |es| - 1;
      ImproveSound(es[..n], bounds, x);
      var prev := ImproveAll(es[..n], bounds).0;
      var e := es[n];
      LowerPassSound(e, |e.terms|, prev, x);
      UpperPassSound(e, |e.terms|, LowerPass(e, |e.terms|, prev).0, x);
    }
  }

  // ---------------------------------------------------------------------------
  // The attack
  // ---------------------------------------------------------------------------

  /**
   * `while (simplify_the_consistency_equations() > 0)
   * set_initial_lower_and_upper_bounds();`: the equations and bounds the
   * loop ends with. Every turn that goes on removes at least one term.
   */
  function SimplifyLoop(es: seq<Equation>, bounds: seq<Bounds>): (r: (seq<Equation>, seq<Bounds>))
    requires forall i :: 0 <= i < |es| ==> TermsIn(es[i].terms, |bounds|)
    ensures |r.1| == |bounds| && TotalTerms(r.0) <= TotalTerms(es)
    ensures forall i :: 0 <= i < |r.0| ==> TermsIn(r.0[i].terms, |bounds|)
    decreases TotalTerms(es)
  {
    var s := Simplified(es, bounds);
    if s.1 > 0 then SimplifyLoop(s.0, SetInitialAll(s.0, bounds)) else (s.0, bounds)
  }

  /**
   * `while ((improve_lower_and_upper_bounds()) && (iterations < 10))
   * iterations++;`: improvement is called until it changes nothing, at most
   * eleven times in all.
   */
  function ImproveLoop(es: seq<Equation>, bounds: seq<Bounds>, iterations: nat): (r: seq<Bounds>)
    requires forall i :: 0 <= i < |es| ==> TermsIn(es[i].terms, |bounds|)
    requires iterations <= 10
    ensures Tighter(bounds, r)
    decreases 10 - iterations
  {
    var u := ImproveAll(es, bounds);
    if u.1 && iterations < 10 then
      var r := ImproveLoop(es, u.0, iterations + 1);
      TighterTransitive(bounds, u.0, r);
      r
    else u.0
  }

  /** The number of calls to `improve_lower_and_upper_bounds` the loop makes. */
  function ImproveCalls(es: seq<Equation>, bounds: seq<Bounds>, iterations: nat): (n: nat)
    requires forall i :: 0 <= i < |es| ==> TermsIn(es[i].terms, |bounds|)
    requires iterations <= 10
    decreases 10 - iterations
  {
    var u := ImproveAll(es, bounds);
    if u.1 && iterations < 10 then 1 + ImproveCalls(es, u.0, iterations + 1) else 1
  }

  /** The loop stops after at most eleven calls, and the last one changed nothing unless it was the eleventh. */
  lemma {:induction false} ImproveLoopStops(es: seq<Equation>, bounds: seq<Bounds>, iterations: nat)
    requires forall i :: 0 <= i < |es| ==> TermsIn(es[i].terms, |bounds|)
    requires iterations <= 10
    ensures 1 <= ImproveCalls(es, bounds, iterations) <= 11 - iterations
    ensures ImproveCalls(es, bounds, iterations) < 11 - iterations ==>
              ImproveAll(es, ImproveLoop(es, bounds, iterations)).0 == ImproveLoop(es, bounds, iterations)
    decreases 10 - iterations
  {
    var u := ImproveAll(es, bounds);
    if u.1 && iterations < 10 {
      ImproveLoopStops(es, u.0, iterations + 1);
    } else if !u.1 {
      ImproveMonotone(es, bounds);
      ImproveMonotone(es, u.0);
    }
  }

  /**
   * `Attack`: the consolidated equations and the bounds it leaves, from the
   * bounds `start` (the initial bounds, for an unpicker just built).
   */
  function Attacked(equations: seq<Equation>, cells: seq<Cell>, start: seq<Bounds>): (r: (seq<Equation>, seq<Bounds>))
    requires |start| == |cells|
    ensures |r.1| == |cells| && forall i :: 0 <= i < |r.0| ==> TermsIn(r.0[i].terms, |cells|)
  {
    var es := Consolidation(equations, cells);
    var b := SetInitialAll(es, start);
    if NoEmpty(es) then
      var s := SimplifyLoop(es, b);
      (s.0, ImproveLoop(s.0, s.1, 0))
    else (es, b)
  }

  /**
   * The hypothesis under which simplification is sound: at every turn of
   * the loop, every cell whose bounds are within FLOAT_PRECISION of each
   * other holds exactly its upper bound.
   */
  ghost predicate ExactAlong(es: seq<Equation>, bounds: seq<Bounds>, x: seq<real>)
    requires forall i :: 0 <= i < |es| ==> TermsIn(es[i].terms, |bounds|)
    requires |x| == |bounds|
    decreases TotalTerms(es)
  {
    ExactWhereKnown(bounds, x) &&
    var s := Simplified(es, bounds);
    s.1 > 0 ==> ExactAlong(s.0, SetInitialAll(s.0, bounds), x)
  }

  lemma TidyAllSound(es: seq<Equation>, x: seq<real>)
    requires WellSigned(es, |x|)
    requires forall i :: 0 <= i < |es| ==> Satisfies(es[i], x)
    ensures WellSigned(TidyAll(es), |x|) && Tidied(TidyAll(es))
    ensures forall i :: 0 <= i < |es| ==> Satisfies(TidyAll(es)[i], x)
  {
    forall i | 0 <= i < |es|
      ensures TermsIn(TidyAll(es)[i].terms, |x|) && Signed(TidyAll(es)[i].terms) && Satisfies(TidyAll(es)[i], x)
    {
      TidySound(es[i], x);
    }
  }

  /** One pass of simplification keeps the equations satisfied under the hypothesis. */
  lemma SimplifiedSound(es: seq<Equation>, bounds: seq<Bounds>, x: seq<real>)
    requires WellSigned(es, |bounds|) && |x| == |bounds| && ExactWhereKnown(bounds, x)
    requires forall i :: 0 <= i < |es| ==> Satisfies(es[i], x)
    ensures WellSigned(Simplified(es, bounds).0, |bounds|)
    ensures forall i :: 0 <= i < |es| ==> Satisfies(Simplified(es, bounds).0[i], x)
  {
    var s := SimplifyEach(es, bounds).0;
    forall i | 0 <= i < |es|
      ensures TermsIn(s[i].terms, |x|) && Signed(s[i].terms) && Satisfies(s[i], x)
    {
      SimplifyEquationSound(es[i], bounds, x);
    }
    TidyAllSound(s, x);
  }

  /**
   * The simplification loop is sound under the hypothesis: a non-negative
   * table within the bounds that satisfies the equations satisfies those the
   * loop leaves and lies within the bounds it leaves.
   */
  lemma {:induction false} SimplifyLoopSound(es: seq<Equation>, bounds: seq<Bounds>, x: seq<real>)
    requires WellSigned(es, |bounds|) && Within(x, bounds)
    requires forall c :: 0 <= c < |x| ==> x[c] >= 0.0
    requires forall i :: 0 <= i < |es| ==> Satisfies(es[i], x)
    requires ExactAlong(es, bounds, x)
    ensures WellSigned(SimplifyLoop(es, bounds).0, |bounds|) && Within(x, SimplifyLoop(es, bounds).1)
    ensures forall i :: 0 <= i < |SimplifyLoop(es, bounds).0| ==> Satisfies(SimplifyLoop(es, bounds).0[i], x)
    decreases TotalTerms(es)
  {
    var s := Simplified(es, bounds);
    SimplifiedSound(es, bounds, x);
    if s.1 > 0 {
      SetInitialSound(s.0, bounds, x);
      SimplifyLoopSound(s.0, SetInitialAll(s.0, bounds), x);
    }
  }

  lemma {:induction false} ImproveLoopSound(es: seq<Equation>, bounds: seq<Bounds>, iterations: nat, x: seq<real>)
    requires WellSigned(es, |bounds|) && Within(x, bounds) && iterations <= 10
    requires forall i :: 0 <= i < |es| ==> Satisfies(es[i], x)
    ensures Within(x, ImproveLoop(es, bounds, iterations))
    decreases 10 - iterations
  {
    ImproveSound(es, bounds, x);
    var u := ImproveAll(es, bounds);
    if u.1 && iterations < 10 {
      ImproveLoopSound(es, u.0, iterations + 1, x);
    }
  }

  /** The hypothesis for an unpicker just built: it holds along the simplification loop of the attack. */
  ghost predicate AttackExact(equations: seq<Equation>, cells: seq<Cell>, x: seq<real>)
    requires |x| == |cells|
  {
    var es := Consolidation(equations, cells);
    ExactAlong(es, SetInitialAll(es, InitialBounds(cells)), x)
  }

  /**
   * The attack is sound: every table the published figures allow that
   * satisfies the consistency equations lies within the bounds the attack
   * computes, provided every cell the attack takes as known (bounds within
   * FLOAT_PRECISION) holds exactly its upper bound.
   */
  lemma AttackSound(equations: seq<Equation>, cells: seq<Cell>, x: seq<real>)
    requires Feasible(x, cells) && WellSigned(equations, |cells|)
    requires forall i :: 0 <= i < |equations| ==> Satisfies(equations[i], x)
    requires AttackExact(equations, cells, x)
    ensures Within(x, Attacked(equations, cells, InitialBounds(cells)).1)
  {
    var es := Consolidation(equations, cells);
    ConsolidationSound(equations, cells, x);
    InitialBoundsSound(cells, x);
    SetInitialSound(es, InitialBounds(cells), x);
    var b := SetInitialAll(es, InitialBounds(cells));
    SimplifyLoopSound(es, b, x);
    var s := SimplifyLoop(es, b);
    ImproveLoopSound(s.0, s.1, 0, x);
  }

  // ---------------------------------------------------------------------------
  // Exposure
  // ---------------------------------------------------------------------------

  /** What an intruder learns about a primary cell from its bounds. */
  datatype Exposure = Exact | Inconsistent | WithinProtection | Protected

  /** The lower limit of the protection interval; 0 or below is replaced by FLOAT_PRECISION. */
  function LowerLimit(c: Cell): (r: real)
    ensures r > 0.0 || r == c.nominal - c.lowerProtection
  {
    if c.nominal - c.lowerProtection < 0.0 then FloatPrecision else c.nominal - c.lowerProtection
  }

  /**
   * The three tests for a value known within the protection levels: the
   * lower bound above the lower limit, the upper bound below the upper
   * limit, or an interval narrower than a positive sliding protection.
   */
  predicate PartiallyExposed(c: Cell, b: Bounds)
  {
    b.lower > LowerLimit(c) || b.upper < c.nominal + c.upperProtection ||
    (c.slidingProtection > 0.0 && b.upper - b.lower < c.slidingProtection)
  }

  /**
   * The classification of `evaluate_exposure`: bounds within FLOAT_PRECISION
   * of each other either meet the true value (exact) or not (inconsistent,
   * counted nowhere); wider bounds that pass one of the three tests expose
   * the cell within its protection.
   */
  function ExposureOf(c: Cell, b: Bounds): (r: Exposure)
    ensures r == Exact <==> Known(b) && Abs(b.lower - c.nominal) < FloatPrecision
    ensures r == WithinProtection <==> !Known(b) && PartiallyExposed(c, b)
  {
    if Known(b) then
      if Abs(b.lower - c.nominal) < FloatPrecision then Exact else Inconsistent
    else if PartiallyExposed(c, b) then WithinProtection
    else Protected
  }

  /**
   * The four counters `evaluate_exposure` sets: primary cells, secondary
   * cells, primaries known exactly and primaries known within protection.
   */
  datatype Counts = Counts(primary: nat, secondary: nat, exactly: nat, within: nat)

  /** The counters over the cells with the given bounds. */
  function Tally(cells: seq<Cell>, bounds: seq<Bounds>): (r: Counts)
    requires |bounds| == |cells|
  {
    if cells == [] then Counts(0, 0, 0, 0)
    else
      var i := |cells| - 1;
      var t := Tally(cells[..i], bounds[..i]);
      var c := cells[i];
      if c.status == Primary then
        var kind := ExposureOf(c, bounds[i]);
        t.(primary := t.primary + 1,
           exactly := t.exactly + if kind == Exact then 1 else 0,
           within := t.within + if kind == WithinProtection then 1 else 0)
      else if c.status == Secondary then t.(secondary := t.secondary + 1)
      else t
  }

  /** The cells `print_exact_exposure` writes: the primaries known exactly, in order. */
  function ExactList(cells: seq<Cell>, bounds: seq<Bounds>): (r: seq<int>)
    requires |bounds| == |cells|
    ensures forall k :: 0 <= k < |r| ==>
              (0 <= r[k] < |cells| && cells[r[k]].status == Primary && ExposureOf(cells[r[k]], bounds[r[k]]) == Exact)
  {
    if cells == [] then []
    else
      var i := |cells| - 1;
      var front := ExactList(cells[..i], bounds[..i]);
      if cells[i].status == Primary && ExposureOf(cells[i], bounds[i]) == Exact then front + [i] else front
  }

  /**
   * The cells `print_partial_exposure` writes: the primaries passing one of
   * the three tests, whether or not their value is also known exactly.
   */
  function PartialList(cells: seq<Cell>, bounds: seq<Bounds>): (r: seq<int>)
    requires |bounds| == |cells|
    ensures forall k :: 0 <= k < |r| ==>
              (0 <= r[k] < |cells| && cells[r[k]].status == Primary && PartiallyExposed(cells[r[k]], bounds[r[k]]))
  {
    if cells == [] then []
    else
      var i := |cells| - 1;
      var front := PartialList(cells[..i], bounds[..i]);
      if cells[i].status == Primary && PartiallyExposed(cells[i], bounds[i]) then front + [i] else front
  }

  /**
   * The counters agree with the table: the primary and secondary counts are
   * the numbers of 'u' and 'm' cells, the exact-exposure file lists as many
   * cells as are counted known exactly, the partial-exposure file at least as
   * many as are counted known within protection, and the two counts together
   * are at most the number of primary cells.
   */
  lemma {:induction false} TallyAgrees(cells: seq<Cell>, bounds: seq<Bounds>)
    requires |bounds| == |cells|
    ensures Tally(cells, bounds).primary == Count(Statuses(cells), Primary)
    ensures Tally(cells, bounds).secondary == Count(Statuses(cells), Secondary)
    ensures |ExactList(cells, bounds)| == Tally(cells, bounds).exactly
    ensures Tally(cells, bounds).within <= |PartialList(cells, bounds)|
    ensures Tally(cells, bounds).exactly + Tally(cells, bounds).within <= Tally(cells, bounds).primary
  {
    if cells != [] {
      var i := |cells| - 1;
      TallyAgrees(cells[..i], bounds[..i]);
      assert Statuses(cells) == Statuses(cells[..i]) + [cells[i].status];
      CountAppend(Statuses(cells[..i]), cells[i].status, Primary);
      CountAppend(Statuses(cells[..i]), cells[i].status, Secondary);
    }
  }

  lemma TallySnoc(cells: seq<Cell>, bounds: seq<Bounds>, i: nat)
    requires |bounds| == |cells| && i < |cells|
    ensures cells[..i + 1][..i] == cells[..i] && bounds[..i + 1][..i] == bounds[..i]
    ensures Tally(cells[..i + 1], bounds[..i + 1]) ==
            var t := Tally(cells[..i], bounds[..i]);
            var c := cells[i];
            if c.status == Primary then
              var kind := ExposureOf(c, bounds[i]);
              t.(primary := t.primary + 1,
                 exactly := t.exactly + if kind == Exact then 1 else 0,
                 within := t.within + if kind == WithinProtection then 1 else 0)
            else if c.status == Secondary then t.(secondary := t.secondary + 1)
            else t
  {
    assert cells[..i + 1][..i] == cells[..i];
    assert bounds[..i + 1][..i] == bounds[..i];
  }

  // ---------------------------------------------------------------------------
  // The checker
  // ---------------------------------------------------------------------------

  /** `tidy_up_the_consolidated_equations` on one equation. */
  method TidyEquation(e: Equation) returns (r: Equation)
    ensures r == Tidy(e)
  {
    r := e;
    if e.rhs < 0.0 {
      var terms := e.terms;
      var j := 0;
      while j < |terms|
        invariant 0 <= j <= |terms| == |e.terms|
        invariant terms[..j] == Negated(e.terms)[..j] && terms[j..] == e.terms[j..]
      {
        terms := terms[j := Term(terms[j].cell, -1 * terms[j].sign)];
        j := j + 1;
      }
      assert terms == Negated(e.terms);
      r := Equation(-1.0 * e.rhs, terms);
    }
  }

  /** The shifting loop: the terms after place `j` move down one place and the size drops by one. */
  method RemoveAt(terms: seq<Term>, j: nat) returns (r: seq<Term>)
    requires j < |terms|
    ensures r == terms[..j] + terms[j + 1..]
  {
    var a := terms;
    var k := j + 1;
    while k < |terms|
      invariant j + 1 <= k <= |terms| && |a| == |terms|
      invariant a[..k - 1] == terms[..j] + terms[j + 1..k]
      invariant a[k - 1..] == terms[k - 1..]
    {
      assert a[k] == terms[k] by {
        assert a[k - 1..][1] == terms[k - 1..][1];
      }
      ghost var before := a;
      a := a[k - 1 := a[k]];
      assert a[..k] == before[..k - 1] + [terms[k]];
      assert terms[j + 1..k + 1] == terms[j + 1..k] + [terms[k]];
      k := k + 1;
    }
    assert terms[j + 1..k] == terms[j + 1..];
    r := a[..|terms| - 1];
  }

  /** The two processing equations for term `j`, filled by the `for k` loop. */
  method SetUpProcessing(e: Equation, j: nat) returns (lo: Processing, up: Processing)
    requires j < |e.terms|
    ensures lo == LowerProcessing(e, j, |e.terms|) && up == UpperProcessing(e, j, |e.terms|)
  {
    var dest := e.terms[j];
    var rhs := if dest.sign == 1 then e.rhs else -e.rhs;
    lo := Processing(dest.cell, rhs, [], [], [], []);
    up := Processing(dest.cell, rhs, [], [], [], []);
    var k := 0;
    while k < |e.terms|
      invariant 0 <= k <= |e.terms|
      invariant lo == LowerProcessing(e, j, k) && up == UpperProcessing(e, j, k)
    {
      if k != j {
        var t := e.terms[k];
        if (t.sign == 1) == (dest.sign == 1) {
          lo := lo.(upperSubs := lo.upperSubs + [t.cell]);
          up := up.(lowerSubs := up.lowerSubs + [t.cell]);
        } else {
          lo := lo.(lowerAdds := lo.lowerAdds + [t.cell]);
          up := up.(upperAdds := up.upperAdds + [t.cell]);
        }
      }
      k := k + 1;
    }
  }

  class Unpicker {
    /** The table as read from the JJ file. */
    const cells: seq<Cell>
    const equations: seq<Equation>
    /** `cell_bounds`. */
    const bounds: array<Bounds>
    /** `consolidated_eqtns`; `no_consolidated_eqtns` is its length. */
    var consolidated: seq<Equation>
    /** The four counters of `evaluate_exposure`. */
    var counts: Counts

    ghost predicate Valid()
      reads this
    {
      bounds.Length == |cells| && forall i :: 0 <= i < |consolidated| ==> TermsIn(consolidated[i].terms, |cells|)
    }

    /** Suppressed cells start in [0, DBL_MAX], the others pinned at their value; all counters are 0. */
    constructor (cells: seq<Cell>, equations: seq<Equation>)
      ensures Valid() && fresh(bounds) && this.cells == cells && this.equations == equations
      ensures bounds[..] == InitialBounds(cells) && consolidated == [] && counts == Counts(0, 0, 0, 0)
    {
      var b := new Bounds[|cells|];
      var i := 0;
      while i < |cells|
        invariant 0 <= i <= |cells|
        invariant forall k :: 0 <= k < i ==> b[k] == InitialBound(cells[k])
      {
        if cells[i].status == Primary || cells[i].status == Secondary {
          b[i] := Bounds(0.0, DblMax);
        } else {
          b[i] := Bounds(cells[i].nominal, cells[i].nominal);
        }
        i := i + 1;
      }
      this.cells := cells;
      this.equations := equations;
      bounds := b;
      consolidated := [];
      counts := Counts(0, 0, 0, 0);
    }

    /** `tidy_up_the_consolidated_equations`. */
    method TidyUp()
      requires Valid()
      modifies this
      ensures Valid() && consolidated == TidyAll(old(consolidated)) && counts == old(counts)
    {
      var i := 0;
      while i < |consolidated|
        invariant 0 <= i <= |consolidated| == |old(consolidated)|
        invariant consolidated[..i] == TidyAll(old(consolidated))[..i] && consolidated[i..] == old(consolidated)[i..]
        invariant counts == old(counts)
      {
        var t := TidyEquation(consolidated[i]);
        consolidated := consolidated[i := t];
        i := i + 1;
      }
      assert consolidated == TidyAll(old(consolidated));
    }

    /** The counting loop over one equation: its suppressed cells in the table. */
    method CountSuppressed(e: Equation) returns (m: nat)
      ensures m == |SuppressedTerms(e.terms, cells)|
    {
      m := 0;
      var j := 0;
      while j < |e.terms|
        invariant 0 <= j <= |e.terms|
        invariant m == |SuppressedTerms(e.terms[..j], cells)|
      {
        assert e.terms[..j + 1][..j] == e.terms[..j];
        var c := e.terms[j].cell;
        if 0 <= c < |cells| && (cells[c].status == Primary || cells[c].status == Secondary) {
          m := m + 1;
        }
        j := j + 1;
      }
      assert e.terms[..j] == e.terms;
    }

    /** The copying loop over one kept equation: suppressed terms kept, published ones moved to the right-hand side. */
    method ReduceEquation(e: Equation) returns (r: Equation)
      ensures r == Reduced(e, cells)
    {
      var rhs := e.rhs;
      var terms: seq<Term> := [];
      var j := 0;
      while j < |e.terms|
        invariant 0 <= j <= |e.terms|
        invariant terms == SuppressedTerms(e.terms[..j], cells)
        invariant rhs == e.rhs - PublishedSum(e.terms[..j], cells)
      {
        assert e.terms[..j + 1][..j] == e.terms[..j];
        var t := e.terms[j];
        if 0 <= t.cell < |cells| {
          if cells[t.cell].status == Primary || cells[t.cell].status == Secondary {
            terms := terms + [t];
          } else {
            rhs := rhs - Scale(t.sign, cells[t.cell].nominal);
          }
        }
        j := j + 1;
      }
      assert e.terms[..j] == e.terms;
      r := Equation(rhs, terms);
    }

    /** The first pass of `consolidate_the_consistency_equations`: the equations with a suppressed cell. */
    method CountKept() returns (n: nat)
      ensures n == NumberWithSuppressed(equations, cells)
    {
      n := 0;
      var i := 0;
      while i < |equations|
        invariant 0 <= i <= |equations|
        invariant n == NumberWithSuppressed(equations[..i], cells)
      {
        assert equations[..i + 1][..i] == equations[..i];
        var m := CountSuppressed(equations[i]);
        if m > 0 {
          n := n + 1;
        }
        i := i + 1;
      }
      assert equations[..i] == equations;
    }

    /** The second pass: the array of the counted size filled with the reduced equations. */
    method FillKept(n: nat) returns (out: array<Equation>)
      requires n == NumberWithSuppressed(equations, cells)
      ensures fresh(out) && out[..] == Reductions(equations, cells)
    {
      out := new Equation[n];
      var k := 0;
      var i := 0;
      while i < |equations|
        invariant 0 <= i <= |equations|
        invariant k == NumberWithSuppressed(equations[..i], cells) && k <= out.Length
        invariant out[..k] == Reductions(equations[..i], cells)
      {
        ReductionsSnoc(equations, cells, i);
        NumberWithSuppressedMonotone(equations, cells, i + 1);
        var m := CountSuppressed(equations[i]);
        if m > 0 {
          var r := ReduceEquation(equations[i]);
          ghost var before := out[..k];
          out[k] := r;
          assert out[..k + 1] == before + [r];
          k := k + 1;
        }
        i := i + 1;
      }
      assert equations[..i] == equations;
      assert out[..] == out[..k];
    }

    /**
     * `consolidate_the_consistency_equations`: a first pass counts the
     * equations with a suppressed cell, an array of that size is filled by a
     * second pass, and the result is tidied.
     */
    method Consolidate()
      requires Valid()
      modifies this
      ensures Valid() && consolidated == Consolidation(equations, cells) && counts == old(counts)
    {
      var n := CountKept();
      var out := FillKept(n);
      consolidated := out[..];
      TidyUp();
    }

    /** One equation of `simplify_the_consistency_equations`, with the number of terms removed. */
    method SimplifyEquationIn(e: Equation) returns (r: Equation, m: nat)
      requires Valid() && TermsIn(e.terms, |cells|)
      ensures (r, m) == SimplifyEquation(e, bounds[..])
    {
      r, m := e, 0;
      if |e.terms| == 0 {
      } else if |e.terms| == 1 {
        var c := e.terms[0].cell;
        if Abs(bounds[c].upper - bounds[c].lower) < FloatPrecision {
          r, m := Equation(e.rhs, []), 1;
        }
      } else {
        var j := 0;
        while j < |r.terms|
          invariant TermsIn(r.terms, |cells|)
          invariant SimplifyFrom(e, 0, bounds[..]) ==
                    (SimplifyFrom(r, j, bounds[..]).0, SimplifyFrom(r, j, bounds[..]).1 + m)
          decreases |r.terms| - j
        {
          var c := r.terms[j].cell;
          if Abs(bounds[c].upper - bounds[c].lower) < FloatPrecision {
            var rhs := if r.terms[j].sign == 1 then r.rhs - bounds[c].upper else r.rhs + bounds[c].upper;
            var terms := RemoveAt(r.terms, j);
            assert Equation(rhs, terms) == RemoveTerm(r, j, bounds[..]);
            r := Equation(rhs, terms);
            m := m + 1;
          }
          j := j + 1;
        }
      }
    }

    /** The `for i` loop of `simplify_the_consistency_equations`: each equation in turn replaced by its simplified form. */
    method SimplifyEachIn(es: seq<Equation>) returns (r: seq<Equation>, n: nat)
      requires Valid() && forall i :: 0 <= i < |es| ==> TermsIn(es[i].terms, |cells|)
      ensures (r, n) == SimplifyEach(es, bounds[..])
    {
      r, n := [], 0;
      var i := 0;
      while i < |es|
        invariant 0 <= i <= |es|
        invariant (r, n) == SimplifyEach(es[..i], bounds[..])
      {
        SimplifyEachSnoc(es, i, bounds[..]);
        var e, m := SimplifyEquationIn(es[i]);
        r, n := r + [e], n + m;
        i := i + 1;
      }
      assert es[..i] == es;
    }

    /**
     * `simplify_the_consistency_equations`: every equation simplified, then
     * tidied; returns the number of terms removed.
     */
    method Simplify() returns (n: nat)
      requires Valid()
      modifies this
      ensures Valid() && counts == old(counts)
      ensures (consolidated, n) == Simplified(old(consolidated), bounds[..])
    {
      var r;
      r, n := SimplifyEachIn(consolidated);
      consolidated := r;
      TidyUp();
    }

    /** One equation of `set_initial_lower_and_upper_bounds`. */
    method SetInitialFor(e: Equation)
      requires Valid() && TermsIn(e.terms, |cells|)
      modifies bounds
      ensures bounds[..] == SetInitialEquation(e, old(bounds[..]))
    {
      if |e.terms| == 1 {
        var c := e.terms[0].cell;
        bounds[c] := Bounds(e.rhs, e.rhs);
      } else if |e.terms| > 1 {
        var plus := 0;
        var j := 0;
        while j < |e.terms|
          invariant 0 <= j <= |e.terms| && 0 <= plus <= j
          invariant plus == j <==> AllPlus(e.terms[..j])
        {
          assert e.terms[..j + 1][..j] == e.terms[..j];
          if e.terms[j].sign == 1 {
            plus := plus + 1;
          }
          j := j + 1;
        }
        assert e.terms[..j] == e.terms;
        if plus == |e.terms| {
          j := 0;
          while j < |e.terms|
            invariant 0 <= j <= |e.terms| && TermsIn(e.terms[..j], |cells|)
            invariant bounds[..] == CapAll(e.terms[..j], e.rhs, old(bounds[..]))
          {
            assert e.terms[..j + 1][..j] == e.terms[..j];
            var c := e.terms[j].cell;
            if bounds[c].lower < 0.0 {
              bounds[c] := bounds[c].(lower := 0.0);
            }
            if bounds[c].upper > e.rhs {
              bounds[c] := bounds[c].(upper := e.rhs);
            }
            j := j + 1;
          }
          assert e.terms[..j] == e.terms;
        }
      }
    }

    /**
     * `set_initial_lower_and_upper_bounds`: every consolidated equation in
     * turn; false when one of them has no terms left.
     */
    method SetInitial() returns (rc: bool)
      requires Valid()
      modifies bounds
      ensures bounds[..] == SetInitialAll(consolidated, old(bounds[..])) && rc == NoEmpty(consolidated)
    {
      rc := true;
      var i := 0;
      while i < |consolidated|
        invariant 0 <= i <= |consolidated|
        invariant bounds[..] == SetInitialAll(consolidated[..i], old(bounds[..]))
        invariant rc == NoEmpty(consolidated[..i])
      {
        assert consolidated[..i + 1][..i] == consolidated[..i];
        if |consolidated[i].terms| == 0 {
          rc := false;
        }
        SetInitialFor(consolidated[i]);
        i := i + 1;
      }
      assert consolidated[..i] == consolidated;
    }

    /** One of the four `for j` loops over a processing equation's cell list. */
    method Accumulate(result: real, cs: seq<int>, lower: bool, add: bool) returns (r: real)
      requires forall k :: 0 <= k < |cs| ==> 0 <= cs[k] < bounds.Length
      ensures r == if add then result + SumBounds(cs, bounds[..], lower) else result - SumBounds(cs, bounds[..], lower)
    {
      r := result;
      var j := 0;
      while j < |cs|
        invariant 0 <= j <= |cs|
        invariant r == if add then result + SumBounds(cs[..j], bounds[..], lower) else result - SumBounds(cs[..j], bounds[..], lower)
      {
        assert cs[..j + 1][..j] == cs[..j];
        var b := bounds[cs[j]];
        var v := if lower then b.lower else b.upper;
        r := if add then r + v else r - v;
        j := j + 1;
      }
      assert cs[..j] == cs;
    }

    /** The bound one processing equation gives from the current bounds. */
    method EvaluateIn(p: Processing) returns (result: real)
      requires ProcessingIn(p, bounds.Length)
      ensures result == Evaluate(p, bounds[..])
    {
      result := p.rhs;
      result := Accumulate(result, p.lowerAdds, true, true);
      result := Accumulate(result, p.upperAdds, false, true);
      result := Accumulate(result, p.lowerSubs, true, false);
      result := Accumulate(result, p.upperSubs, false, false);
    }

    /** The two arrays of processing equations for one consolidated equation, one entry per term. */
    method FillProcessing(e: Equation) returns (lower: array<Processing>, upper: array<Processing>)
      ensures fresh(lower) && fresh(upper) && lower.Length == upper.Length == |e.terms|
      ensures forall j :: 0 <= j < |e.terms| ==>
                lower[j] == LowerProcessing(e, j, |e.terms|) && upper[j] == UpperProcessing(e, j, |e.terms|)
    {
      lower := new Processing[|e.terms|];
      upper := new Processing[|e.terms|];
      var j := 0;
      while j < |e.terms|
        invariant 0 <= j <= |e.terms|
        invariant forall k :: 0 <= k < j ==>
                    lower[k] == LowerProcessing(e, k, |e.terms|) && upper[k] == UpperProcessing(e, k, |e.terms|)
      {
        var lo, up := SetUpProcessing(e, j);
        lower[j] := lo;
        upper[j] := up;
        j := j + 1;
      }
    }

    /** `if (cell_bounds[cellno].lower < result)`, in place. */
    method RaiseLowerIn(c: int, result: real) returns (changed: bool)
      requires 0 <= c < bounds.Length
      modifies bounds
      ensures (bounds[..], changed) == RaiseLower(old(bounds[..]), c, result)
    {
      changed := false;
      if bounds[c].lower < result {
        bounds[c] := bounds[c].(lower := result);
        changed := true;
      }
    }

    /** `if (cell_bounds[cellno].upper > result)`, in place. */
    method LowerUpperIn(c: int, result: real) returns (changed: bool)
      requires 0 <= c < bounds.Length
      modifies bounds
      ensures (bounds[..], changed) == LowerUpper(old(bounds[..]), c, result)
    {
      changed := false;
      if bounds[c].upper > result {
        bounds[c] := bounds[c].(upper := result);
        changed := true;
      }
    }

    /** "Improve lower bounds": each lower processing equation in turn. */
    method LowerPassIn(e: Equation, lower: array<Processing>) returns (rc: bool)
      requires TermsIn(e.terms, bounds.Length) && lower.Length == |e.terms|
      requires forall j :: 0 <= j < |e.terms| ==> lower[j] == LowerProcessing(e, j, |e.terms|)
      modifies bounds
      ensures (bounds[..], rc) == LowerPass(e, |e.terms|, old(bounds[..]))
    {
      ghost var start := bounds[..];
      rc := false;
      var k := 0;
      while k < |e.terms|
        invariant 0 <= k <= |e.terms|
        invariant (bounds[..], rc) == LowerPass(e, k, start)
      {
        var changed := LowerStepIn(e, k, lower[k]);
        rc := rc || changed;
        k := k + 1;
      }
    }

    /** One turn of the lower pass, in place. */
    method LowerStepIn(e: Equation, k: nat, p: Processing) returns (changed: bool)
      requires TermsIn(e.terms, bounds.Length) && k < |e.terms| && p == LowerProcessing(e, k, |e.terms|)
      modifies bounds
      ensures (bounds[..], changed) == LowerStep(e, k, old(bounds[..]))
    {
      LowerProcessingIn(e, k, |e.terms|, bounds.Length);
      var result := EvaluateIn(p);
      changed := RaiseLowerIn(p.cell, result);
    }

    /** "Improve upper bounds": each upper processing equation in turn. */
    method UpperPassIn(e: Equation, upper: array<Processing>) returns (rc: bool)
      requires TermsIn(e.terms, bounds.Length) && upper.Length == |e.terms|
      requires forall j :: 0 <= j < |e.terms| ==> upper[j] == UpperProcessing(e, j, |e.terms|)
      modifies bounds
      ensures (bounds[..], rc) == UpperPass(e, |e.terms|, old(bounds[..]))
    {
      ghost var start := bounds[..];
      rc := false;
      var k := 0;
      while k < |e.terms|
        invariant 0 <= k <= |e.terms|
        invariant (bounds[..], rc) == UpperPass(e, k, start)
      {
        var changed := UpperStepIn(e, k, upper[k]);
        rc := rc || changed;
        k := k + 1;
      }
    }

    /** One turn of the upper pass, in place. */
    method UpperStepIn(e: Equation, k: nat, p: Processing) returns (changed: bool)
      requires TermsIn(e.terms, bounds.Length) && k < |e.terms| && p == UpperProcessing(e, k, |e.terms|)
      modifies bounds
      ensures (bounds[..], changed) == UpperStep(e, k, old(bounds[..]))
    {
      UpperProcessingIn(e, k, |e.terms|, bounds.Length);
      var result := EvaluateIn(p);
      changed := LowerUpperIn(p.cell, result);
    }

    /** One consolidated equation of `improve_lower_and_upper_bounds`. */
    method ImproveEquationIn(e: Equation) returns (changed: bool)
      requires Valid() && TermsIn(e.terms, |cells|)
      modifies bounds
      ensures (bounds[..], changed) == ImproveEquation(e, old(bounds[..]))
    {
      var lower, upper := FillProcessing(e);
      var lo := LowerPassIn(e, lower);
      var up := UpperPassIn(e, upper);
      changed := lo || up;
    }

    /**
     * `improve_lower_and_upper_bounds`: every consolidated equation in turn;
     * true when some bound changed.
     */
    method Improve() returns (rc: bool)
      requires Valid()
      modifies bounds
      ensures (bounds[..], rc) == ImproveAll(consolidated, old(bounds[..]))
    {
      rc := false;
      var i := 0;
      while i < |consolidated|
        invariant 0 <= i <= |consolidated|
        invariant (bounds[..], rc) == ImproveAll(consolidated[..i], old(bounds[..]))
      {
        assert consolidated[..i + 1][..i] == consolidated[..i];
        var changed := ImproveEquationIn(consolidated[i]);
        rc := rc || changed;
        i := i + 1;
      }
      assert consolidated[..i] == consolidated;
    }

    /** `evaluate_exposure`: the four counters over the cells and their bounds. */
    method EvaluateExposure()
      requires Valid()
      modifies this
      ensures Valid() && consolidated == old(consolidated) && counts == Tally(cells, bounds[..])
    {
      counts := Counts(0, 0, 0, 0);
      var i := 0;
      while i < |cells|
        invariant 0 <= i <= |cells| && Valid() && consolidated == old(consolidated)
        invariant counts == Tally(cells[..i], bounds[..i])
      {
        TallySnoc(cells, bounds[..], i);
        var c := cells[i];
        var b := bounds[i];
        if c.status == Primary {
          counts := counts.(primary := counts.primary + 1);
          var temp := c.nominal - c.lowerProtection;
          if temp < 0.0 {
            temp := FloatPrecision;
          }
          if Abs(b.upper - b.lower) < FloatPrecision {
            if Abs(b.lower - c.nominal) < FloatPrecision {
              counts := counts.(exactly := counts.exactly + 1);
            }
          } else if b.lower > temp {
            counts := counts.(within := counts.within + 1);
          } else if b.upper < c.nominal + c.upperProtection {
            counts := counts.(within := counts.within + 1);
          } else if c.slidingProtection > 0.0 {
            if b.upper - b.lower < c.slidingProtection {
              counts := counts.(within := counts.within + 1);
            }
          }
        } else if c.status == Secondary {
          counts := counts.(secondary := counts.secondary + 1);
        }
        i := i + 1;
      }
      assert cells[..i] == cells && bounds[..i] == bounds[..];
    }

    /** `while (simplify_the_consistency_equations() > 0) set_initial_lower_and_upper_bounds();` */
    method SimplifyUntilStable()
      requires Valid()
      modifies this, bounds
      ensures Valid() && counts == old(counts)
      ensures (consolidated, bounds[..]) == SimplifyLoop(old(consolidated), old(bounds[..]))
    {
      ghost var es, b := consolidated, bounds[..];
      var n := Simplify();
      while n > 0
        invariant Valid() && counts == old(counts)
        invariant SimplifyLoop(es, b) ==
                  if n > 0 then SimplifyLoop(consolidated, SetInitialAll(consolidated, bounds[..]))
                  else (consolidated, bounds[..])
        decreases TotalTerms(consolidated) + if n > 0 then 1 else 0
      {
        var _ := SetInitial();
        n := Simplify();
      }
    }

    /** `while ((improve_lower_and_upper_bounds()) && (iterations < 10)) iterations++;` */
    method ImproveUntilStable()
      requires Valid()
      modifies bounds
      ensures bounds[..] == ImproveLoop(consolidated, old(bounds[..]), 0)
    {
      ghost var b := bounds[..];
      var iterations := 0;
      var improved := Improve();
      while improved && iterations < 10
        invariant 0 <= iterations <= 10
        invariant ImproveLoop(consolidated, b, 0) ==
                  if improved && iterations < 10 then ImproveLoop(consolidated, bounds[..], iterations + 1)
                  else bounds[..]
        decreases 10 - iterations
      {
        iterations := iterations + 1;
        improved := Improve();
      }
    }

    /**
     * `Attack`: consolidate; if no equation is empty, simplify until nothing
     * more is removed, setting the bounds again after every pass, then
     * improve the bounds until nothing changes or ten further passes have
     * run; finally count the exposed cells.
     */
    method Attack()
      requires Valid()
      modifies this, bounds
      ensures Valid()
      ensures (consolidated, bounds[..]) == Attacked(equations, cells, old(bounds[..]))
      ensures counts == Tally(cells, bounds[..])
    {
      Consolidate();
      var ok := SetInitial();
      if ok {
        SimplifyUntilStable();
        ImproveUntilStable();
      }
      EvaluateExposure();
    }
  }
}
