/**
 * The discrete shell of the remote solver (`cell_suppression_solver/Solver.cpp`):
 * the number of steps, the protection loop that asks the LP, step by step, which
 * cells must be published no longer and records the cost after every step, the
 * cost itself, and the sparse matrix handed to the LP.
 *
 * The LP is not modelled. Its answers are a parameter `lp`: `lp(i, true)` is the
 * set of cells whose Y-minus plus Y-plus solution exceeds 0.01 after the Y-minus
 * solve of step `i`, and `lp(i, false)` the same after the Y-plus solve.
 */
module Solvers {
  import opened Common
  import opened JJData
  import opened Groups

  // ---------------------------------------------------------------------------
  // What one step does to the statuses
  // ---------------------------------------------------------------------------

  /** A cell the LP gives a positive value: a published 's' cell becomes 'm'. */
  function MarkCell(c: Cell, positive: bool): Cell
  {
    if positive && c.status == Safe then c.(status := Secondary) else c
  }

  /** The scan over all cells after one solve. */
  function Mark(cells: seq<Cell>, positive: set<int>): (r: seq<Cell>)
    ensures |r| == |cells|
    ensures forall j :: 0 <= j < |cells| ==> r[j] == MarkCell(cells[j], j in positive)
  {
    seq(|cells|, j requires 0 <= j < |cells| => MarkCell(cells[j], j in positive))
  }

  /**
   * `after` differs from `before` only in 's' cells that became 'm': every
   * other status, and every other field, is the same.
   */
  ghost predicate OnlyMarked(before: seq<Cell>, after: seq<Cell>)
  {
    |before| == |after| &&
    forall j :: 0 <= j < |before| ==>
      after[j] == before[j] || (before[j].status == Safe && after[j] == before[j].(status := Secondary))
  }

  lemma OnlyMarkedTransitive(a: seq<Cell>, b: seq<Cell>, c: seq<Cell>)
    requires OnlyMarked(a, b) && OnlyMarked(b, c)
    ensures OnlyMarked(a, c)
  {
  }

  /** Whether the protection model solves the Y-minus problem. */
  predicate SolvesMinus(model: int)
  {
    model == FullModel || model == YMinusModel
  }

  /** Whether the protection model solves the Y-plus problem. */
  predicate SolvesPlus(model: int)
  {
    model == FullModel || model == YPlusModel
  }

  /**
   * Step `i` of the protection loop: unless it is skipped (an empty group),
   * the Y-minus solve and then the Y-plus solve, as the model asks, each
   * followed by the scan. A step only ever turns 's' cells into 'm'.
   */
  function Step(cells: seq<Cell>, i: nat, model: int, active: bool, lp: (nat, bool) -> set<int>): (r: seq<Cell>)
    ensures OnlyMarked(cells, r)
    ensures !active || !(SolvesMinus(model) || SolvesPlus(model)) ==> r == cells
  {
    if !active then cells
    else
      var afterMinus := if SolvesMinus(model) then Mark(cells, lp(i, true)) else cells;
      if SolvesPlus(model) then Mark(afterMinus, lp(i, false)) else afterMinus
  }

  /** `reset` on the statuses: every 'm' goes back to 's'. */
  function Unmarked(cells: seq<Cell>): (r: seq<Cell>)
    ensures |r| == |cells|
    ensures forall j :: 0 <= j < |cells| ==>
              r[j] == if cells[j].status == Secondary then cells[j].(status := Safe) else cells[j]
  {
    seq(|cells|, j requires 0 <= j < |cells| =>
      if cells[j].status == Secondary then cells[j].(status := Safe) else cells[j])
  }

  /** The cells after the reset and the first `k` steps. */
  function After(start: seq<Cell>, k: nat, model: int, active: seq<bool>, lp: (nat, bool) -> set<int>): (r: seq<Cell>)
    requires k <= |active|
    ensures |r| == |start|
  {
    if k == 0 then Unmarked(start)
    else Step(After(start, k - 1, model, active, lp), k - 1, model, active[k - 1], lp)
  }

  /**
   * After the reset the statuses only move from 's' to 'm': every step up to
   * `k` leaves primaries, protected cells and already marked cells alone.
   */
  lemma {:induction false} RunOnlyMarks(start: seq<Cell>, i: nat, k: nat, model: int, active: seq<bool>,
                                        lp: (nat, bool) -> set<int>)
    requires i <= k <= |active|
    ensures OnlyMarked(After(start, i, model, active, lp), After(start, k, model, active, lp))
  {
    if k > i {
      RunOnlyMarks(start, i, k - 1, model, active, lp);
      OnlyMarkedTransitive(After(start, i, model, active, lp), After(start, k - 1, model, active, lp),
                           After(start, k, model, active, lp));
    }
  }

  // ---------------------------------------------------------------------------
  // The cost
  // ---------------------------------------------------------------------------

  /** The loss-of-information weight of the cells that are not published ('u' or 'm'). */
  function Cost(cells: seq<Cell>): real
  {
    if cells == [] then 0.0
    else Cost(cells[..|cells| - 1]) +
         (if IsSuppressed(cells[|cells| - 1].status) then cells[|cells| - 1].weight else 0.0)
  }

  /** With non-negative weights, turning 's' cells into 'm' never lowers the cost. */
  lemma {:induction false} CostMonotone(before: seq<Cell>, after: seq<Cell>)
    requires OnlyMarked(before, after)
    requires forall j :: 0 <= j < |before| ==> before[j].weight >= 0.0
    ensures Cost(before) <= Cost(after)
  {
    if before != [] {
      var n := |before| - 1;
      CostMonotone(before[..n], after[..n]);
    }
  }

  /** The reset and the steps keep every weight. */
  lemma {:induction false} AfterKeepsWeights(start: seq<Cell>, k: nat, model: int, active: seq<bool>,
                                             lp: (nat, bool) -> set<int>)
    requires k <= |active|
    ensures forall j :: 0 <= j < |start| ==> After(start, k, model, active, lp)[j].weight == start[j].weight
  {
    if k > 0 {
      AfterKeepsWeights(start, k - 1, model, active, lp);
    }
  }

  /**
   * With non-negative weights the cost recorded after each step never falls:
   * the cost after `i` steps is at most the cost after `k >= i` steps.
   */
  lemma CostsNonDecreasing(start: seq<Cell>, i: nat, k: nat, model: int, active: seq<bool>,
                           lp: (nat, bool) -> set<int>)
    requires i <= k <= |active|
    requires forall j :: 0 <= j < |start| ==> start[j].weight >= 0.0
    ensures Cost(After(start, i, model, active, lp)) <= Cost(After(start, k, model, active, lp))
  {
    RunOnlyMarks(start, i, k, model, active, lp);
    AfterKeepsWeights(start, i, model, active, lp);
    CostMonotone(After(start, i, model, active, lp), After(start, k, model, active, lp));
  }

  // ---------------------------------------------------------------------------
  // The protection loop
  // ---------------------------------------------------------------------------

  /** The early stop: a cost limit was given (|max_cost| >= FLOAT_PRECISION) and the cost reached it. */
  predicate StopsAt(maxCost: real, cost: real)
  {
    Abs(maxCost) >= FloatPrecision && cost >= maxCost
  }

  /** Entry `i` of `costs` is the cost after step `i`. */
  ghost predicate Recorded(start: seq<Cell>, costs: seq<real>, model: int, active: seq<bool>,
                           lp: (nat, bool) -> set<int>)
  {
    |costs| <= |active| &&
    forall i :: 0 <= i < |costs| ==> costs[i] == Cost(After(start, i + 1, model, active, lp))
  }

  lemma RecordedSnoc(start: seq<Cell>, costs: seq<real>, cost: real, model: int, active: seq<bool>,
                     lp: (nat, bool) -> set<int>)
    requires Recorded(start, costs, model, active, lp) && |costs| < |active|
    requires cost == Cost(After(start, |costs| + 1, model, active, lp))
    ensures Recorded(start, costs + [cost], model, active, lp)
  {
  }

  /** No cost before the last one reached the limit. */
  predicate NoEarlierStop(maxCost: real, costs: seq<real>)
  {
    forall i :: 0 <= i < |costs| - 1 ==> !StopsAt(maxCost, costs[i])
  }

  /**
   * The costs a protection run records for `n` steps: entry `i` is the cost
   * after step `i`; the run goes on while no cost reaches the limit, and stops
   * early only right after the first one that does.
   */
  ghost predicate CostTrace(start: seq<Cell>, costs: seq<real>, n: nat, model: int, maxCost: real,
                            active: seq<bool>, lp: (nat, bool) -> set<int>)
    requires n <= |active|
  {
    |costs| <= n && Recorded(start, costs, model, active, lp) && NoEarlierStop(maxCost, costs) &&
    (|costs| < n ==> |costs| > 0 && StopsAt(maxCost, costs[|costs| - 1]))
  }

  /** In individual protection every step solves. */
  function AllActive(n: nat): (r: seq<bool>)
    ensures |r| == n && forall i :: 0 <= i < n ==> r[i]
  {
    seq(n, _ => true)
  }

  /** In group protection step `i` solves only when group `order[i]` has cells. */
  function GroupActive(order: seq<int>, groupCells: seq<seq<int>>): (r: seq<bool>)
    requires forall i :: 0 <= i < |order| ==> 0 <= order[i] < |groupCells|
    ensures |r| == |order|
    ensures forall i :: 0 <= i < |order| ==> (r[i] <==> groupCells[order[i]] != [])
  {
    seq(|order|, i requires 0 <= i < |order| => groupCells[order[i]] != [])
  }

  // ---------------------------------------------------------------------------
  // The sparse matrix
  // ---------------------------------------------------------------------------

  /** One entry of the constraint matrix: row, column and coefficient. */
  datatype Element = Element(row: int, col: int, value: real)

  /** The number of terms over all equations. */
  function Size(equations: seq<Equation>): nat
  {
    if equations == [] then 0
    else Size(equations[..|equations| - 1]) + |equations[|equations| - 1].terms|
  }

  /**
   * The entries for the terms of equation `row`: for each term, the Y-minus
   * column of its cell with the negated sign, then the Y-plus column with the
   * sign.
   */
  function TermElements(row: int, terms: seq<Term>, plusOffset: int): (r: seq<Element>)
    ensures |r| == 2 * |terms|
    ensures forall j :: 0 <= j < |terms| ==>
              r[2 * j] == Element(row, terms[j].cell, -(terms[j].sign as real)) &&
              r[2 * j + 1] == Element(row, plusOffset + terms[j].cell, terms[j].sign as real)
  {
    if terms == [] then []
    else
      var n := |terms| - 1;
      TermElements(row, terms[..n], plusOffset) +
        [Element(row, terms[n].cell, -(terms[n].sign as real)),
         Element(row, plusOffset + terms[n].cell, terms[n].sign as real)]
  }

  /** The entries of the whole matrix, equation by equation. */
  function MatrixElements(equations: seq<Equation>, plusOffset: int): (r: seq<Element>)
    ensures |r| == 2 * Size(equations)
  {
    if equations == [] then []
    else
      var n := |equations| - 1;
      MatrixElements(equations[..n], plusOffset) + TermElements(n, equations[n].terms, plusOffset)
  }

  /** The matrix of a prefix of the equations is a prefix of the matrix. */
  lemma {:induction false} MatrixPrefix(equations: seq<Equation>, i: nat, plusOffset: int)
    requires i <= |equations|
    ensures 2 * Size(equations[..i]) <= 2 * Size(equations)
    ensures MatrixElements(equations[..i], plusOffset) ==
            MatrixElements(equations, plusOffset)[..2 * Size(equations[..i])]
  {
    if i < |equations| {
      var n := |equations| - 1;
      assert equations[..n][..i] == equations[..i];
      MatrixPrefix(equations[..n], i, plusOffset);
    } else {
      assert equations[..i] == equations;
    }
  }

  /**
   * Term `j` of equation `i` gives two consecutive entries, at position twice
   * the number of terms before it: the Y-minus one with the negated sign and
   * the Y-plus one with the sign, both in row `i`. So the matrix has exactly
   * two entries per term.
   */
  lemma ElementsOfTerm(equations: seq<Equation>, i: nat, j: nat, plusOffset: int)
    requires i < |equations| && j < |equations[i].terms|
    ensures 2 * (Size(equations[..i]) + j) + 1 < |MatrixElements(equations, plusOffset)|
    ensures MatrixElements(equations, plusOffset)[2 * (Size(equations[..i]) + j)] ==
            Element(i, equations[i].terms[j].cell, -(equations[i].terms[j].sign as real))
    ensures MatrixElements(equations, plusOffset)[2 * (Size(equations[..i]) + j) + 1] ==
            Element(i, plusOffset + equations[i].terms[j].cell, equations[i].terms[j].sign as real)
  {
    var pre := equations[..i + 1];
    assert pre[..i] == equations[..i];
    MatrixPrefix(equations, i + 1, plusOffset);
    var m := MatrixElements(equations[..i], plusOffset);
    var t := TermElements(i, equations[i].terms, plusOffset);
    assert MatrixElements(pre, plusOffset) == m + t;
    var e := 2 * (Size(equations[..i]) + j);
    assert (m + t)[e] == t[2 * j] && (m + t)[e + 1] == t[2 * j + 1];
  }

  /** The entries of one more term. */
  lemma TermElementsSnoc(row: int, terms: seq<Term>, j: nat, plusOffset: int)
    requires j < |terms|
    ensures TermElements(row, terms[..j + 1], plusOffset) ==
            TermElements(row, terms[..j], plusOffset) +
              [Element(row, terms[j].cell, -(terms[j].sign as real)),
               Element(row, plusOffset + terms[j].cell, terms[j].sign as real)]
  {
    assert terms[..j + 1][..j] == terms[..j];
  }

  /** The upper bound of both columns of a cell: 0 for a 'z' cell, its nominal value otherwise. */
  function ColumnUpper(c: Cell): real
  {
    if c.status == Protected then 0.0 else c.nominal
  }

  /** The objective coefficient of both columns of a cell: 0 for 'u' and 'm' cells, its weight otherwise. */
  function ColumnCost(c: Cell): real
  {
    if IsSuppressed(c.status) then 0.0 else c.weight
  }

  // ---------------------------------------------------------------------------
  // The solver
  // ---------------------------------------------------------------------------

  class Solver {
    const table: JJTable
    const groupProtection: bool
    /** The cells of each group slot under group protection; empty otherwise. */
    const groupCells: seq<seq<int>>
    /** `number_of_groups`: the number of steps a protection run takes. */
    const numberOfGroups: int
    const yMinusOffset: int
    const yPlusOffset: int

    ghost predicate Valid()
      reads this, table
    {
      0 <= numberOfGroups && yMinusOffset == 0 && yPlusOffset == table.cells.Length &&
      (groupProtection ==> numberOfGroups <= |groupCells|)
    }

    /**
     * The constructor on a table already read: under group protection the
     * groups are formed (which sorts the table's equations) and the number of
     * steps is the number of groups; otherwise it is the number of primary
     * cells. The Y-minus columns come first, then the Y-plus columns.
     */
    constructor (table: JJTable, groupProtection: bool)
      requires table.Valid()
      modifies table
      ensures Valid()
      ensures this.table == table && this.groupProtection == groupProtection
      ensures table.cells == old(table.cells) && table.cells[..] == old(table.cells[..])
      ensures groupProtection ==>
                |groupCells| <= MaxGroupsLimit &&
                forall g :: 0 <= g < |groupCells| ==> (groupCells[g] != [] <==> g < numberOfGroups)
      ensures !groupProtection ==>
                groupCells == [] && numberOfGroups == Count(Statuses(table.cells[..]), Primary) &&
                table.equations == old(table.equations)
    {
      this.table := table;
      this.groupProtection := groupProtection;
      if groupProtection {
        var groups := new Groups(table);
        groupCells := groups.group[..];
        numberOfGroups := groups.numberOfGroups;
      } else {
        groupCells := [];
        var primaries := table.GetNumberOfPrimaryCells();
        numberOfGroups := primaries;
      }
      yMinusOffset := 0;
      yPlusOffset := table.cells.Length;
    }

    /** `get_cost`: the weight of the cells currently not published. */
    method GetCost() returns (cost: real)
      ensures cost == Cost(table.cells[..])
    {
      cost := 0.0;
      var i := 0;
      while i < table.cells.Length
        invariant 0 <= i <= table.cells.Length
        invariant cost == Cost(table.cells[..i])
      {
        assert table.cells[..i + 1][..i] == table.cells[..i];
        if IsSuppressed(table.cells[i].status) {
          cost := cost + table.cells[i].weight;
        }
        i := i + 1;
      }
      assert table.cells[..i] == table.cells[..];
    }

    /** The scan after a solve: each 's' cell the LP gives a positive value becomes 'm'. */
    method MarkPositive(positive: set<int>)
      modifies table.cells
      ensures table.cells[..] == Mark(old(table.cells[..]), positive)
    {
      var j := 0;
      while j < table.cells.Length
        invariant 0 <= j <= table.cells.Length
        invariant forall l :: 0 <= l < j ==> table.cells[l] == MarkCell(old(table.cells[l]), l in positive)
        invariant forall l :: j <= l < table.cells.Length ==> table.cells[l] == old(table.cells[l])
      {
        if j in positive && table.cells[j].status == Safe {
          table.cells[j] := table.cells[j].(status := Secondary);
        }
        j := j + 1;
      }
    }

    /** One step of the protection loop. */
    method SolveStep(i: nat, model: int, active: bool, lp: (nat, bool) -> set<int>)
      modifies table.cells
      ensures table.cells[..] == Step(old(table.cells[..]), i, model, active, lp)
    {
      if active {
        if SolvesMinus(model) {
          MarkPositive(lp(i, true));
        }
        if SolvesPlus(model) {
          MarkPositive(lp(i, false));
        }
      }
    }

    /** Step `i` followed by `get_cost`. */
    method StepAndCost(ghost start: seq<Cell>, i: nat, model: int, active: seq<bool>, lp: (nat, bool) -> set<int>)
        returns (cost: real)
      requires i < |active| && table.cells[..] == After(start, i, model, active, lp)
      modifies table.cells
      ensures table.cells[..] == After(start, i + 1, model, active, lp)
      ensures cost == Cost(After(start, i + 1, model, active, lp))
    {
      SolveStep(i, model, active[i], lp);
      cost := GetCost();
    }

    /**
     * The loop shared by both runs, after the reset: step after step, the cost
     * is recorded, and the loop stops after `n` steps or right after the first
     * cost that reaches the limit.
     */
    method Protect(ghost start: seq<Cell>, n: nat, model: int, maxCost: real, active: seq<bool>,
                   lp: (nat, bool) -> set<int>) returns (costs: seq<real>)
      requires n <= |active|
      requires table.cells[..] == Unmarked(start)
      modifies table.cells
      ensures CostTrace(start, costs, n, model, maxCost, active, lp)
      ensures table.cells[..] == After(start, |costs|, model, active, lp)
    {
      costs := [];
      var i := 0;
      while i < n
        invariant 0 <= i <= n && |costs| == i
        invariant table.cells[..] == After(start, i, model, active, lp)
        invariant Recorded(start, costs, model, active, lp)
        invariant forall l :: 0 <= l < i ==> !StopsAt(maxCost, costs[l])
      {
        var cost := StepAndCost(start, i, model, active, lp);
        RecordedSnoc(start, costs, cost, model, active, lp);
        costs := costs + [cost];
        if StopsAt(maxCost, cost) {
          return;
        }
        i := i + 1;
      }
    }

    /** `reset` of the table, as the two runs begin with it. */
    method ResetCells()
      modifies table.cells
      ensures table.cells[..] == Unmarked(old(table.cells[..]))
    {
      table.Reset();
    }

    /**
     * `run_individual_protection`: `order` is what the permutation file holds;
     * a file whose size is not the number of steps is error 304 and nothing
     * changes. Otherwise the statuses are reset and one step runs per primary
     * cell in the file's order (the cell only reaches the LP) until all have
     * run or the cost limit is reached.
     */
    method RunIndividualProtection(order: seq<int>, model: int, maxCost: real, lp: (nat, bool) -> set<int>)
        returns (r: Result<seq<real>>)
      requires Valid()
      modifies table.cells
      ensures |order| != numberOfGroups ==> r == Err(304) && table.cells[..] == old(table.cells[..])
      ensures |order| == numberOfGroups ==>
                r.Ok? &&
                CostTrace(old(table.cells[..]), r.value, numberOfGroups, model, maxCost, AllActive(numberOfGroups), lp) &&
                table.cells[..] == After(old(table.cells[..]), |r.value|, model, AllActive(numberOfGroups), lp)
    {
      if |order| != numberOfGroups {
        return Err(304);
      }
      ghost var start := table.cells[..];
      ResetCells();
      var costs := Protect(start, numberOfGroups, model, maxCost, AllActive(numberOfGroups), lp);
      r := Ok(costs);
    }

    /**
     * `run_group_protection`: as the individual run, but step `i` protects
     * group `order[i]` together and solves nothing for an empty group; the
     * cost is recorded after every step, an empty group's included.
     */
    method RunGroupProtection(order: seq<int>, model: int, maxCost: real, lp: (nat, bool) -> set<int>)
        returns (r: Result<seq<real>>)
      requires Valid()
      requires |order| == numberOfGroups ==> forall i :: 0 <= i < |order| ==> 0 <= order[i] < |groupCells|
      modifies table.cells
      ensures |order| != numberOfGroups ==> r == Err(304) && table.cells[..] == old(table.cells[..])
      ensures |order| == numberOfGroups ==>
                r.Ok? &&
                CostTrace(old(table.cells[..]), r.value, numberOfGroups, model, maxCost, GroupActive(order, groupCells), lp) &&
                table.cells[..] == After(old(table.cells[..]), |r.value|, model, GroupActive(order, groupCells), lp)
    {
      if |order| != numberOfGroups {
        return Err(304);
      }
      ghost var start := table.cells[..];
      ResetCells();
      var costs := Protect(start, numberOfGroups, model, maxCost, GroupActive(order, groupCells), lp);
      r := Ok(costs);
    }

    /**
     * The entries of the matrix for equation `row`, written from `element` on;
     * the positions before it keep what they hold.
     */
    method FillEquation(row: nat, element: nat, matrix: array<Element>, ghost done: seq<Element>)
      requires yMinusOffset == 0 && row < |table.equations|
      requires element == |done| && element + 2 * |table.equations[row].terms| <= matrix.Length
      requires matrix[..element] == done
      modifies matrix
      ensures matrix[..element + 2 * |table.equations[row].terms|] ==
              done + TermElements(row, table.equations[row].terms, yPlusOffset)
    {
      var terms := table.equations[row].terms;
      var e := element;
      var j := 0;
      while j < |terms|
        invariant 0 <= j <= |terms| && e == element + 2 * j
        invariant matrix[..e] == done + TermElements(row, terms[..j], yPlusOffset)
      {
        ghost var before := matrix[..e];
        var cell := terms[j].cell;
        matrix[e] := Element(row, yMinusOffset + cell, -1.0 * (terms[j].sign as real));
        matrix[e + 1] := Element(row, yPlusOffset + cell, terms[j].sign as real);
        TermElementsSnoc(row, terms, j, yPlusOffset);
        assert matrix[..e] == before;
        assert matrix[..e + 2] == before + [matrix[e], matrix[e + 1]];
        e := e + 2;
        j := j + 1;
      }
      assert terms[..j] == terms;
    }

    /** The matrix entries, equation after equation, with a running `element` counter. */
    method FillMatrix(matrix: array<Element>)
      requires yMinusOffset == 0 && matrix.Length == 2 * Size(table.equations)
      modifies matrix
      ensures matrix[..] == MatrixElements(table.equations, yPlusOffset)
    {
      var eqs := table.equations;
      var element := 0;
      var i := 0;
      while i < |eqs|
        invariant 0 <= i <= |eqs| && element == 2 * Size(eqs[..i]) <= matrix.Length
        invariant matrix[..element] == MatrixElements(eqs[..i], yPlusOffset)
      {
        MatrixPrefix(eqs, i + 1, yPlusOffset);
        assert eqs[..i + 1][..i] == eqs[..i];
        FillEquation(i, element, matrix, MatrixElements(eqs[..i], yPlusOffset));
        element := element + 2 * |eqs[i].terms|;
        i := i + 1;
      }
      assert eqs[..i] == eqs;
      assert matrix[..] == matrix[..element];
    }

    /** The bounds and costs of the columns: the Y-minus column of cell `i` is `i`, its Y-plus column `n + i`. */
    method FillColumns(varLB: array<real>, varUB: array<real>, objCoeffs: array<real>)
      requires varLB.Length == varUB.Length == objCoeffs.Length == 2 * table.cells.Length
      requires varLB != varUB && varLB != objCoeffs && varUB != objCoeffs
      requires yMinusOffset == 0 && yPlusOffset == table.cells.Length
      modifies varLB, varUB, objCoeffs
      ensures forall c :: 0 <= c < varLB.Length ==> varLB[c] == 0.0
      ensures forall i :: 0 <= i < table.cells.Length ==> varUB[i] == ColumnUpper(table.cells[i])
      ensures forall i :: 0 <= i < table.cells.Length ==> varUB[yPlusOffset + i] == ColumnUpper(table.cells[i])
      ensures forall i :: 0 <= i < table.cells.Length ==> objCoeffs[i] == ColumnCost(table.cells[i])
      ensures forall i :: 0 <= i < table.cells.Length ==> objCoeffs[yPlusOffset + i] == ColumnCost(table.cells[i])
    {
      var n := table.cells.Length;
      var i := 0;
      while i < n
        invariant 0 <= i <= n
        invariant forall c :: 0 <= c < i || n <= c < n + i ==> varLB[c] == 0.0
        invariant forall c :: 0 <= c < i ==> varUB[c] == ColumnUpper(table.cells[c])
        invariant forall c :: n <= c < n + i ==> varUB[c] == ColumnUpper(table.cells[c - n])
        invariant forall c :: 0 <= c < i ==> objCoeffs[c] == ColumnCost(table.cells[c])
        invariant forall c :: n <= c < n + i ==> objCoeffs[c] == ColumnCost(table.cells[c - n])
      {
        varLB[yMinusOffset + i] := 0.0;
        varLB[yPlusOffset + i] := 0.0;
        if table.cells[i].status == Protected {
          varUB[yMinusOffset + i] := 0.0;
          varUB[yPlusOffset + i] := 0.0;
        } else {
          varUB[yMinusOffset + i] := table.cells[i].nominal;
          varUB[yPlusOffset + i] := table.cells[i].nominal;
        }
        if IsSuppressed(table.cells[i].status) {
          objCoeffs[yMinusOffset + i] := 0.0;
          objCoeffs[yPlusOffset + i] := 0.0;
        } else {
          objCoeffs[yMinusOffset + i] := table.cells[i].weight;
          objCoeffs[yPlusOffset + i] := table.cells[i].weight;
        }
        i := i + 1;
      }
      forall i | 0 <= i < n
        ensures varUB[yPlusOffset + i] == ColumnUpper(table.cells[i])
        ensures objCoeffs[yPlusOffset + i] == ColumnCost(table.cells[i])
      {
        assert yPlusOffset + i - n == i;
      }
    }

    /** `number_of_elements`: two entries per term of every equation. */
    method CountElements() returns (numberOfElements: int)
      ensures numberOfElements == 2 * Size(table.equations)
    {
      var eqs := table.equations;
      numberOfElements := 0;
      var i := 0;
      while i < |eqs|
        invariant 0 <= i <= |eqs| && numberOfElements == 2 * Size(eqs[..i])
      {
        assert eqs[..i + 1][..i] == eqs[..i];
        numberOfElements := numberOfElements + 2 * |eqs[i].terms|;
        i := i + 1;
      }
      assert eqs[..i] == eqs;
    }

    /**
     * `allocate_coin_memory`: the matrix has two entries per term (so the
     * count check, error 301, always passes); every column has lower bound
     * 0; a 'z' cell's columns have upper bound 0 and every other cell's its
     * nominal value; the columns of 'u' and 'm' cells cost nothing and every
     * other cell's cost its weight; each row is fixed at its equation's
     * right-hand side.
     */
    method AllocateCoinMemory()
        returns (matrix: array<Element>, varLB: array<real>, varUB: array<real>, objCoeffs: array<real>,
                 rowLB: array<real>, rowUB: array<real>)
      requires Valid()
      ensures matrix[..] == MatrixElements(table.equations, yPlusOffset)
      ensures varLB.Length == varUB.Length == objCoeffs.Length == 2 * table.cells.Length
      ensures forall c :: 0 <= c < varLB.Length ==> varLB[c] == 0.0
      ensures forall i :: 0 <= i < table.cells.Length ==> varUB[i] == ColumnUpper(table.cells[i])
      ensures forall i :: 0 <= i < table.cells.Length ==> varUB[yPlusOffset + i] == ColumnUpper(table.cells[i])
      ensures forall i :: 0 <= i < table.cells.Length ==> objCoeffs[i] == ColumnCost(table.cells[i])
      ensures forall i :: 0 <= i < table.cells.Length ==> objCoeffs[yPlusOffset + i] == ColumnCost(table.cells[i])
      ensures rowLB.Length == rowUB.Length == |table.equations|
      ensures forall i :: 0 <= i < |table.equations| ==> rowLB[i] == table.equations[i].rhs
      ensures forall i :: 0 <= i < |table.equations| ==> rowUB[i] == table.equations[i].rhs
    {
      var eqs := table.equations;
      var numberOfElements := CountElements();
      var n := table.cells.Length;
      varLB := new real[2 * n];
      varUB := new real[2 * n];
      objCoeffs := new real[2 * n];
      rowLB := new real[|eqs|];
      rowUB := new real[|eqs|];
      matrix := new Element[numberOfElements];

      FillMatrix(matrix);
      FillColumns(varLB, varUB, objCoeffs);
      var i := 0;
      while i < |eqs|
        invariant 0 <= i <= |eqs|
        invariant forall l :: 0 <= l < i ==> rowLB[l] == eqs[l].rhs
        invariant forall l :: 0 <= l < i ==> rowUB[l] == eqs[l].rhs
        modifies rowLB, rowUB
      {
        rowLB[i] := eqs[i].rhs;
        rowUB[i] := eqs[i].rhs;
        i := i + 1;
      }
    }
  }
}
