/**
 * A JJ table (`JJData.cpp`): its cells, its consistency equations (each a
 * signed sum of cells equal to a right-hand side, with exactly one negative
 * term, the marginal), the checks made once a JJ file has been scanned, the
 * inference of hierarchy levels, and the operations that move statuses
 * between a table and its partitions.
 */
module JJData {
  import opened Common

  /** MARGINAL_EQUALITY_TOLERANCE. */
  const MarginalEqualityTolerance: real := 0.01

  /** One cell of a JJ table (`JJData::Cell`). */
  datatype Cell = Cell(id: int, nominal: real, weight: real, status: char,
                       lowerBound: real, upperBound: real,
                       lowerProtection: real, upperProtection: real, slidingProtection: real,
                       level: int)

  /**
   * One term of a consistency equation: a cell and its sign. In a table's
   * equations `cell` is a cell index; in an equation as scanned from a file,
   * before the ids are looked up, it is a cell id.
   */
  datatype Term = Term(cell: int, sign: int)

  /** A consistency equation: the signed sum of its terms equals `rhs`. */
  datatype Equation = Equation(rhs: real, terms: seq<Term>)

  /** The status letters of a sequence of cells. */
  function Statuses(cells: seq<Cell>): (r: seq<char>)
    ensures |r| == |cells|
    ensures forall i :: 0 <= i < |cells| ==> r[i] == cells[i].status
  {
    seq(|cells|, i requires 0 <= i < |cells| => cells[i].status)
  }

  // ---------------------------------------------------------------------------
  // Reading: cells, the id map, equations
  // ---------------------------------------------------------------------------

  /**
   * What the reading loop does to each scanned cell: its level starts at 0,
   * and a nominal value below FLOAT_PRECISION makes it a protected ('z') cell.
   */
  function ReadCell(c: Cell): (r: Cell)
    ensures r.level == 0
    ensures r.nominal < FloatPrecision ==> r.status == Protected
    ensures r.nominal >= FloatPrecision ==> r.status == c.status
    ensures r == c.(status := r.status, level := 0)
  {
    c.(status := if c.nominal < FloatPrecision then Protected else c.status, level := 0)
  }

  /**
   * The id-to-index map the reading loop builds (`map[cells[i].id] = i`):
   * every id is in it, each id maps to a cell carrying that id, and a later
   * cell with the same id overrides an earlier one.
   */
  function IdMap(cells: seq<Cell>): (m: map<int, int>)
    ensures forall id :: id in m ==> 0 <= m[id] < |cells| && cells[m[id]].id == id
    ensures forall id :: id in m ==> forall j :: m[id] < j < |cells| ==> cells[j].id != id
  {
    if cells == [] then map[] else IdMap(cells[..|cells| - 1])[cells[|cells| - 1].id := |cells| - 1]
  }

  /** The id of every cell is in the map. */
  lemma {:induction false} IdMapHasId(cells: seq<Cell>, i: int)
    requires 0 <= i < |cells|
    ensures cells[i].id in IdMap(cells)
  {
    if i < |cells| - 1 {
      IdMapHasId(cells[..|cells| - 1], i);
    }
  }

  /** `map[id]` on a `std::map`: the stored index, or 0 for an id that is not in it. */
  function Lookup(m: map<int, int>, id: int): int
  {
    if id in m then m[id] else 0
  }

  /** Whether no two cells carry the same id. */
  predicate DistinctIds(cells: seq<Cell>)
  {
    forall i, j :: 0 <= i < j < |cells| ==> cells[i].id != cells[j].id
  }

  /** `cell_id_to_index`: the looked-up index, or error 218 when it is not in [0, ncells). */
  function CellIdToIndex(m: map<int, int>, id: int, ncells: int): (r: Result<int>)
    ensures r.Ok? <==> 0 <= Lookup(m, id) < ncells
    ensures r.Ok? ==> r.value == Lookup(m, id)
    ensures r.Err? ==> r.code == 218
  {
    var index := Lookup(m, id);
    if index < 0 || index >= ncells then Err(218) else Ok(index)
  }

  /** `cell_index_to_id`: the id of the cell at `index`, or error 219 when the index is out of range. */
  function CellIndexToId(cells: seq<Cell>, index: int): (r: Result<int>)
    ensures r.Ok? <==> 0 <= index < |cells|
    ensures r.Ok? ==> r.value == cells[index].id
    ensures r.Err? ==> r.code == 219
  {
    if index < 0 || index >= |cells| then Err(219) else Ok(cells[index].id)
  }

  /** With distinct ids, looking up the id of cell `i` in the table's map gives back `i`. */
  lemma IdIndexRoundTrip(cells: seq<Cell>, i: int)
    requires DistinctIds(cells) && 0 <= i < |cells|
    ensures CellIdToIndex(IdMap(cells), cells[i].id, |cells|) == Ok(i)
    ensures CellIndexToId(cells, i) == Ok(cells[i].id)
  {
    IdMapHasId(cells, i);
    var m := IdMap(cells);
    assert cells[m[cells[i].id]].id == cells[i].id;
  }

  /** An id that no cell carries is silently read as index 0 whenever the table has a cell. */
  lemma UnknownIdReadsAsFirstCell(cells: seq<Cell>, id: int)
    requires |cells| > 0 && forall i :: 0 <= i < |cells| ==> cells[i].id != id
    ensures CellIdToIndex(IdMap(cells), id, |cells|) == Ok(0)
  {
  }

  /** The number of terms with a negative sign. */
  function NegativeCount(terms: seq<Term>): (n: nat)
    ensures n <= |terms|
  {
    if terms == [] then 0
    else NegativeCount(terms[..|terms| - 1]) + (if terms[|terms| - 1].sign < 0 then 1 else 0)
  }

  /** A prefix never has more negative terms than the whole. */
  lemma {:induction false} NegativeCountPrefix(terms: seq<Term>, j: nat)
    requires j <= |terms|
    ensures NegativeCount(terms[..j]) <= NegativeCount(terms)
    decreases |terms| - j
  {
    if j < |terms| {
      assert terms[..j + 1][..j] == terms[..j];
      NegativeCountPrefix(terms, j + 1);
    } else {
      assert terms[..j] == terms;
    }
  }

  /** Whether every id of a scanned equation looks up to an index in [0, ncells). */
  predicate AllResolve(terms: seq<Term>, m: map<int, int>, ncells: int)
  {
    forall k :: 0 <= k < |terms| ==> 0 <= Lookup(m, terms[k].cell) < ncells
  }

  /** A scanned equation with each id replaced by the index it looks up to. */
  function Resolved(raw: Equation, m: map<int, int>): (r: Equation)
    ensures r.rhs == raw.rhs && |r.terms| == |raw.terms|
    ensures forall k :: 0 <= k < |raw.terms| ==>
              r.terms[k].sign == raw.terms[k].sign && r.terms[k].cell == Lookup(m, raw.terms[k].cell)
  {
    Equation(raw.rhs, seq(|raw.terms|, k requires 0 <= k < |raw.terms| =>
                                         Term(Lookup(m, raw.terms[k].cell), raw.terms[k].sign)))
  }

  /** Whether a scanned equation passes the reading checks: two terms or more, one marginal, known ids. */
  predicate WellFormed(raw: Equation, m: map<int, int>, ncells: int)
  {
    |raw.terms| >= 2 && NegativeCount(raw.terms) == 1 && AllResolve(raw.terms, m, ncells)
  }

  /**
   * The checks the reading loop makes on one scanned equation (ids in `cell`):
   * fewer than two terms is error 211; each id is looked up (error 218); the
   * first negative term is the marginal and a second one is error 222; no
   * negative term at all is error 223. An equation that passes has at least
   * two terms, exactly one of them negative, and every id replaced by its
   * index.
   */
  method ParseEquation(raw: Equation, m: map<int, int>, ncells: int) returns (r: Result<Equation>)
    ensures r.Ok? <==> WellFormed(raw, m, ncells)
    ensures r.Ok? ==> r.value == Resolved(raw, m)
    ensures r.Err? ==> r.code in {211, 218, 222, 223}
    ensures (r.Err? && r.code == 211) <==> |raw.terms| < 2
    ensures r.Err? && r.code == 218 ==> !AllResolve(raw.terms, m, ncells)
    ensures r.Err? && r.code == 222 ==> NegativeCount(raw.terms) >= 2
    ensures r.Err? && r.code == 223 ==> NegativeCount(raw.terms) == 0
  {
    if |raw.terms| < 2 {
      return Err(211);
    }
    var terms: seq<Term> := [];
    var found := false;
    var j := 0;
    while j < |raw.terms|
      invariant 0 <= j <= |raw.terms|
      invariant |terms| == j
      invariant forall k :: 0 <= k < j ==> terms[k] == Term(Lookup(m, raw.terms[k].cell), raw.terms[k].sign)
      invariant AllResolve(raw.terms[..j], m, ncells)
      invariant NegativeCount(raw.terms[..j]) == if found then 1 else 0
    {
      assert raw.terms[..j + 1][..j] == raw.terms[..j];
      var t := raw.terms[j];
      var index := CellIdToIndex(m, t.cell, ncells);
      if index.Err? {
        return Err(218);
      }
      terms := terms + [Term(index.value, t.sign)];
      if t.sign < 0 {
        if found {
          NegativeCountPrefix(raw.terms, j + 1);
          return Err(222);
        }
        found := true;
      }
      j := j + 1;
    }
    assert raw.terms[..j] == raw.terms;
    if !found {
      return Err(223);
    }
    r := Ok(Equation(raw.rhs, terms));
  }

  /** Whether every term of every equation names a cell of the table. */
  predicate EquationsInRange(equations: seq<Equation>, ncells: int)
  {
    forall i, k :: 0 <= i < |equations| && 0 <= k < |equations[i].terms| ==>
      0 <= equations[i].terms[k].cell < ncells
  }

  /** The signed sum of the nominal values of a sequence of terms. */
  function TermsSum(terms: seq<Term>, cells: seq<Cell>): real
    requires forall k :: 0 <= k < |terms| ==> 0 <= terms[k].cell < |cells|
  {
    if terms == [] then 0.0
    else TermsSum(terms[..|terms| - 1], cells) +
         terms[|terms| - 1].sign as real * cells[terms[|terms| - 1].cell].nominal
  }

  /** Whether an equation's signed sum lies within MARGINAL_EQUALITY_TOLERANCE of its right-hand side. */
  predicate Consistent(e: Equation, cells: seq<Cell>)
    requires forall k :: 0 <= k < |e.terms| ==> 0 <= e.terms[k].cell < |cells|
  {
    Abs(TermsSum(e.terms, cells) - e.rhs) <= MarginalEqualityTolerance
  }

  /** The signed sum of one equation over the cells, term by term. */
  method EquationSum(e: Equation, cells: array<Cell>) returns (sum: real)
    requires forall k :: 0 <= k < |e.terms| ==> 0 <= e.terms[k].cell < cells.Length
    ensures sum == TermsSum(e.terms, cells[..])
  {
    sum := 0.0;
    var j := 0;
    while j < |e.terms|
      invariant 0 <= j <= |e.terms|
      invariant sum == TermsSum(e.terms[..j], cells[..])
    {
      assert e.terms[..j + 1][..j] == e.terms[..j];
      sum := sum + e.terms[j].sign as real * cells[e.terms[j].cell].nominal;
      j := j + 1;
    }
    assert e.terms[..j] == e.terms;
  }

  /**
   * The consistency check after reading: every equation is checked, and if
   * any of them misses its right-hand side by more than the tolerance the
   * table is rejected with error 214.
   */
  method CheckConsistency(equations: seq<Equation>, cells: array<Cell>) returns (r: Result<()>)
    requires EquationsInRange(equations, cells.Length)
    ensures r.Err? <==> exists i :: 0 <= i < |equations| && !Consistent(equations[i], cells[..])
    ensures r.Err? ==> r.code == 214
  {
    var error := false;
    var i := 0;
    while i < |equations|
      invariant 0 <= i <= |equations|
      invariant error <==> exists l :: 0 <= l < i && !Consistent(equations[l], cells[..])
    {
      var sum := EquationSum(equations[i], cells);
      if Abs(sum - equations[i].rhs) > MarginalEqualityTolerance {
        error := true;
      }
      i := i + 1;
    }
    r := if error then Err(214) else Ok(());
  }

  // ---------------------------------------------------------------------------
  // Marginals
  // ---------------------------------------------------------------------------

  /** The position of the first negative term, if any. */
  function FirstNegative(terms: seq<Term>): (r: Option<nat>)
    ensures r.Some? ==> r.value < |terms| && terms[r.value].sign < 0 &&
                        forall k :: 0 <= k < r.value ==> terms[k].sign >= 0
    ensures r.None? ==> forall k :: 0 <= k < |terms| ==> terms[k].sign >= 0
    ensures r.None? <==> NegativeCount(terms) == 0
  {
    if terms == [] then None
    else match FirstNegative(terms[..|terms| - 1]) {
      case Some(p) => Some(p)
      case None => if terms[|terms| - 1].sign < 0 then Some(|terms| - 1) else None
    }
  }

  /** In an equation with exactly one negative term, the first negative term is the only one. */
  lemma {:induction false} SingleMarginal(terms: seq<Term>)
    requires NegativeCount(terms) == 1
    ensures FirstNegative(terms).Some?
    ensures forall k :: 0 <= k < |terms| && terms[k].sign < 0 ==> k == FirstNegative(terms).value
  {
    var p := FirstNegative(terms).value;
    forall k | 0 <= k < |terms| && terms[k].sign < 0
      ensures k == p
    {
      if k != p {
        assert p < k;
        TwoNegatives(terms, p, k);
      }
    }
  }

  /** Two negative terms at different positions make the count at least two. */
  lemma {:induction false} TwoNegatives(terms: seq<Term>, p: nat, k: nat)
    requires p < k < |terms| && terms[p].sign < 0 && terms[k].sign < 0
    ensures NegativeCount(terms) >= 2
    decreases |terms|
  {
    var n := |terms| - 1;
    var init := terms[..n];
    if k == n {
      assert init[p] == terms[p];
      OneNegative(init, p);
    } else {
      assert init[p] == terms[p] && init[k] == terms[k];
      TwoNegatives(init, p, k);
    }
  }

  /** A negative term makes the count at least one. */
  lemma {:induction false} OneNegative(terms: seq<Term>, p: nat)
    requires p < |terms| && terms[p].sign < 0
    ensures NegativeCount(terms) >= 1
    decreases |terms|
  {
    var n := |terms| - 1;
    if p < n {
      assert terms[..n][p] == terms[p];
      OneNegative(terms[..n], p);
    }
  }

  /**
   * `find_marginal_index_in_equation`: the position of the first term with a
   * negative sign, or error 221 when there is none.
   */
  method FindMarginalIndexInEquation(e: Equation) returns (r: Result<nat>)
    ensures r.Ok? ==> r.value < |e.terms| && e.terms[r.value].sign < 0
    ensures r.Ok? ==> forall k :: 0 <= k < r.value ==> e.terms[k].sign >= 0
    ensures r.Err? <==> forall k :: 0 <= k < |e.terms| ==> e.terms[k].sign >= 0
    ensures r.Err? ==> r.code == 221
  {
    var i := 0;
    while i < |e.terms|
      invariant 0 <= i <= |e.terms|
      invariant forall k :: 0 <= k < i ==> e.terms[k].sign >= 0
    {
      if e.terms[i].sign < 0 {
        return Ok(i);
      }
      i := i + 1;
    }
    r := Err(221);
  }

  /**
   * `find_marginal_id`: the id of the cell of the first negative term, or
   * error 220 when there is none.
   */
  method FindMarginalId(e: Equation, cells: array<Cell>) returns (r: Result<int>)
    requires forall k :: 0 <= k < |e.terms| ==> 0 <= e.terms[k].cell < cells.Length
    ensures r.Err? <==> FirstNegative(e.terms).None?
    ensures r.Err? ==> r.code == 220
    ensures r.Ok? ==> r.value == cells[e.terms[FirstNegative(e.terms).value].cell].id
  {
    var i := 0;
    while i < |e.terms|
      invariant 0 <= i <= |e.terms|
      invariant forall k :: 0 <= k < i ==> e.terms[k].sign >= 0
    {
      if e.terms[i].sign < 0 {
        FirstNegativeAt(e.terms, i);
        return Ok(cells[e.terms[i].cell].id);
      }
      i := i + 1;
    }
    r := Err(220);
  }

  /** The first negative term is the negative term with no negative term before it. */
  lemma FirstNegativeAt(terms: seq<Term>, i: nat)
    requires i < |terms| && terms[i].sign < 0 && forall k :: 0 <= k < i ==> terms[k].sign >= 0
    ensures FirstNegative(terms) == Some(i)
  {
  }

  /**
   * The cell whose level the level inference raises for an equation: the
   * marginal's id, found as `find_marginal_id` does, mapped back to an index
   * through the table's map (which, for distinct ids, is the marginal itself).
   */
  function MarginalCell(e: Equation, cells: seq<Cell>, m: map<int, int>): int
    requires forall k :: 0 <= k < |e.terms| ==> 0 <= e.terms[k].cell < |cells|
  {
    match FirstNegative(e.terms) {
      case None => 0
      case Some(p) => Lookup(m, cells[e.terms[p].cell].id)
    }
  }

  // ---------------------------------------------------------------------------
  // Levels
  // ---------------------------------------------------------------------------

  /** The largest level among the terms other than cell `mc`, and 0 when there is none higher. */
  function OthersMaxLevel(terms: seq<Term>, mc: int, cells: seq<Cell>): (r: int)
    requires forall k :: 0 <= k < |terms| ==> 0 <= terms[k].cell < |cells|
    ensures r >= 0
    ensures forall k :: 0 <= k < |terms| && terms[k].cell != mc ==> cells[terms[k].cell].level <= r
    ensures r == 0 || exists k :: 0 <= k < |terms| && terms[k].cell != mc && cells[terms[k].cell].level == r
  {
    if terms == [] then 0
    else
      var r0 := OthersMaxLevel(terms[..|terms| - 1], mc, cells);
      var t := terms[|terms| - 1];
      if t.cell != mc && cells[t.cell].level > r0 then cells[t.cell].level else r0
  }

  /**
   * Whether, for every equation, the cell standing for its marginal has a
   * level above that of every other cell in the equation: the state the
   * level inference stops in.
   */
  ghost predicate LevelsSettled(equations: seq<Equation>, cells: seq<Cell>, m: map<int, int>)
    requires EquationsInRange(equations, |cells|)
  {
    forall i :: 0 <= i < |equations| ==> EquationSettled(equations[i], cells, m)
  }

  ghost predicate EquationSettled(e: Equation, cells: seq<Cell>, m: map<int, int>)
    requires forall k :: 0 <= k < |e.terms| ==> 0 <= e.terms[k].cell < |cells|
  {
    var mc := MarginalCell(e, cells, m);
    0 <= mc < |cells| &&
    forall k :: 0 <= k < |e.terms| && e.terms[k].cell != mc ==> cells[e.terms[k].cell].level < cells[mc].level
  }

  /** The largest level of any cell, or 0. */
  function MaxLevel(cells: seq<Cell>): (r: int)
    ensures r >= 0
    ensures forall i :: 0 <= i < |cells| ==> cells[i].level <= r
    ensures r == 0 || exists i :: 0 <= i < |cells| && cells[i].level == r
  {
    if cells == [] then 0
    else
      var r0 := MaxLevel(cells[..|cells| - 1]);
      if cells[|cells| - 1].level > r0 then cells[|cells| - 1].level else r0
  }

  /** Whether two sequences of cells differ at most in their levels, each level having risen or stayed. */
  ghost predicate LevelsRaised(before: seq<Cell>, after: seq<Cell>)
  {
    |before| == |after| &&
    forall k :: 0 <= k < |before| ==>
      after[k] == before[k].(level := after[k].level) && after[k].level >= before[k].level
  }

  lemma LevelsRaisedTransitive(a: seq<Cell>, b: seq<Cell>, c: seq<Cell>)
    requires LevelsRaised(a, b) && LevelsRaised(b, c)
    ensures LevelsRaised(a, c)
  {
  }

  /** Raising levels leaves the cell standing for each marginal where it was. */
  lemma MarginalCellUnderRaise(e: Equation, before: seq<Cell>, after: seq<Cell>, m: map<int, int>)
    requires LevelsRaised(before, after)
    requires forall k :: 0 <= k < |e.terms| ==> 0 <= e.terms[k].cell < |before|
    ensures MarginalCell(e, after, m) == MarginalCell(e, before, m)
  {
    match FirstNegative(e.terms) {
      case None =>
      case Some(p) => assert after[e.terms[p].cell].id == before[e.terms[p].cell].id;
    }
  }

  /** Raising the level of one cell keeps the levels raised with respect to the start of a pass. */
  lemma RaiseOne(c0: seq<Cell>, before: seq<Cell>, after: seq<Cell>, mc: int, level: int)
    requires LevelsRaised(c0, before) && 0 <= mc < |before|
    requires level > before[mc].level && after == before[mc := before[mc].(level := level)]
    ensures LevelsRaised(c0, after)
  {
    assert LevelsRaised(before, after);
    LevelsRaisedTransitive(c0, before, after);
  }

  /** The first `i` equations are settled. */
  ghost predicate SettledBefore(equations: seq<Equation>, cells: seq<Cell>, m: map<int, int>, i: int)
    requires EquationsInRange(equations, |cells|)
  {
    forall l :: 0 <= l < i && l < |equations| ==> EquationSettled(equations[l], cells, m)
  }

  lemma {:induction false} SettledBeforeNext(equations: seq<Equation>, cells: seq<Cell>, m: map<int, int>, i: int)
    requires EquationsInRange(equations, |cells|) && 0 <= i < |equations|
    requires SettledBefore(equations, cells, m, i) && EquationSettled(equations[i], cells, m)
    ensures SettledBefore(equations, cells, m, i + 1)
  {
  }

  /** A marginal whose level is already at least one above the other terms' levels is settled. */
  lemma SettledWhenNotRaised(e: Equation, cells: seq<Cell>, m: map<int, int>, mc: int, level: int)
    requires forall k :: 0 <= k < |e.terms| ==> 0 <= e.terms[k].cell < |cells|
    requires mc == MarginalCell(e, cells, m) && 0 <= mc < |cells|
    requires level == OthersMaxLevel(e.terms, mc, cells) + 1 && level <= cells[mc].level
    ensures EquationSettled(e, cells, m)
  {
  }

  /** The signed sum only depends on the nominal values of the cells. */
  lemma {:induction false} TermsSumNominals(terms: seq<Term>, a: seq<Cell>, b: seq<Cell>)
    requires |a| == |b| && forall k :: 0 <= k < |a| ==> a[k].nominal == b[k].nominal
    requires forall k :: 0 <= k < |terms| ==> 0 <= terms[k].cell < |a|
    ensures TermsSum(terms, a) == TermsSum(terms, b)
  {
    if terms != [] {
      TermsSumNominals(terms[..|terms| - 1], a, b);
    }
  }

  // ---------------------------------------------------------------------------
  // Recombination
  // ---------------------------------------------------------------------------

  /**
   * Whether some cell of a partition carries id `k` and has status 'm'. Both
   * versions of `recombine` write `cells[id]`, so this is whether table index
   * `k` is to be marked.
   */
  predicate MarkedIn(part: seq<Cell>, k: int)
  {
    exists i :: 0 <= i < |part| && part[i].id == k && part[i].status == Secondary
  }

  /**
   * `recombine` as written, on a table with cells `table`: whether table
   * index `k` is marked 'm'. The partition cell at index `i` has id `k`, and
   * `cells[k]` is written. The status tested is not that of partition cell
   * `i`. It is that of the partition cell at `cell_id_to_index(i)`, where
   * `i` is looked up as an id in the table's own map; an id the table does
   * not hold gives 0. An index beyond the partition reads past its cells;
   * the model counts that as not marked.
   */
  predicate MarkedAsWritten(table: seq<Cell>, part: seq<Cell>, k: int)
  {
    exists i :: 0 <= i < |part| && part[i].id == k &&
      var index := Lookup(IdMap(table), i);
      0 <= index < |part| && part[index].status == Secondary
  }

  /** In a table whose ids are its indices, every index is looked up as itself. */
  lemma IdentityIdMap(table: seq<Cell>, i: int)
    requires forall k :: 0 <= k < |table| ==> table[k].id == k
    requires 0 <= i < |table|
    ensures Lookup(IdMap(table), i) == i
  {
    IdMapHasId(table, i);
    assert table[i].id == i;
  }

  /**
   * The divergence needs ids that differ from indices: when the table's
   * ids are its indices and the partition is no larger than the table, the
   * code as written marks exactly the table indices the corrected code marks.
   */
  lemma RecombineAgreesOnIdentityIds(table: seq<Cell>, part: seq<Cell>, k: int)
    requires forall l :: 0 <= l < |table| ==> table[l].id == l
    requires |part| <= |table|
    ensures MarkedAsWritten(table, part, k) <==> MarkedIn(part, k)
  {
    forall i | 0 <= i < |part|
      ensures Lookup(IdMap(table), i) == i
    {
      IdentityIdMap(table, i);
    }
  }

  /** Extending a partition by one cell marks that cell's id when it is 'm', and nothing else. */
  lemma MarkedInSnoc(part: seq<Cell>, i: int)
    requires 0 <= i < |part|
    ensures forall id :: MarkedIn(part[..i + 1], id) <==>
              MarkedIn(part[..i], id) || (part[i].id == id && part[i].status == Secondary)
  {
    forall id | MarkedIn(part[..i + 1], id)
      ensures MarkedIn(part[..i], id) || (part[i].id == id && part[i].status == Secondary)
    {
      var l :| 0 <= l < i + 1 && part[..i + 1][l].id == id && part[..i + 1][l].status == Secondary;
      if l < i {
        assert part[..i][l] == part[l];
      }
    }
    forall id | MarkedIn(part[..i], id)
      ensures MarkedIn(part[..i + 1], id)
    {
      var l :| 0 <= l < i && part[..i][l].id == id && part[..i][l].status == Secondary;
      assert part[..i + 1][l] == part[l];
    }
    if part[i].status == Secondary {
      assert part[..i + 1][i] == part[i];
    }
  }

  /** A cell used to build small example partitions. */
  function ExampleCell(id: int, status: char): Cell
  {
    Cell(id, 1.0, 1.0, status, 0.0, 2.0, 0.1, 0.1, 0.0, 0)
  }

  /**
   * As written, a table whose two cells carry ids 1 and 0 (in that order),
   * recombined with a partition [id 0 'm', id 1 's'], marks the wrong table
   * index. At i = 0 the write target is `cells[0]`, but index 0 is looked up
   * as id 0, which is index 1, and partition cell 1 is not 'm': table index 0
   * stays unmarked although the partition marks id 0. At i = 1 the target is
   * `cells[1]`, index 1 is looked up as id 1, which is index 0, and partition
   * cell 0 is 'm': table index 1 is marked although the partition does not
   * mark id 1.
   */
  lemma RecombineMissesMarkedCell()
    ensures MarkedIn([ExampleCell(0, Secondary), ExampleCell(1, Safe)], 0)
    ensures !MarkedAsWritten([ExampleCell(1, Safe), ExampleCell(0, Safe)], [ExampleCell(0, Secondary), ExampleCell(1, Safe)], 0)
    ensures !MarkedIn([ExampleCell(0, Secondary), ExampleCell(1, Safe)], 1)
    ensures MarkedAsWritten([ExampleCell(1, Safe), ExampleCell(0, Safe)], [ExampleCell(0, Secondary), ExampleCell(1, Safe)], 1)
  {
    var table := [ExampleCell(1, Safe), ExampleCell(0, Safe)];
    var part := [ExampleCell(0, Secondary), ExampleCell(1, Safe)];
    assert table[..1] == [table[0]] && table[..1][..0] == [];
    assert IdMap(table) == map[1 := 0, 0 := 1];
    assert part[0].id == 0 && part[0].status == Secondary;
    assert part[1].id == 1 && Lookup(IdMap(table), 1) == 0;
  }

  // ---------------------------------------------------------------------------
  // Partition equations
  // ---------------------------------------------------------------------------

  /** The terms of an equation with each cell index replaced by the cell's id. */
  function IdTerms(terms: seq<Term>, cells: seq<Cell>): (r: seq<Term>)
    requires forall k :: 0 <= k < |terms| ==> 0 <= terms[k].cell < |cells|
    ensures |r| == |terms|
    ensures forall k :: 0 <= k < |terms| ==> r[k] == Term(cells[terms[k].cell].id, terms[k].sign)
  {
    seq(|terms|, k requires 0 <= k < |terms| => Term(cells[terms[k].cell].id, terms[k].sign))
  }

  /**
   * The terms (ids in `cell`) of a parent equation that a partition keeps:
   * the one at position `marginal` and every term whose id is `present` in
   * the partition, in their original order and with their signs.
   */
  function KeptTerms(terms: seq<Term>, marginal: int, present: set<int>): (r: seq<Term>)
    ensures |r| <= |terms|
    ensures forall x :: x in r ==> x in terms
    ensures forall k :: 0 <= k < |terms| && (k == marginal || terms[k].cell in present) ==> terms[k] in r
    ensures forall x :: x in r ==> x.cell in present || (0 <= marginal < |terms| && x == terms[marginal])
  {
    if terms == [] then []
    else
      var n := |terms| - 1;
      KeptTerms(terms[..n], marginal, present) + (if n == marginal || terms[n].cell in present then [terms[n]] else [])
  }

  /**
   * The terms, by id, that a partition whose map holds the ids `present`
   * keeps of a parent equation with a marginal.
   */
  ghost function PartitionKept(e: Equation, cells: seq<Cell>, present: set<int>): seq<Term>
    requires forall k :: 0 <= k < |e.terms| ==> 0 <= e.terms[k].cell < |cells|
    requires FirstNegative(e.terms).Some?
  {
    KeptTerms(IdTerms(e.terms, cells), FirstNegative(e.terms).value, present)
  }

  /** The id of an equation's marginal. */
  ghost function MarginalId(e: Equation, cells: seq<Cell>): int
    requires forall k :: 0 <= k < |e.terms| ==> 0 <= e.terms[k].cell < |cells|
    requires FirstNegative(e.terms).Some?
  {
    cells[e.terms[FirstNegative(e.terms).value].cell].id
  }

  /** Terms by id turned into terms by index through a table's map. */
  function Reindexed(ids: seq<Term>, m: map<int, int>): (r: seq<Term>)
    ensures |r| == |ids|
    ensures forall k :: 0 <= k < |ids| ==> r[k] == Term(Lookup(m, ids[k].cell), ids[k].sign)
  {
    seq(|ids|, k requires 0 <= k < |ids| => Term(Lookup(m, ids[k].cell), ids[k].sign))
  }

  /** A map holding some index below `n` needs `n` to be positive. */
  lemma NonEmptyMapNeedsCells(m: map<int, int>, n: int)
    requires forall id :: id in m ==> 0 <= m[id] < n
    ensures m.Keys != {} ==> n > 0
  {
    if n <= 0 {
      assert forall id :: id !in m;
      assert m.Keys == {};
    }
  }

  /** Every kept id is present or is the marginal's, and the marginal is kept. */
  lemma KeptIds(all: seq<Term>, marginal: nat, present: set<int>)
    requires marginal < |all|
    ensures var ids := KeptTerms(all, marginal, present);
            (forall k :: 0 <= k < |ids| ==> ids[k].cell in present || ids[k].cell == all[marginal].cell) &&
            all[marginal] in ids
  {
    var ids := KeptTerms(all, marginal, present);
    forall k | 0 <= k < |ids| ensures ids[k].cell in present || ids[k].cell == all[marginal].cell {
      assert ids[k] in ids;
    }
  }

  /** One more term of the parent is kept exactly when it is the marginal or its id is present. */
  lemma KeptTermsSnoc(all: seq<Term>, i: nat, marginal: int, present: set<int>)
    requires i < |all|
    ensures KeptTerms(all[..i + 1], marginal, present) ==
            KeptTerms(all[..i], marginal, present) + (if i == marginal || all[i].cell in present then [all[i]] else [])
  {
    assert all[..i + 1][..i] == all[..i];
  }

  /**
   * The loop that collects the kept terms of a parent equation, by id: the
   * term at position `marginal` and those whose id is `present`.
   */
  method KeepTerms(terms: seq<Term>, cells: array<Cell>, marginal: int, present: set<int>) returns (ids: seq<Term>)
    requires forall k :: 0 <= k < |terms| ==> 0 <= terms[k].cell < cells.Length
    ensures ids == KeptTerms(IdTerms(terms, cells[..]), marginal, present)
  {
    ghost var all := IdTerms(terms, cells[..]);
    ids := [];
    var i := 0;
    while i < |terms|
      invariant 0 <= i <= |terms|
      invariant ids == KeptTerms(all[..i], marginal, present)
    {
      KeptTermsSnoc(all, i, marginal, present);
      var id := cells[terms[i].cell].id;
      if i == marginal || id in present {
        ids := ids + [Term(id, terms[i].sign)];
      }
      i := i + 1;
    }
    assert all[..i] == all;
  }

  /** Keeping terms distributes over concatenation: the kept terms stay in their order. */
  lemma {:induction false} KeptTermsAppend(a: seq<Term>, b: seq<Term>, marginal: int, present: set<int>)
    ensures KeptTerms(a + b, marginal, present) == KeptTerms(a, marginal, present) + KeptTerms(b, marginal - |a|, present)
    decreases |b|
  {
    if b != [] {
      var n := |b| - 1;
      assert (a + b)[..|a + b| - 1] == a + b[..n];
      KeptTermsAppend(a, b[..n], marginal, present);
    } else {
      assert a + b == a;
    }
  }

  /** With every id present, a partition keeps the whole equation. */
  lemma {:induction false} KeptAllPresent(terms: seq<Term>, marginal: int, present: set<int>)
    requires forall k :: 0 <= k < |terms| ==> terms[k].cell in present
    ensures KeptTerms(terms, marginal, present) == terms
  {
    if terms != [] {
      KeptAllPresent(terms[..|terms| - 1], marginal, present);
    }
  }

  /** A partition that holds no id keeps at most the marginal. */
  lemma {:induction false} KeptNeedsPresent(terms: seq<Term>, marginal: int, present: set<int>)
    ensures |KeptTerms(terms, marginal, present)| > 1 ==> present != {}
  {
    if present == {} {
      KeptAtMostMarginal(terms, marginal);
    }
  }

  /** Without any present id, the kept terms of a sequence are at most its marginal. */
  lemma {:induction false} KeptAtMostMarginal(terms: seq<Term>, marginal: int)
    ensures |KeptTerms(terms, marginal, {})| <= (if 0 <= marginal < |terms| then 1 else 0)
  {
    if terms != [] {
      KeptAtMostMarginal(terms[..|terms| - 1], marginal);
    }
  }

  // ---------------------------------------------------------------------------
  // The table
  // ---------------------------------------------------------------------------

  /** A JJ table as held in memory once read (`JJData`). */
  class JJTable {
    var cells: array<Cell>
    var idMap: map<int, int>
    var equations: seq<Equation>
    var nprotected: int
    var nlevels: int

    /**
     * Every index in the map and every term of every equation names a cell of
     * the table, and every equation has a marginal.
     */
    ghost predicate Valid()
      reads this
    {
      (forall id :: id in idMap ==> 0 <= idMap[id] < cells.Length) &&
      EquationsInRange(equations, cells.Length) &&
      forall i :: 0 <= i < |equations| ==> FirstNegative(equations[i].terms).Some?
    }

    constructor (cells: array<Cell>, idMap: map<int, int>, equations: seq<Equation>, nprotected: int)
      ensures this.cells == cells && this.idMap == idMap && this.equations == equations
      ensures this.nprotected == nprotected && nlevels == 0
    {
      this.cells := cells;
      this.idMap := idMap;
      this.equations := equations;
      this.nprotected := nprotected;
      nlevels := 0;
    }

    /**
     * The level one above the highest level of the cells of `e` other than
     * `mc` (the inner loop of the level inference).
     */
    method MarginalLevel(e: Equation, mc: int) returns (level: int)
      requires forall k :: 0 <= k < |e.terms| ==> 0 <= e.terms[k].cell < cells.Length
      ensures level == OthersMaxLevel(e.terms, mc, cells[..]) + 1
      ensures level >= 1
      ensures forall k :: 0 <= k < |e.terms| && e.terms[k].cell != mc ==> cells[e.terms[k].cell].level < level
    {
      level := 0;
      var j := 0;
      while j < |e.terms|
        invariant 0 <= j <= |e.terms|
        invariant level == OthersMaxLevel(e.terms[..j], mc, cells[..])
      {
        assert e.terms[..j + 1][..j] == e.terms[..j];
        if e.terms[j].cell != mc && cells[e.terms[j].cell].level > level {
          level := cells[e.terms[j].cell].level;
        }
        j := j + 1;
      }
      assert e.terms[..j] == e.terms;
      level := level + 1;
    }

    /**
     * One pass of the level inference: for each equation in turn, the
     * marginal's level is raised to one above the other terms' levels when
     * that is higher. Only levels change, and only upward; a pass that
     * changes nothing leaves every equation settled.
     */
    method LevelPass() returns (changed: bool)
      requires Valid()
      modifies cells
      ensures LevelsRaised(old(cells[..]), cells[..])
      ensures !changed ==> cells[..] == old(cells[..]) && LevelsSettled(equations, cells[..], idMap)
    {
      changed := false;
      ghost var c0 := cells[..];
      var i := 0;
      while i < |equations|
        invariant 0 <= i <= |equations|
        invariant LevelsRaised(c0, cells[..])
        invariant !changed ==> cells[..] == c0 && SettledBefore(equations, c0, idMap, i)
      {
        var mc := MarginalIndexOf(i);
        var level := MarginalLevel(equations[i], mc);
        if level > cells[mc].level {
          RaiseLevel(c0, mc, level);
          changed := true;
        } else {
          if !changed {
            SettledWhenNotRaised(equations[i], cells[..], idMap, mc, level);
            SettledBeforeNext(equations, cells[..], idMap, i);
          }
        }
        i := i + 1;
      }
      assert SettledBefore(equations, cells[..], idMap, i) ==> LevelsSettled(equations, cells[..], idMap);
    }

    /** Raises the level of cell `mc` to `level`; nothing else changes. */
    method RaiseLevel(ghost c0: seq<Cell>, mc: int, level: int)
      requires 0 <= mc < cells.Length && level > cells[mc].level && LevelsRaised(c0, cells[..])
      modifies cells
      ensures cells[..] == old(cells[..])[mc := old(cells[mc]).(level := level)]
      ensures LevelsRaised(c0, cells[..])
    {
      ghost var before := cells[..];
      cells[mc] := cells[mc].(level := level);
      RaiseOne(c0, before, cells[..], mc, level);
    }

    /**
     * `cell_id_to_index(find_marginal_id(eqtn))`: the index the level
     * inference raises for an equation of the table.
     */
    method MarginalIndexOf(i: nat) returns (mc: int)
      requires Valid() && i < |equations|
      ensures mc == MarginalCell(equations[i], cells[..], idMap)
      ensures 0 <= mc < cells.Length
    {
      var e := equations[i];
      var id := FindMarginalId(e, cells);
      if id.Err? {
        assert false;
      } else {
        mc := Lookup(idMap, id.value);
      }
    }

    /**
     * The level inference: passes are repeated until one changes nothing.
     * The source repeats without bound (equations whose marginals depend on
     * each other would keep it going for ever); here at most `fuel` passes
     * run, and `settled` says whether a pass that changed nothing was reached.
     */
    method InferLevels(fuel: nat) returns (settled: bool)
      requires Valid()
      modifies cells
      ensures LevelsRaised(old(cells[..]), cells[..])
      ensures settled ==> LevelsSettled(equations, cells[..], idMap)
    {
      settled := false;
      var f := fuel;
      while !settled && f > 0
        invariant LevelsRaised(old(cells[..]), cells[..])
        invariant settled ==> LevelsSettled(equations, cells[..], idMap)
        decreases f
      {
        ghost var before := cells[..];
        var changed := LevelPass();
        LevelsRaisedTransitive(old(cells[..]), before, cells[..]);
        settled := !changed;
        f := f - 1;
      }
    }

    /** `nlevels`: one more than the highest level when the table has cells, and 0 otherwise. */
    method NumberOfLevels() returns (n: int)
      ensures n == if cells.Length > 0 then MaxLevel(cells[..]) + 1 else 0
      ensures forall i :: 0 <= i < cells.Length ==> cells[i].level < n
    {
      n := 0;
      var i := 0;
      while i < cells.Length
        invariant 0 <= i <= cells.Length
        invariant n == MaxLevel(cells[..i])
      {
        assert cells[..i + 1][..i] == cells[..i];
        if cells[i].level > n {
          n := cells[i].level;
        }
        i := i + 1;
      }
      assert cells[..i] == cells[..];
      if cells.Length > 0 {
        n := n + 1;
      }
    }

    /** `reset`: every 'm' cell goes back to 's'; nothing else changes. */
    method Reset()
      modifies cells
      ensures forall i :: 0 <= i < cells.Length ==>
                cells[i] == if old(cells[i]).status == Secondary then old(cells[i]).(status := Safe) else old(cells[i])
      ensures forall i :: 0 <= i < cells.Length ==> cells[i].status != Secondary
      ensures Count(Statuses(cells[..]), Primary) == Count(Statuses(old(cells[..])), Primary)
    {
      var i := 0;
      while i < cells.Length
        invariant 0 <= i <= cells.Length
        invariant forall k :: 0 <= k < i ==>
                    cells[k] == if old(cells[k]).status == Secondary then old(cells[k]).(status := Safe) else old(cells[k])
        invariant forall k :: i <= k < cells.Length ==> cells[k] == old(cells[k])
      {
        if cells[i].status == Secondary {
          cells[i] := cells[i].(status := Safe);
        }
        i := i + 1;
      }
      CountAgree(Statuses(cells[..]), Statuses(old(cells[..])), Primary);
    }

    /** `get_number_of_primary_cells`: the number of 'u' cells. */
    method GetNumberOfPrimaryCells() returns (count: int)
      ensures count == Count(Statuses(cells[..]), Primary)
      ensures count == |IndicesOf(Statuses(cells[..]), Primary)|
    {
      ghost var st := Statuses(cells[..]);
      count := 0;
      var i := 0;
      while i < cells.Length
        invariant 0 <= i <= cells.Length
        invariant count == Count(st[..i], Primary)
      {
        assert st[..i + 1][..i] == st[..i];
        if cells[i].status == Primary {
          count := count + 1;
        }
        i := i + 1;
      }
      assert st[..i] == st;
    }

    /**
     * `recombine`, corrected to test the status of partition cell `i` itself:
     * for each partition cell marked 'm', table index `id` (the write target
     * `cells[id]` of the source) becomes 'm', and no other cell changes. A
     * partition cell whose id is not below the number of cells is error 217.
     */
    method Recombine(part: seq<Cell>) returns (r: Result<()>)
      requires forall i :: 0 <= i < |part| ==> part[i].id >= 0
      modifies cells
      ensures r.Err? <==> exists i :: 0 <= i < |part| && part[i].id >= cells.Length
      ensures r.Err? ==> r.code == 217
      ensures forall k :: 0 <= k < cells.Length ==>
                cells[k] == old(cells[k]) || cells[k] == old(cells[k]).(status := Secondary)
      ensures r.Ok? ==> forall k :: 0 <= k < cells.Length ==>
                cells[k] == if MarkedIn(part, k) then old(cells[k]).(status := Secondary) else old(cells[k])
    {
      var i := 0;
      while i < |part|
        invariant 0 <= i <= |part|
        invariant forall l :: 0 <= l < i ==> part[l].id < cells.Length
        invariant forall k :: 0 <= k < cells.Length ==>
                    cells[k] == if MarkedIn(part[..i], k) then old(cells[k]).(status := Secondary) else old(cells[k])
      {
        var id := part[i].id;
        if id >= cells.Length {
          return Err(217);
        }
        MarkedInSnoc(part, i);
        if part[i].status == Secondary {
          cells[id] := cells[id].(status := Secondary);
        }
        i := i + 1;
      }
      assert part[..i] == part;
      r := Ok(());
    }

    /**
     * The first loop of `generate_partition_consistency_equation`, run on a
     * partition (this table) for equation `index` of its parent: the parent's
     * terms, by id, that are the marginal or whose id is in the partition's
     * map.
     */
    method PartitionTerms(parent: JJTable, index: nat) returns (p: nat, ids: seq<Term>)
      requires parent.Valid() && index < |parent.equations|
      ensures FirstNegative(parent.equations[index].terms) == Some(p)
      ensures ids == PartitionKept(parent.equations[index], parent.cells[..], idMap.Keys)
    {
      var e := parent.equations[index];
      var pm := FindMarginalIndexInEquation(e);
      if pm.Err? {
        assert false;
      }
      p := pm.value;
      FirstNegativeAt(e.terms, p);
      ids := KeepTerms(e.terms, parent.cells, p, idMap.Keys);
    }

    /**
     * The second loop of `generate_partition_consistency_equation`: each kept
     * id is looked up in the partition's map, which, being a `std::map`,
     * gains an entry 0 for an id it lacked (only the marginal's id `mid` can
     * be missing).
     */
    method IndexKeptTerms(ids: seq<Term>, mid: int) returns (terms: seq<Term>)
      requires Valid() && cells.Length > 0
      requires forall k :: 0 <= k < |ids| ==> ids[k].cell in idMap || ids[k].cell == mid
      modifies this`idMap
      ensures Valid()
      ensures terms == Reindexed(ids, old(idMap))
      ensures old(idMap).Keys <= idMap.Keys <= old(idMap).Keys + {mid}
      ensures forall x :: x in ids ==> x.cell in idMap
      ensures forall id :: id in idMap ==> idMap[id] == Lookup(old(idMap), id)
    {
      terms := [];
      var j := 0;
      while j < |ids|
        invariant 0 <= j <= |ids|
        invariant |terms| == j
        invariant forall k :: 0 <= k < j ==> terms[k] == Term(Lookup(old(idMap), ids[k].cell), ids[k].sign)
        invariant old(idMap).Keys <= idMap.Keys <= old(idMap).Keys + {mid}
        invariant forall k :: 0 <= k < j ==> ids[k].cell in idMap
        invariant forall id :: id in idMap ==> idMap[id] == Lookup(old(idMap), id)
        invariant Valid()
      {
        var id := ids[j].cell;
        var found := CellIdToIndex(idMap, id, cells.Length);
        idMap := idMap[id := Lookup(idMap, id)];
        terms := terms + [Term(found.value, ids[j].sign)];
        j := j + 1;
      }
      assert forall x :: x in ids ==> x.cell in idMap by {
        forall x | x in ids ensures x.cell in idMap {
          var k :| 0 <= k < |ids| && ids[k] == x;
        }
      }
    }

    /**
     * `generate_partition_consistency_equation`: a partition (this table)
     * keeps, of its parent's equation `index`, the marginal and the terms
     * whose ids it holds, in order and with their signs, and the result is
     * whether more than one term was kept. Only a kept equation has its ids
     * looked up, adding the marginal's id to the map if it was missing.
     */
    method GeneratePartitionConsistencyEquation(parent: JJTable, index: nat) returns (keep: bool, eqn: Equation)
      requires parent.Valid() && index < |parent.equations|
      requires Valid() && parent != this
      modifies this`idMap
      ensures Valid()
      ensures keep <==> |PartitionKept(parent.equations[index], parent.cells[..], old(idMap).Keys)| > 1
      ensures keep ==> eqn.rhs == parent.equations[index].rhs &&
                       eqn.terms == Reindexed(PartitionKept(parent.equations[index], parent.cells[..], old(idMap).Keys), old(idMap))
      ensures idMap.Keys == old(idMap).Keys +
                            (if keep then {MarginalId(parent.equations[index], parent.cells[..])} else {})
      ensures forall id :: id in idMap ==> idMap[id] == Lookup(old(idMap), id)
    {
      var p, ids := PartitionTerms(parent, index);
      var e := parent.equations[index];
      ghost var all := IdTerms(e.terms, parent.cells[..]);
      ghost var m0 := idMap;
      assert ids == KeptTerms(all, p, m0.Keys);
      keep := |ids| > 1;
      eqn := Equation(e.rhs, []);
      if keep {
        KeptNeedsPresent(all, p, m0.Keys);
        NonEmptyMapNeedsCells(m0, cells.Length);
        KeptIds(all, p, m0.Keys);
        var mid := parent.cells[e.terms[p].cell].id;
        var terms := IndexKeptTerms(ids, mid);
        assert mid in idMap;
        eqn := Equation(e.rhs, terms);
      }
    }
  }

  // ---------------------------------------------------------------------------
  // Reading a table
  // ---------------------------------------------------------------------------

  /** Two sequences of terms with the same signs have the same number of negative terms. */
  lemma {:induction false} NegativeCountSigns(a: seq<Term>, b: seq<Term>)
    requires |a| == |b| && forall k :: 0 <= k < |a| ==> a[k].sign == b[k].sign
    ensures NegativeCount(a) == NegativeCount(b)
  {
    if a != [] {
      NegativeCountSigns(a[..|a| - 1], b[..|b| - 1]);
    }
  }

  /**
   * The loop over the scanned equations, in file order: each is checked and
   * resolved, and the first that fails stops the reading with its error.
   */
  method ParseEquations(raw: seq<Equation>, m: map<int, int>, ncells: int) returns (r: Result<seq<Equation>>)
    ensures r.Ok? <==> forall i :: 0 <= i < |raw| ==> WellFormed(raw[i], m, ncells)
    ensures r.Ok? ==> |r.value| == |raw| && forall i :: 0 <= i < |raw| ==> r.value[i] == Resolved(raw[i], m)
    ensures r.Err? ==> r.code in {211, 218, 222, 223}
  {
    var equations: seq<Equation> := [];
    var j := 0;
    while j < |raw|
      invariant 0 <= j <= |raw|
      invariant |equations| == j
      invariant forall k :: 0 <= k < j ==> equations[k] == Resolved(raw[k], m) && WellFormed(raw[k], m, ncells)
    {
      var e := ParseEquation(raw[j], m, ncells);
      if e.Err? {
        return Err(e.code);
      }
      equations := equations + [e.value];
      j := j + 1;
    }
    r := Ok(equations);
  }

  /**
   * Whether a scanned table is accepted: every equation passes the reading
   * checks and, resolved, is consistent with the cells' nominal values.
   */
  ghost predicate Accepted(scanned: seq<Cell>, raw: seq<Equation>)
  {
    (forall i :: 0 <= i < |raw| ==> WellFormed(raw[i], IdMap(scanned), |scanned|)) &&
    forall i :: 0 <= i < |raw| ==> Consistent(Resolved(raw[i], IdMap(scanned)), scanned)
  }

  /** Every scanned cell through ReadCell. */
  function ReadAll(scanned: seq<Cell>): (r: seq<Cell>)
    ensures |r| == |scanned| && forall k :: 0 <= k < |scanned| ==> r[k] == ReadCell(scanned[k])
  {
    if scanned == [] then [] else ReadAll(scanned[..|scanned| - 1]) + [ReadCell(scanned[|scanned| - 1])]
  }

  /** The map of one more cell is the previous map with that cell's id pointing at it. */
  lemma IdMapSnoc(scanned: seq<Cell>, i: nat)
    requires i < |scanned|
    ensures IdMap(scanned[..i + 1]) == IdMap(scanned[..i])[scanned[i].id := i]
  {
    assert scanned[..i + 1][..i] == scanned[..i];
  }

  /** Counting over one more position adds that position's letter. */
  lemma CountSnoc(st: seq<char>, i: nat, c: char)
    requires i < |st|
    ensures Count(st[..i + 1], c) == Count(st[..i], c) + (if st[i] == c then 1 else 0)
  {
    assert st[..i + 1][..i] == st[..i];
  }

  /**
   * The cell loop of the reading constructor: every scanned cell goes
   * through ReadCell into a new array and into the id map, and the
   * protected ('z') cells are counted.
   */
  method ReadCells(scanned: seq<Cell>) returns (cells: array<Cell>, m: map<int, int>, nprotected: int)
    ensures fresh(cells)
    ensures cells.Length == |scanned| && forall k :: 0 <= k < |scanned| ==> cells[k] == ReadCell(scanned[k])
    ensures m == IdMap(scanned)
    ensures nprotected == Count(Statuses(cells[..]), Protected)
  {
    ghost var read := ReadAll(scanned);
    ghost var st := Statuses(read);
    cells := new Cell[|scanned|];
    m := map[];
    nprotected := 0;
    var i := 0;
    while i < |scanned|
      invariant 0 <= i <= |scanned|
      invariant cells[..i] == read[..i]
      invariant m == IdMap(scanned[..i])
      invariant nprotected == Count(st[..i], Protected)
    {
      CountSnoc(st, i, Protected);
      IdMapSnoc(scanned, i);
      m, nprotected := ReadOneCell(scanned[i], i, cells, m, nprotected);
      assert cells[..i + 1] == cells[..i] + [read[i]];
      assert read[..i + 1] == read[..i] + [read[i]];
      i := i + 1;
    }
    assert scanned[..i] == scanned;
    assert st[..i] == st;
    assert read[..i] == read;
    assert cells[..] == cells[..i] == read;
  }

  /** One turn of the cell loop: cell `i` is read, entered in the map and counted if protected. */
  method ReadOneCell(c: Cell, i: nat, cells: array<Cell>, m: map<int, int>, n: int) returns (m': map<int, int>, n': int)
    requires i < cells.Length
    modifies cells
    ensures cells[..] == old(cells[..])[i := ReadCell(c)]
    ensures m' == m[c.id := i]
    ensures n' == n + if ReadCell(c).status == Protected then 1 else 0
  {
    var r := ReadCell(c);
    cells[i] := r;
    m' := m[r.id := i];
    n' := if r.status == Protected then n + 1 else n;
  }

  /** Resolved well-formed equations name cells of the table and each have a marginal. */
  lemma {:induction false} ResolvedEquations(scanned: seq<Cell>, raw: seq<Equation>, equations: seq<Equation>)
    requires forall i :: 0 <= i < |raw| ==> WellFormed(raw[i], IdMap(scanned), |scanned|)
    requires |equations| == |raw| && forall i :: 0 <= i < |raw| ==> equations[i] == Resolved(raw[i], IdMap(scanned))
    ensures EquationsInRange(equations, |scanned|)
    ensures forall i :: 0 <= i < |equations| ==> FirstNegative(equations[i].terms).Some?
  {
    forall i | 0 <= i < |raw|
      ensures FirstNegative(equations[i].terms).Some?
    {
      NegativeCountSigns(equations[i].terms, raw[i].terms);
    }
  }

  /** Checking the resolved equations over the read cells decides acceptance. */
  lemma ResolvedConsistency(scanned: seq<Cell>, cells: seq<Cell>, raw: seq<Equation>, equations: seq<Equation>)
    requires |cells| == |scanned| && forall k :: 0 <= k < |scanned| ==> cells[k] == ReadCell(scanned[k])
    requires forall i :: 0 <= i < |raw| ==> WellFormed(raw[i], IdMap(scanned), |scanned|)
    requires |equations| == |raw| && forall i :: 0 <= i < |raw| ==> equations[i] == Resolved(raw[i], IdMap(scanned))
    requires EquationsInRange(equations, |scanned|)
    ensures (exists i :: 0 <= i < |equations| && !Consistent(equations[i], cells)) <==> !Accepted(scanned, raw)
  {
    forall i | 0 <= i < |raw|
      ensures Consistent(equations[i], cells) <==> Consistent(Resolved(raw[i], IdMap(scanned)), scanned)
    {
      TermsSumNominals(equations[i].terms, cells, scanned);
    }
  }

  /**
   * The reading constructor `JJData(filename)`, once the file has been
   * scanned into `scanned` (cells in file order) and `raw` (equations with
   * ids in `cell`): the cells are read, the equations checked and resolved
   * in order (errors 211, 218, 222, 223), then the consistency check (error
   * 214), the level inference (at most `fuel` passes) and the number of
   * levels.
   */
  method ReadTable(scanned: seq<Cell>, raw: seq<Equation>, fuel: nat) returns (r: Result<JJTable>, settled: bool)
    ensures r.Ok? <==> Accepted(scanned, raw)
    ensures r.Err? ==> r.code in {211, 214, 218, 222, 223}
    ensures r.Err? && r.code == 214 ==> forall i :: 0 <= i < |raw| ==> WellFormed(raw[i], IdMap(scanned), |scanned|)
    ensures r.Ok? ==> fresh(r.value) && fresh(r.value.cells) && r.value.Valid()
    ensures r.Ok? ==> r.value.cells.Length == |scanned| && r.value.idMap == IdMap(scanned)
    ensures r.Ok? ==> |r.value.equations| == |raw|
    ensures r.Ok? ==> forall i :: 0 <= i < |raw| ==> r.value.equations[i] == Resolved(raw[i], IdMap(scanned))
    ensures r.Ok? ==> forall k :: 0 <= k < |scanned| ==>
              r.value.cells[k] == ReadCell(scanned[k]).(level := r.value.cells[k].level) && r.value.cells[k].level >= 0
    ensures r.Ok? ==> r.value.nprotected == Count(Statuses(r.value.cells[..]), Protected)
    ensures r.Ok? && settled ==> LevelsSettled(r.value.equations, r.value.cells[..], r.value.idMap)
    ensures r.Ok? ==> r.value.nlevels == if |scanned| > 0 then MaxLevel(r.value.cells[..]) + 1 else 0
  {
    settled := false;
    var cells, m, nprotected := ReadCells(scanned);
    var parsed := ParseEquations(raw, m, cells.Length);
    if parsed.Err? {
      return Err(parsed.code), false;
    }
    var equations := parsed.value;
    ResolvedEquations(scanned, raw, equations);
    var check := CheckConsistency(equations, cells);
    ResolvedConsistency(scanned, cells[..], raw, equations);
    if check.Err? {
      return Err(214), false;
    }
    ghost var read := cells[..];
    var t := new JJTable(cells, m, equations, nprotected);
    settled := t.InferLevels(fuel);
    assert Statuses(t.cells[..]) == Statuses(read);
    var n := t.NumberOfLevels();
    t.nlevels := n;
    r := Ok(t);
  }
}
