/**
 * The grouping of primary cells (`Groups.cpp`): the consistency equations are
 * sorted by size, each primary cell is mapped to the equations it occurs in
 * and back, and the primaries, heaviest first, are placed first-fit into at
 * most 200 groups of bounded size, avoiding any group whose cells already
 * carry half the protection of a shared equation. The cells of each group
 * are finally ordered by nominal value.
 */
module Groups {
  import opened Common
  import opened JJData
  import opened CellStores

  /** `max_groups_limit`: the number of group slots allocated. */
  const MaxGroupsLimit: int := 200

  // ---------------------------------------------------------------------------
  // Group sizing
  // ---------------------------------------------------------------------------

  /** `max_groups`, chosen by the number of primary cells. */
  function MaxGroups(n: int): (r: int)
    ensures 10 <= r <= 100
  {
    if n < 400 then 100
    else if n < 800 then 80
    else if n < 1200 then 60
    else if n < 1600 then 40
    else if n < 2000 then 20
    else 10
  }

  /** More primaries never allow more groups. */
  lemma MaxGroupsNonIncreasing(a: int, b: int)
    requires a <= b
    ensures MaxGroups(b) <= MaxGroups(a)
  {
  }

  /** `max_group_size = MAX(1, size / max_groups)`: at least 1, otherwise the integer quotient. */
  function MaxGroupSize(n: nat): (r: int)
    ensures r >= 1
    ensures n >= MaxGroups(n) ==> r * MaxGroups(n) <= n < (r + 1) * MaxGroups(n)
    ensures n < MaxGroups(n) ==> r == 1
  {
    Max(1, n / MaxGroups(n))
  }

  /**
   * The 200 slots of `max_group_size` cells have room for every primary:
   * only a shared equation, never the lack of space, can leave a primary
   * out of every group.
   */
  lemma GroupSlotsSuffice(n: nat)
    ensures n <= MaxGroupsLimit * MaxGroupSize(n)
  {
    var g := MaxGroups(n);
    var q := n / g;
    if q >= 1 {
      assert n < (q + 1) * g;
      assert (q + 1) * g <= 2 * q * g;
      assert 2 * q * g <= 2 * q * 100;
    }
  }

  // ---------------------------------------------------------------------------
  // The exchange sort
  // ---------------------------------------------------------------------------

  /**
   * The exchange sort used twice by the constructor: for every i and every
   * j > i, swap positions i and j when the element at i ranks strictly
   * higher. It computes `Common.ExchangeSort`, so the result is a
   * permutation of the input in non-decreasing rank.
   */
  method SortByRank<T>(s: seq<T>, rank: T -> real) returns (r: seq<T>)
    ensures r == ExchangeSort(s, rank, 0)
    ensures |r| == |s| && multiset(r) == multiset(s) && SortedBy(r, rank)
  {
    r := s;
    var i := 0;
    while i < |r|
      invariant 0 <= i <= |r| == |s|
      invariant ExchangeSort(r, rank, i) == ExchangeSort(s, rank, 0)
    {
      ExchangeSortUnfold(r, rank, i);
      r := SortRowByRank(r, rank, i);
      i := i + 1;
    }
    ExchangeSortSorts(s, rank);
  }

  /** The inner loop for position i: the least-ranked element of i.. is exchanged into position i. */
  method SortRowByRank<T>(s: seq<T>, rank: T -> real, i: int) returns (r: seq<T>)
    requires 0 <= i < |s|
    ensures r == SortRow(s, rank, i, i)
  {
    r := s;
    var j := 0;
    while j < |r|
      invariant 0 <= j <= |r| == |s|
      invariant j <= i ==> r == s
      invariant i < j ==> SortRow(r, rank, i, j) == SortRow(s, rank, i, i)
    {
      ghost var before := r;
      if i < j && rank(r[i]) > rank(r[j]) {
        r := Swap(r, i, j);
      }
      if i <= j {
        SortRowUnfold(before, rank, i, j, r);
        assert SortRow(r, rank, i, j + 1) == SortRow(s, rank, i, i) by {
          if i == j { assert before == s; }
        }
      } else {
        assert r == s;
      }
      j := j + 1;
    }
    assert SortRow(r, rank, i, |r|) == r;
  }

  /** One step of the inner loop from j >= i: at j == i no exchange can happen. */
  lemma SortRowUnfold<T>(r: seq<T>, rank: T -> real, i: int, j: int, t: seq<T>)
    requires 0 <= i <= j < |r|
    requires t == if i < j && rank(r[i]) > rank(r[j]) then Swap(r, i, j) else r
    ensures SortRow(r, rank, i, j) == SortRow(t, rank, i, j + 1)
  {
  }

  // ---------------------------------------------------------------------------
  // The cell/constraint mappings
  // ---------------------------------------------------------------------------

  /**
   * The primary cells among an equation's terms, in term order and with
   * repetition (`constraints_cell_mapping[i].cell_index`).
   */
  function PrimaryCellsOf(terms: seq<Term>, st: seq<char>): (r: seq<int>)
    ensures |r| <= |terms|
    ensures forall k :: 0 <= k < |r| ==> 0 <= r[k] < |st| && st[r[k]] == Primary
  {
    if terms == [] then []
    else
      var c := terms[|terms| - 1].cell;
      PrimaryCellsOf(terms[..|terms| - 1], st) + (if 0 <= c < |st| && st[c] == Primary then [c] else [])
  }

  /** The total length of a sequence of lists. */
  function SumLengths<T>(s: seq<seq<T>>): nat
  {
    if s == [] then 0 else SumLengths(s[..|s| - 1]) + |s[|s| - 1]|
  }

  /** Appending one element to one list adds one to the total length. */
  lemma {:induction false} SumLengthsAppend<T>(s: seq<seq<T>>, k: int, x: T)
    requires 0 <= k < |s|
    ensures SumLengths(s[k := s[k] + [x]]) == SumLengths(s) + 1
  {
    var t := s[k := s[k] + [x]];
    if k < |s| - 1 {
      assert t[..|t| - 1] == s[..|s| - 1][k := s[k] + [x]];
      SumLengthsAppend(s[..|s| - 1], k, x);
    } else {
      assert t[..|t| - 1] == s[..|s| - 1];
    }
  }

  /**
   * The two mappings are transposes of each other: cell c lists equation i
   * exactly as often as equation i lists cell c.
   */
  ghost predicate Transposed(cellConstraints: seq<seq<int>>, constraintCells: seq<seq<int>>)
  {
    forall c, i :: 0 <= c < |cellConstraints| && 0 <= i < |constraintCells| ==>
      Count(cellConstraints[c], i) == Count(constraintCells[i], c)
  }

  /**
   * The state of the filling loops after the first j terms of equation i:
   * equations before i list all their primary cells, equation i those among
   * its first j terms, later ones none; the cell lists hold, in increasing
   * order, equation numbers up to i; the two mappings are transposed and
   * hold the same number of entries.
   */
  ghost predicate MappedUpTo(equations: seq<Equation>, st: seq<char>, i: int, j: int,
                             cellConstraints: seq<seq<int>>, constraintCells: seq<seq<int>>)
  {
    0 <= i <= |equations| && (i < |equations| ==> 0 <= j <= |equations[i].terms|) &&
    |constraintCells| == |equations| && |cellConstraints| == |st| &&
    (forall i' :: 0 <= i' < i ==> constraintCells[i'] == PrimaryCellsOf(equations[i'].terms, st)) &&
    (i < |equations| ==> constraintCells[i] == PrimaryCellsOf(equations[i].terms[..j], st)) &&
    (forall i' :: i < i' < |equations| ==> constraintCells[i'] == []) &&
    Transposed(cellConstraints, constraintCells) &&
    (forall c, k :: 0 <= c < |st| && 0 <= k < |cellConstraints[c]| ==>
       0 <= cellConstraints[c][k] < |equations| && cellConstraints[c][k] <= i) &&
    (forall c, k, l :: 0 <= c < |st| && 0 <= k < l < |cellConstraints[c]| ==>
       cellConstraints[c][k] <= cellConstraints[c][l]) &&
    SumLengths(cellConstraints) == SumLengths(constraintCells)
  }

  /** Recording term j of equation i keeps the loop state. */
  lemma MapTerm(equations: seq<Equation>, st: seq<char>, i: int, j: int,
                cellConstraints: seq<seq<int>>, constraintCells: seq<seq<int>>)
    requires EquationsInRange(equations, |st|)
    requires MappedUpTo(equations, st, i, j, cellConstraints, constraintCells)
    requires i < |equations| && j < |equations[i].terms|
    ensures var c := equations[i].terms[j].cell;
            if st[c] == Primary
            then MappedUpTo(equations, st, i, j + 1, cellConstraints[c := cellConstraints[c] + [i]],
                            constraintCells[i := constraintCells[i] + [c]])
            else MappedUpTo(equations, st, i, j + 1, cellConstraints, constraintCells)
  {
    var terms := equations[i].terms;
    assert terms[..j + 1][..j] == terms[..j];
    var c := terms[j].cell;
    if st[c] == Primary {
      AddOccurrence(cellConstraints, constraintCells, c, i);
      SumLengthsAppend(cellConstraints, c, i);
      SumLengthsAppend(constraintCells, i, c);
    }
  }

  /** Finishing equation i starts equation i + 1. */
  lemma MapNext(equations: seq<Equation>, st: seq<char>, i: int,
                cellConstraints: seq<seq<int>>, constraintCells: seq<seq<int>>)
    requires 0 <= i < |equations| && MappedUpTo(equations, st, i, |equations[i].terms|, cellConstraints, constraintCells)
    ensures MappedUpTo(equations, st, i + 1, 0, cellConstraints, constraintCells)
  {
    assert equations[i].terms[..|equations[i].terms|] == equations[i].terms;
    if i + 1 < |equations| {
      assert equations[i + 1].terms[..0] == [];
    }
  }

  /**
   * The counting and filling loops of the constructor: equation i lists its
   * primary cells in term order, each cell lists, in increasing order, the
   * equations it occurs in as a primary (once per occurrence), and so both
   * mappings hold the same number of entries.
   */
  method BuildMappings(equations: seq<Equation>, st: seq<char>)
      returns (cellConstraints: seq<seq<int>>, constraintCells: seq<seq<int>>)
    requires EquationsInRange(equations, |st|)
    ensures |constraintCells| == |equations| && |cellConstraints| == |st|
    ensures forall i :: 0 <= i < |equations| ==> constraintCells[i] == PrimaryCellsOf(equations[i].terms, st)
    ensures Transposed(cellConstraints, constraintCells)
    ensures forall c, k :: 0 <= c < |st| && 0 <= k < |cellConstraints[c]| ==> 0 <= cellConstraints[c][k] < |equations|
    ensures forall c, k, l :: 0 <= c < |st| && 0 <= k < l < |cellConstraints[c]| ==>
              cellConstraints[c][k] <= cellConstraints[c][l]
    ensures SumLengths(cellConstraints) == SumLengths(constraintCells)
  {
    cellConstraints := seq(|st|, _ => []);
    constraintCells := seq(|equations|, _ => []);
    ZeroLengths(cellConstraints);
    ZeroLengths(constraintCells);
    if |equations| > 0 {
      assert equations[0].terms[..0] == [];
    }
    var i := 0;
    while i < |equations|
      invariant MappedUpTo(equations, st, i, 0, cellConstraints, constraintCells)
    {
      var terms := equations[i].terms;
      var j := 0;
      while j < |terms|
        invariant MappedUpTo(equations, st, i, j, cellConstraints, constraintCells)
      {
        MapTerm(equations, st, i, j, cellConstraints, constraintCells);
        var c := terms[j].cell;
        if st[c] == Primary {
          cellConstraints := cellConstraints[c := cellConstraints[c] + [i]];
          constraintCells := constraintCells[i := constraintCells[i] + [c]];
        }
        j := j + 1;
      }
      MapNext(equations, st, i, cellConstraints, constraintCells);
      i := i + 1;
    }
  }

  /** Lists that are all empty have total length 0. */
  lemma {:induction false} ZeroLengths<T>(s: seq<seq<T>>)
    requires forall k :: 0 <= k < |s| ==> s[k] == []
    ensures SumLengths(s) == 0
  {
    if s != [] {
      ZeroLengths(s[..|s| - 1]);
    }
  }

  /** Recording one more occurrence of cell c in equation i on both sides keeps the mappings transposed. */
  lemma AddOccurrence(cellConstraints: seq<seq<int>>, constraintCells: seq<seq<int>>, c: int, i: int)
    requires 0 <= c < |cellConstraints| && 0 <= i < |constraintCells|
    requires Transposed(cellConstraints, constraintCells)
    ensures Transposed(cellConstraints[c := cellConstraints[c] + [i]], constraintCells[i := constraintCells[i] + [c]])
  {
    var a := cellConstraints[c := cellConstraints[c] + [i]];
    var b := constraintCells[i := constraintCells[i] + [c]];
    forall c', i' | 0 <= c' < |a| && 0 <= i' < |b|
      ensures Count(a[c'], i') == Count(b[i'], c')
    {
      CountAppend(cellConstraints[c], i, i');
      CountAppend(constraintCells[i], c, c');
    }
  }

  /**
   * The sums of the lower and of the upper protection levels of a list of
   * cells (every list it is applied to holds cell indices of the table).
   */
  function Load(xs: seq<int>, cells: seq<Cell>): (r: (real, real))
  {
    if xs == [] then (0.0, 0.0)
    else
      var x := xs[|xs| - 1];
      var prefix := Load(xs[..|xs| - 1], cells);
      if 0 <= x < |cells| then (prefix.0 + cells[x].lowerProtection, prefix.1 + cells[x].upperProtection)
      else prefix
  }

  /** Adding a cell to a list adds its protection levels to the load. */
  lemma LoadAppend(xs: seq<int>, x: int, cells: seq<Cell>)
    requires 0 <= x < |cells|
    ensures Load(xs + [x], cells) ==
            (Load(xs, cells).0 + cells[x].lowerProtection, Load(xs, cells).1 + cells[x].upperProtection)
  {
    assert (xs + [x])[..|xs|] == xs;
  }

  /**
   * The protection-level loop: for each equation, half the sum of the lower
   * and of the upper protection levels of its primary cells (0.0 for an
   * equation without primaries).
   */
  method HalfSums(constraintCells: seq<seq<int>>, cells: seq<Cell>) returns (halfLower: seq<real>, halfUpper: seq<real>)
    requires forall i, k :: 0 <= i < |constraintCells| && 0 <= k < |constraintCells[i]| ==>
               0 <= constraintCells[i][k] < |cells|
    ensures |halfLower| == |halfUpper| == |constraintCells|
    ensures forall i :: 0 <= i < |constraintCells| ==>
              halfLower[i] == Load(constraintCells[i], cells).0 / 2.0 &&
              halfUpper[i] == Load(constraintCells[i], cells).1 / 2.0
  {
    halfLower := [];
    halfUpper := [];
    var i := 0;
    while i < |constraintCells|
      invariant 0 <= i <= |constraintCells| && |halfLower| == |halfUpper| == i
      invariant forall i' :: 0 <= i' < i ==>
                  halfLower[i'] == Load(constraintCells[i'], cells).0 / 2.0 &&
                  halfUpper[i'] == Load(constraintCells[i'], cells).1 / 2.0
    {
      var members := constraintCells[i];
      var sumLower := 0.0;
      var sumUpper := 0.0;
      var j := 0;
      while j < |members|
        invariant 0 <= j <= |members|
        invariant (sumLower, sumUpper) == Load(members[..j], cells)
      {
        assert members[..j + 1] == members[..j] + [members[j]];
        LoadAppend(members[..j], members[j], cells);
        sumLower := sumLower + cells[members[j]].lowerProtection;
        sumUpper := sumUpper + cells[members[j]].upperProtection;
        j := j + 1;
      }
      assert members[..j] == members;
      halfLower := halfLower + [sumLower / 2.0];
      halfUpper := halfUpper + [sumUpper / 2.0];
      i := i + 1;
    }
  }

  // ---------------------------------------------------------------------------
  // First-fit assignment
  // ---------------------------------------------------------------------------

  /** The members of a group that occur in an equation's list of primary cells, in group order. */
  function SharedCells(members: seq<int>, inConstraint: seq<int>): (r: seq<int>)
    ensures |r| <= |members|
    ensures forall k :: 0 <= k < |r| ==> r[k] in members && r[k] in inConstraint
  {
    if members == [] then []
    else
      var x := members[|members| - 1];
      SharedCells(members[..|members| - 1], inConstraint) + (if x in inConstraint then [x] else [])
  }

  /**
   * Whether equation k stops `cell` from joining a group holding `members`:
   * the group already holds primaries of the equation, and with the new cell
   * their lower or their upper protection levels would exceed half the
   * equation's total.
   */
  predicate Blocks(cell: int, members: seq<int>, k: int, constraintCells: seq<seq<int>>,
                   halfLower: seq<real>, halfUpper: seq<real>, cells: seq<Cell>)
    requires 0 <= cell < |cells| && 0 <= k < |constraintCells| == |halfLower| == |halfUpper|
  {
    var shared := SharedCells(members, constraintCells[k]);
    var load := Load(shared, cells);
    |shared| > 0 &&
    (load.0 + cells[cell].lowerProtection > halfLower[k] || load.1 + cells[cell].upperProtection > halfUpper[k])
  }

  /** `cell_in_constraint`: whether the cell is among the equation's primary cells. */
  method CellInConstraint(cell: int, inConstraint: seq<int>) returns (b: bool)
    ensures b <==> cell in inConstraint
  {
    var i := 0;
    while i < |inConstraint|
      invariant 0 <= i <= |inConstraint| && cell !in inConstraint[..i]
    {
      if cell == inConstraint[i] {
        return true;
      }
      assert inConstraint[..i + 1] == inConstraint[..i] + [inConstraint[i]];
      i := i + 1;
    }
    assert inConstraint[..i] == inConstraint;
    return false;
  }

  /** `cell_already_in_group`: whether the group already holds the cell. */
  method CellAlreadyInGroup(cell: int, members: seq<int>) returns (b: bool)
    ensures b <==> cell in members
  {
    b := false;
    var i := 0;
    while i < |members|
      invariant 0 <= i <= |members| && (b <==> cell in members[..i])
    {
      assert members[..i + 1] == members[..i] + [members[i]];
      if cell == members[i] {
        b := true;
      }
      i := i + 1;
    }
    assert members[..i] == members;
  }

  /**
   * The loop over a group's members for one equation: the number of members
   * in the equation and the sums of their protection levels.
   */
  method SharedLoad(members: seq<int>, inConstraint: seq<int>, cells: seq<Cell>)
      returns (sharedCount: int, sumLower: real, sumUpper: real)
    requires forall l :: 0 <= l < |members| ==> 0 <= members[l] < |cells|
    ensures sharedCount == |SharedCells(members, inConstraint)|
    ensures sumLower == Load(SharedCells(members, inConstraint), cells).0
    ensures sumUpper == Load(SharedCells(members, inConstraint), cells).1
  {
    sumLower := 0.0;
    sumUpper := 0.0;
    sharedCount := 0;
    var l := 0;
    while l < |members|
      invariant 0 <= l <= |members|
      invariant sharedCount == |SharedCells(members[..l], inConstraint)|
      invariant sumLower == Load(SharedCells(members[..l], inConstraint), cells).0
      invariant sumUpper == Load(SharedCells(members[..l], inConstraint), cells).1
    {
      var x := members[l];
      ghost var before := SharedCells(members[..l], inConstraint);
      SharedCellsStep(members, l, inConstraint);
      var inside := CellInConstraint(x, inConstraint);
      if inside {
        LoadAppend(before, x, cells);
        sumLower := sumLower + cells[x].lowerProtection;
        sumUpper := sumUpper + cells[x].upperProtection;
        sharedCount := sharedCount + 1;
      }
      l := l + 1;
    }
    assert members[..l] == members;
  }

  lemma SharedCellsStep(members: seq<int>, l: int, inConstraint: seq<int>)
    requires 0 <= l < |members|
    ensures members[l] in inConstraint ==>
              SharedCells(members[..l + 1], inConstraint) == SharedCells(members[..l], inConstraint) + [members[l]]
    ensures members[l] !in inConstraint ==>
              SharedCells(members[..l + 1], inConstraint) == SharedCells(members[..l], inConstraint)
  {
    assert members[..l + 1][..l] == members[..l];
    assert SharedCells(members[..l], inConstraint) + [] == SharedCells(members[..l], inConstraint);
  }

  /** The test after the member loop: it decides `Blocks`. */
  method ConstraintBlocks(cell: int, members: seq<int>, k: int, constraintCells: seq<seq<int>>,
                          halfLower: seq<real>, halfUpper: seq<real>, cells: seq<Cell>) returns (b: bool)
    requires 0 <= cell < |cells| && 0 <= k < |constraintCells| == |halfLower| == |halfUpper|
    requires forall l :: 0 <= l < |members| ==> 0 <= members[l] < |cells|
    ensures b <==> Blocks(cell, members, k, constraintCells, halfLower, halfUpper, cells)
  {
    var sharedCount, sumLower, sumUpper := SharedLoad(members, constraintCells[k], cells);
    b := sharedCount > 0 &&
         (sumLower + cells[cell].lowerProtection > halfLower[k] || sumUpper + cells[cell].upperProtection > halfUpper[k]);
  }

  /**
   * The constraint loop for one candidate group: true when the group already
   * holds the cell, or when one of the cell's equations blocks it (the loop
   * stops at the first that does).
   */
  method CommonConstraint(cell: int, members: seq<int>, cellConstraints: seq<seq<int>>, constraintCells: seq<seq<int>>,
                          halfLower: seq<real>, halfUpper: seq<real>, cells: seq<Cell>) returns (common: bool)
    requires 0 <= cell < |cells| == |cellConstraints| && |constraintCells| == |halfLower| == |halfUpper|
    requires forall k :: 0 <= k < |cellConstraints[cell]| ==> 0 <= cellConstraints[cell][k] < |constraintCells|
    requires forall l :: 0 <= l < |members| ==> 0 <= members[l] < |cells|
    ensures common <==> (cell in members ||
                         exists k :: 0 <= k < |cellConstraints[cell]| &&
                           Blocks(cell, members, cellConstraints[cell][k], constraintCells, halfLower, halfUpper, cells))
  {
    common := CellAlreadyInGroup(cell, members);
    var cons := cellConstraints[cell];
    var k := 0;
    while k < |cons| && !common
      invariant 0 <= k <= |cons|
      invariant common <==> (cell in members ||
                             exists k' :: 0 <= k' < k && Blocks(cell, members, cons[k'], constraintCells, halfLower, halfUpper, cells))
    {
      var blocks := ConstraintBlocks(cell, members, cons[k], constraintCells, halfLower, halfUpper, cells);
      if blocks {
        common := true;
      }
      k := k + 1;
    }
  }

  /** No list holds an element twice. */
  predicate NoDuplicates(s: seq<int>)
  {
    forall k, l :: 0 <= k < l < |s| ==> s[k] != s[l]
  }

  /** The non-empty groups come first. */
  predicate NonEmptyPrefix(groups: seq<seq<int>>)
  {
    forall j, k :: 0 <= j < k < |groups| && groups[k] != [] ==> groups[j] != []
  }

  /**
   * The properties of a filled group array: no group over `maxSize` cells or
   * holding a cell twice, every cell drawn from `from`, and the non-empty
   * groups first.
   */
  ghost predicate WellGrouped(groups: seq<seq<int>>, maxSize: int, from: seq<int>)
  {
    (forall j :: 0 <= j < |groups| ==> |groups[j]| <= maxSize && NoDuplicates(groups[j])) &&
    (forall j, x :: 0 <= j < |groups| && x in groups[j] ==> x in from) &&
    NonEmptyPrefix(groups)
  }

  /**
   * The assignment loop: each stored cell, in order, goes to the first group
   * that is empty, or that has room and neither holds the cell nor shares a
   * blocking equation with it; a cell no group admits is left out.
   */
  method AssignCells(stored: seq<int>, group: array<seq<int>>, maxSize: int,
                     cellConstraints: seq<seq<int>>, constraintCells: seq<seq<int>>,
                     halfLower: seq<real>, halfUpper: seq<real>, cells: seq<Cell>)
    requires maxSize >= 1 && forall j :: 0 <= j < group.Length ==> group[j] == []
    requires forall x :: x in stored ==> 0 <= x < |cells|
    requires |cells| == |cellConstraints| && |constraintCells| == |halfLower| == |halfUpper|
    requires forall c, k :: 0 <= c < |cells| && 0 <= k < |cellConstraints[c]| ==>
               0 <= cellConstraints[c][k] < |constraintCells|
    modifies group
    ensures WellGrouped(group[..], maxSize, stored)
  {
    var i := 0;
    while i < |stored|
      invariant 0 <= i <= |stored|
      invariant WellGrouped(group[..], maxSize, stored)
    {
      var cell := stored[i];
      assert cell in stored;
      var placed := false;
      var j := 0;
      ghost var before := group[..];
      while j < group.Length && !placed
        invariant 0 <= j <= group.Length
        invariant WellGrouped(group[..], maxSize, stored)
        invariant !placed ==> group[..] == before && forall j' :: 0 <= j' < j ==> group[j'] != []
      {
        if |group[j]| == 0 {
          group[j] := [cell];
          placed := true;
        } else if |group[j]| < maxSize {
          MembersInRange(group[..], maxSize, stored, |cells|, j);
          var common := CommonConstraint(cell, group[j], cellConstraints, constraintCells, halfLower, halfUpper, cells);
          if common && cell in group[j] {
            placed := true;
          }
          if !common {
            group[j] := group[j] + [cell];
            placed := true;
          }
        }
        j := j + 1;
      }
      i := i + 1;
    }
  }

  /** The members of a group drawn from in-range cells are in range. */
  lemma MembersInRange(groups: seq<seq<int>>, maxSize: int, from: seq<int>, n: int, j: int)
    requires WellGrouped(groups, maxSize, from) && 0 <= j < |groups|
    requires forall x :: x in from ==> 0 <= x < n
    ensures forall l :: 0 <= l < |groups[j]| ==> 0 <= groups[j][l] < n
  {
    forall l | 0 <= l < |groups[j]|
      ensures 0 <= groups[j][l] < n
    {
      var x := groups[j][l];
      assert x in groups[j];
      assert x in from;
    }
  }

  /** The counting loop: the number of non-empty groups, which with the prefix property are exactly groups 0..n-1. */
  method CountGroups(group: array<seq<int>>) returns (n: int)
    requires NonEmptyPrefix(group[..])
    ensures 0 <= n <= group.Length
    ensures forall j :: 0 <= j < group.Length ==> (group[j] != [] <==> j < n)
  {
    n := 0;
    var i := 0;
    while i < group.Length
      invariant 0 <= n <= i <= group.Length
      invariant forall j :: 0 <= j < i ==> (group[j] != [] <==> j < n)
      invariant n < i ==> group[n] == []
    {
      if group[i] != [] {
        n := n + 1;
      }
      i := i + 1;
    }
  }

  /** The nominal value of a cell, as the in-group ordering compares it. */
  function Nominal(cells: seq<Cell>, c: int): real
  {
    if 0 <= c < |cells| then cells[c].nominal else 0.0
  }

  /** The in-group ordering: groups 0..n-1 sorted by non-decreasing nominal value, as permutations. */
  method OrderGroups(group: array<seq<int>>, n: int, cells: seq<Cell>)
    requires 0 <= n <= group.Length
    modifies group
    ensures forall j :: 0 <= j < group.Length ==> multiset(group[j]) == multiset(old(group[j]))
    ensures forall j :: n <= j < group.Length ==> group[j] == old(group[j])
    ensures forall j, p, q :: 0 <= j < n && 0 <= p < q < |group[j]| ==>
              Nominal(cells, group[j][p]) <= Nominal(cells, group[j][q])
  {
    var grp := 0;
    while grp < n
      invariant 0 <= grp <= n
      invariant forall j :: 0 <= j < group.Length ==> multiset(group[j]) == multiset(old(group[j]))
      invariant forall j :: grp <= j < group.Length ==> group[j] == old(group[j])
      invariant forall j, p, q :: 0 <= j < grp && 0 <= p < q < |group[j]| ==>
                  Nominal(cells, group[j][p]) <= Nominal(cells, group[j][q])
    {
      var sorted := SortByRank(group[grp], (c: int) => Nominal(cells, c));
      group[grp] := sorted;
      grp := grp + 1;
    }
  }

  /** Sorting a group keeps it within the size bound, free of duplicates and drawn from the same cells. */
  lemma PermutedGroups(before: seq<seq<int>>, after: seq<seq<int>>, maxSize: int, from: seq<int>)
    requires |before| == |after| && WellGrouped(before, maxSize, from)
    requires forall j :: 0 <= j < |before| ==> multiset(after[j]) == multiset(before[j])
    ensures WellGrouped(after, maxSize, from)
  {
    forall j | 0 <= j < |before|
      ensures |after[j]| <= maxSize && NoDuplicates(after[j]) && (forall x :: x in after[j] ==> x in from)
      ensures after[j] != [] <==> before[j] != []
    {
      assert |after[j]| == |multiset(after[j])| == |multiset(before[j])| == |before[j]|;
      forall x | x in after[j]
        ensures x in before[j]
      {
        assert x in multiset(after[j]);
      }
      forall k, l | 0 <= k < l < |after[j]|
        ensures after[j][k] != after[j][l]
      {
        if after[j][k] == after[j][l] {
          DuplicateCounts(after[j], k, l);
          NoDuplicatesCounts(before[j], after[j][k]);
        }
      }
    }
  }

  /** A list holding x at two positions counts it at least twice. */
  lemma DuplicateCounts(s: seq<int>, k: int, l: int)
    requires 0 <= k < l < |s| && s[k] == s[l]
    ensures multiset(s)[s[k]] >= 2
  {
    assert s == s[..k] + [s[k]] + s[k + 1..l] + [s[l]] + s[l + 1..];
  }

  /** A list without duplicates counts each element at most once. */
  lemma {:induction false} NoDuplicatesCounts(s: seq<int>, x: int)
    requires NoDuplicates(s)
    ensures multiset(s)[x] <= 1
  {
    if s != [] {
      assert s == [s[0]] + s[1..];
      NoDuplicatesCounts(s[1..], x);
      assert s[0] == x ==> x !in s[1..];
    }
  }

  /** The primaries of a table, in increasing order of cell index. */
  function PrimariesOf(cells: seq<Cell>): (r: seq<int>)
    ensures forall k :: 0 <= k < |r| ==> 0 <= r[k] < |cells| && cells[r[k]].status == Primary
    ensures forall k, l :: 0 <= k < l < |r| ==> r[k] < r[l]
  {
    IndicesOf(Statuses(cells), Primary)
  }

  /**
   * The first step of the constructor: a cell store filled with the primary
   * cells and ordered by non-increasing weight. The result is a permutation
   * of the primaries' indices.
   */
  method HeaviestPrimaries(cells: seq<Cell>) returns (stored: seq<int>)
    ensures multiset(stored) == multiset(IndicesOf(Statuses(cells), Primary))
    ensures forall x :: x in stored ==> 0 <= x < |cells| && cells[x].status == Primary
    ensures forall k :: 0 <= k < |stored| ==> 0 <= stored[k] < |cells|
    ensures forall p, q :: 0 <= p < q < |stored| ==> cells[stored[p]].weight >= cells[stored[q]].weight
  {
    var store := new CellStore(|cells|);
    store.StoreSelectedCells(cells);
    forall p | 0 <= p < store.size
      ensures 0 <= store.cells[p] < |cells|
    {
      assert store.cells[p] == store.Stored()[p];
    }
    store.OrderCellsByLargestWeighting(cells);
    stored := store.cells[..store.size];
    forall x | x in stored
      ensures 0 <= x < |cells| && cells[x].status == Primary
    {
      assert x in multiset(stored);
      assert x in IndicesOf(Statuses(cells), Primary);
    }
  }

  /**
   * The grouping proper, for a non-empty list of primaries: 200 empty slots,
   * first-fit assignment, the count of non-empty groups and the in-group
   * ordering by nominal value.
   */
  method FormGroups(stored: seq<int>, size: int, cellConstraints: seq<seq<int>>, constraintCells: seq<seq<int>>,
                    halfLower: seq<real>, halfUpper: seq<real>, cells: seq<Cell>)
      returns (group: array<seq<int>>, count: int)
    requires size >= 1 && forall x :: x in stored ==> 0 <= x < |cells|
    requires |cells| == |cellConstraints| && |constraintCells| == |halfLower| == |halfUpper|
    requires forall c, k :: 0 <= c < |cells| && 0 <= k < |cellConstraints[c]| ==>
               0 <= cellConstraints[c][k] < |constraintCells|
    ensures group.Length == MaxGroupsLimit && 0 <= count <= group.Length
    ensures WellGrouped(group[..], size, stored)
    ensures forall j :: 0 <= j < group.Length ==> (group[j] != [] <==> j < count)
    ensures forall j, p, q :: 0 <= j < count && 0 <= p < q < |group[j]| ==>
              Nominal(cells, group[j][p]) <= Nominal(cells, group[j][q])
  {
    group := new seq<int>[MaxGroupsLimit](_ => []);
    AssignCells(stored, group, size, cellConstraints, constraintCells, halfLower, halfUpper, cells);
    ghost var filled := group[..];
    count := CountGroups(group);
    OrderGroups(group, count, cells);
    PermutedGroups(filled, group[..], size, stored);
  }

  /** Cells drawn from one list are drawn from any list holding all of its elements. */
  lemma WellGroupedWithin(groups: seq<seq<int>>, maxSize: int, from: seq<int>, all: seq<int>)
    requires WellGrouped(groups, maxSize, from) && forall x :: x in from ==> x in all
    ensures WellGrouped(groups, maxSize, all)
  {
  }

  /** A permutation of equations whose terms name cells of the table names cells of the table too. */
  lemma PermutedInRange(a: seq<Equation>, b: seq<Equation>, n: int)
    requires multiset(a) == multiset(b) && EquationsInRange(b, n)
    ensures EquationsInRange(a, n)
  {
    forall i, k | 0 <= i < |a| && 0 <= k < |a[i].terms|
      ensures 0 <= a[i].terms[k].cell < n
    {
      assert a[i] in multiset(b);
      var i' :| 0 <= i' < |b| && b[i'] == a[i];
    }
  }

  /** Reordering the equations keeps a marginal in every one of them. */
  lemma PermutedMarginals(a: seq<Equation>, b: seq<Equation>)
    requires multiset(a) == multiset(b)
    requires forall i :: 0 <= i < |b| ==> FirstNegative(b[i].terms).Some?
    ensures forall i :: 0 <= i < |a| ==> FirstNegative(a[i].terms).Some?
  {
    forall i | 0 <= i < |a|
      ensures FirstNegative(a[i].terms).Some?
    {
      assert a[i] in multiset(b);
      var i' :| 0 <= i' < |b| && b[i'] == a[i];
    }
  }

  /**
   * All the work of the constructor on the table's cells and equations: the
   * equations sorted by size, the two mappings and the half sums over the
   * sorted equations, and the groups with their count and size bound. With
   * no primary cells there are no groups.
   */
  method GroupCells(cells: seq<Cell>, equations: seq<Equation>)
      returns (sorted: seq<Equation>, cellConstraints: seq<seq<int>>, constraintCells: seq<seq<int>>,
               halfLower: seq<real>, halfUpper: seq<real>, group: array<seq<int>>, count: int, size: int)
    requires EquationsInRange(equations, |cells|)
    ensures multiset(sorted) == multiset(equations)
    ensures forall p, q :: 0 <= p < q < |sorted| ==> |sorted[p].terms| <= |sorted[q].terms|
    ensures |constraintCells| == |sorted| && Transposed(cellConstraints, constraintCells)
    ensures forall i :: 0 <= i < |sorted| ==> constraintCells[i] == PrimaryCellsOf(sorted[i].terms, Statuses(cells))
    ensures 0 <= count <= group.Length <= MaxGroupsLimit
    ensures WellGrouped(group[..], size, IndicesOf(Statuses(cells), Primary))
    ensures forall j :: 0 <= j < group.Length ==> (group[j] != [] <==> j < count)
    ensures forall j, p, q :: 0 <= j < count && 0 <= p < q < |group[j]| ==>
              Nominal(cells, group[j][p]) <= Nominal(cells, group[j][q])
  {
    var st := Statuses(cells);
    var stored := HeaviestPrimaries(cells);
    forall x | x in stored
      ensures x in IndicesOf(st, Primary)
    {
      assert x in multiset(stored);
    }
    sorted := SortByRank(equations, (e: Equation) => |e.terms| as real);
    PermutedInRange(sorted, equations, |cells|);
    cellConstraints, constraintCells := BuildMappings(sorted, st);
    halfLower, halfUpper := HalfSums(constraintCells, cells);
    var n := |stored|;
    if n > 0 {
      size := MaxGroupSize(n);
      group, count := FormGroups(stored, size, cellConstraints, constraintCells, halfLower, halfUpper, cells);
      WellGroupedWithin(group[..], size, stored, IndicesOf(st, Primary));
    } else {
      size := 0;
      group := new seq<int>[0];
      count := 0;
    }
  }

  class Groups {
    /** `group`: the group slots, each the list of its cells. */
    var group: array<seq<int>>
    /** `number_of_groups`: the non-empty groups are exactly `group[0..number_of_groups)`. */
    var numberOfGroups: int
    var maxGroupSize: int
    var cellConstraints: seq<seq<int>>
    var constraintCells: seq<seq<int>>
    var halfLower: seq<real>
    var halfUpper: seq<real>

    /**
     * The constructor: sorts the table's equations by size in place, builds
     * the mappings and half sums, and groups the primaries taken heaviest
     * first.
     */
    constructor (table: JJTable)
      requires table.Valid()
      modifies table
      ensures table.Valid()
      ensures table.cells == old(table.cells) && table.idMap == old(table.idMap)
      ensures table.nprotected == old(table.nprotected) && table.nlevels == old(table.nlevels)
      ensures multiset(table.equations) == multiset(old(table.equations))
      ensures forall p, q :: 0 <= p < q < |table.equations| ==> |table.equations[p].terms| <= |table.equations[q].terms|
      ensures Transposed(cellConstraints, constraintCells) && |constraintCells| == |table.equations|
      ensures forall i :: 0 <= i < |table.equations| ==>
                constraintCells[i] == PrimaryCellsOf(table.equations[i].terms, Statuses(table.cells[..]))
      ensures 0 <= numberOfGroups <= group.Length <= MaxGroupsLimit
      ensures WellGrouped(group[..], maxGroupSize, IndicesOf(Statuses(table.cells[..]), Primary))
      ensures forall j :: 0 <= j < group.Length ==> (group[j] != [] <==> j < numberOfGroups)
      ensures forall j, p, q :: 0 <= j < numberOfGroups && 0 <= p < q < |group[j]| ==>
                Nominal(table.cells[..], group[j][p]) <= Nominal(table.cells[..], group[j][q])
    {
      var sorted, cc, ccells, hl, hu, g, count, size := GroupCells(table.cells[..], table.equations);
      PermutedInRange(sorted, table.equations, table.cells.Length);
      PermutedMarginals(sorted, table.equations);
      table.equations := sorted;
      cellConstraints := cc;
      constraintCells := ccells;
      halfLower := hl;
      halfUpper := hu;
      group := g;
      numberOfGroups := count;
      maxGroupSize := size;
    }
  }
}
