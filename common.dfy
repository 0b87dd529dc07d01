/**
 * Shared vocabulary of the SUMiT model: error wrappers, the numeric
 * constants that the C++ headers define, and the cell status letters of a
 * JJ table.
 */
module Common {

  /** An optional value (a C pointer that may be NULL, a Java reference that may be null). */
  datatype Option<T> = None | Some(value: T)

  /**
   * The outcome of an operation that can hit one of the source's fatal
   * `logger->error(code, ...)` calls: the model returns the error code instead
   * of terminating the process.
   */
  datatype Result<T> = Ok(value: T) | Err(code: int)
  {
    predicate IsOk() { Ok? }
  }

  /** FLOAT_PRECISION, the tolerance used for every floating-point comparison. */
  const FloatPrecision: real := 0.0001

  /**
   * DBL_MAX, (2^53 - 1) * 2^971, stands for "unbounded" in the upper bounds of
   * suppressed cells.
   */
  const DblMax: real := 179769313486231570814527423731704356798070567525844996598917476803157260780028538760589558632766878171540458953514382464234321326889464182768467546703537516986049910576551282076245490090389328944075868508455133942304583236903222948165808559332123348274797826204144723168738177180919299881250404026184124858368.0

  /** Cell status letters of a JJ table. */
  const Primary: char := 'u'       // primary (sensitive) cell, must be suppressed
  const Secondary: char := 'm'     // secondary suppression chosen by the search
  const Safe: char := 's'          // published cell that may be suppressed
  const Protected: char := 'z'     // zero or protected cell, never suppressed

  /** The protection models (`FULL_MODEL`, `YPLUS_MODEL`, `YMINUS_MODEL`). */
  const FullModel: int := 0
  const YPlusModel: int := 1
  const YMinusModel: int := 2

  /** `INDIVIDUAL_PROTECTION` and `GROUP_PROTECTION`. */
  const IndividualProtection: int := 0
  const GroupProtection: int := 1

  /** Whether a status letter stands for a cell that is not published. */
  predicate IsSuppressed(status: char)
  {
    status == Primary || status == Secondary
  }

  function Abs(x: real): (r: real)
    ensures r >= 0.0 && (r == x || r == -x)
  {
    if x < 0.0 then -x else x
  }

  function Min(a: int, b: int): (r: int)
    ensures r <= a && r <= b && (r == a || r == b)
  {
    if a < b then a else b
  }

  function Max(a: int, b: int): (r: int)
    ensures r >= a && r >= b && (r == a || r == b)
  {
    if a > b then a else b
  }

  /** `fabs(a - b)`: how far apart two values are. */
  function Distance(a: real, b: real): (d: real)
    ensures d >= 0.0 && (d == a - b || d == b - a)
  {
    if a >= b then a - b else b - a
  }

  /** The number of positions of `s` holding `c`. */
  function Count<T(==)>(s: seq<T>, c: T): (n: nat)
    ensures n <= |s|
  {
    if s == [] then 0 else Count(s[..|s| - 1], c) + (if s[|s| - 1] == c then 1 else 0)
  }

  /** Two sequences that hold `c` at the same positions hold it equally often. */
  lemma {:induction false} CountAgree<T>(a: seq<T>, b: seq<T>, c: T)
    requires |a| == |b| && forall k :: 0 <= k < |a| ==> (a[k] == c <==> b[k] == c)
    ensures Count(a, c) == Count(b, c)
  {
    if a != [] {
      CountAgree(a[..|a| - 1], b[..|b| - 1], c);
    }
  }

  /** The indices (in increasing order) of the positions of `s` holding `c`. */
  function IndicesOf<T(==)>(s: seq<T>, c: T): (r: seq<int>)
    ensures |r| == Count(s, c)
    ensures forall k :: 0 <= k < |r| ==> 0 <= r[k] < |s| && s[r[k]] == c
    ensures forall k, l :: 0 <= k < l < |r| ==> r[k] < r[l]
  {
    if s == [] then []
    else IndicesOf(s[..|s| - 1], c) + (if s[|s| - 1] == c then [|s| - 1] else [])
  }

  /** Counting a longer prefix adds the next element's contribution. */
  lemma CountPrefix<T>(s: seq<T>, j: nat, c: T)
    requires 0 < j <= |s|
    ensures Count(s[..j], c) == Count(s[..j - 1], c) + (if s[j - 1] == c then 1 else 0)
    ensures IndicesOf(s[..j], c) == IndicesOf(s[..j - 1], c) + (if s[j - 1] == c then [j - 1] else [])
  {
    assert s[..j][..j - 1] == s[..j - 1];
  }

  /** The positions of `c` in a prefix are the first of its positions in the whole sequence. */
  lemma {:induction false} IndicesOfExtends<T>(s: seq<T>, j: nat, c: T)
    requires j <= |s|
    ensures IndicesOf(s[..j], c) <= IndicesOf(s, c)
    decreases |s| - j
  {
    if j < |s| {
      CountPrefix(s, j + 1, c);
      IndicesOfExtends(s, j + 1, c);
    } else {
      assert s[..j] == s;
    }
  }

  /** A prefix holds `c` no more often than the whole sequence. */
  lemma {:induction false} CountMonotone<T>(s: seq<T>, j: nat, c: T)
    requires j <= |s|
    ensures Count(s[..j], c) <= Count(s, c)
    decreases |s| - j
  {
    if j < |s| {
      CountMonotone(s, j + 1, c);
      CountPrefix(s, j + 1, c);
    } else {
      assert s[..j] == s;
    }
  }

  /** Appending an element adds one to its own count and leaves every other count alone. */
  lemma CountAppend<T>(s: seq<T>, x: T, c: T)
    ensures Count(s + [x], c) == Count(s, c) + (if x == c then 1 else 0)
  {
    assert (s + [x])[..|s|] == s;
  }

  /** The sequence with positions i and j exchanged. */
  function Swap<T>(s: seq<T>, i: int, j: int): (r: seq<T>)
    requires 0 <= i < |s| && 0 <= j < |s|
    ensures |r| == |s| && r[i] == s[j] && r[j] == s[i]
    ensures forall p :: 0 <= p < |s| && p != i && p != j ==> r[p] == s[p]
  {
    seq(|s|, p requires 0 <= p < |s| => if p == j then s[i] else if p == i then s[j] else s[p])
  }

  /** An exchange keeps the elements. */
  lemma SwapKeeps<T>(s: seq<T>, i: int, j: int)
    requires 0 <= i < |s| && 0 <= j < |s|
    ensures multiset(Swap(s, i, j)) == multiset(s)
  {
    assert Swap(s, i, j) == s[i := s[j]][j := s[i]];
  }

  /** An exchange in a rearrangement of g is still a rearrangement of g. */
  lemma SwapStillKeeps<T>(s: seq<T>, g: seq<T>, i: int, j: int)
    requires 0 <= i < |s| && 0 <= j < |s| && multiset(s) == multiset(g)
    ensures multiset(Swap(s, i, j)) == multiset(g)
  {
    SwapKeeps(s, i, j);
  }

  /** Sum of a sequence of reals. */
  function SumReal(s: seq<real>): real
  {
    if s == [] then 0.0 else SumReal(s[..|s| - 1]) + s[|s| - 1]
  }

  lemma SumRealAppend(s: seq<real>, x: real)
    ensures SumReal(s + [x]) == SumReal(s) + x
  {
    assert (s + [x])[..|s|] == s;
  }

  /** A sum over a non-zero total splits into the shares of its parts. */
  lemma SplitFraction(a: real, b: real, total: real)
    requires total != 0.0
    ensures (a + b) / total == a / total + b / total
  {
  }

  /** Sum of a sequence of integers. */
  function SumInt(s: seq<int>): int
  {
    if s == [] then 0 else SumInt(s[..|s| - 1]) + s[|s| - 1]
  }

  /** ASCII lower-casing, as `tolower` in the C locale. */
  function Lower(c: char): (r: char)
    ensures 'A' <= c <= 'Z' ==> r as int == c as int + 32
    ensures !('A' <= c <= 'Z') ==> r == c
  {
    if 'A' <= c <= 'Z' then (c as int + 32) as char else c
  }

  /** Case-insensitive string equality (`strcasecmp(a, b) == 0`). */
  predicate EqualsIgnoreCase(a: string, b: string)
  {
    |a| == |b| && forall k :: 0 <= k < |a| ==> Lower(a[k]) == Lower(b[k])
  }

  // ---------------------------------------------------------------------
  // The exchange sort (`sort_pool_by_fitness` and the fragment sort of
  // `GAProtection.cpp`, the sorts of `Groups.cpp`)
  // ---------------------------------------------------------------------

  /** Every element from position `from` on has a key no smaller than position i's. */
  ghost predicate LeastFrom<T>(s: seq<T>, key: T -> real, i: int, from: int, to: int)
    requires 0 <= i < |s| && 0 <= from <= to <= |s|
  {
    forall k :: from <= k < to ==> key(s[i]) <= key(s[k])
  }

  /**
   * The inner loop for position i, from j on: whenever position i's key is
   * greater than position j's, the two elements change places.
   */
  function SortRow<T>(s: seq<T>, key: T -> real, i: int, j: int): (r: seq<T>)
    requires 0 <= i < |s| && i <= j <= |s|
    ensures |r| == |s| && r[..i] == s[..i]
    decreases |s| - j
  {
    if j == |s| then s
    else SortRow(if key(s[i]) > key(s[j]) then Swap(s, i, j) else s, key, i, j + 1)
  }

  /** The outer loop from position i on. */
  function ExchangeSort<T>(s: seq<T>, key: T -> real, i: nat): (r: seq<T>)
    requires i <= |s|
    ensures |r| == |s| && r[..i] == s[..i]
    decreases |s| - i
  {
    if i == |s| then s
    else
      var t := SortRow(s, key, i, i);
      assert t[..i] == s[..i];
      var r := ExchangeSort(t, key, i + 1);
      assert r[..i] == r[..i + 1][..i];
      r
  }

  /** The inner loop only exchanges elements. */
  lemma {:induction false} SortRowKeeps<T>(s: seq<T>, key: T -> real, i: int, j: int)
    requires 0 <= i < |s| && i <= j <= |s|
    ensures multiset(SortRow(s, key, i, j)) == multiset(s)
    decreases |s| - j
  {
    if j < |s| {
      var t := if key(s[i]) > key(s[j]) then Swap(s, i, j) else s;
      assert SortRow(s, key, i, j) == SortRow(t, key, i, j + 1);
      if key(s[i]) > key(s[j]) {
        SwapKeeps(s, i, j);
      }
      SortRowKeeps(t, key, i, j + 1);
    }
  }

  /** The exchange sort is a permutation. */
  lemma {:induction false} ExchangeSortKeeps<T>(s: seq<T>, key: T -> real, i: nat)
    requires i <= |s|
    ensures multiset(ExchangeSort(s, key, i)) == multiset(s)
    decreases |s| - i
  {
    if i < |s| {
      SortRowKeeps(s, key, i, i);
      ExchangeSortKeeps(SortRow(s, key, i, i), key, i + 1);
    }
  }

  /** One turn of the outer loop: the inner loop at i, then the outer loop from i + 1. */
  lemma ExchangeSortUnfold<T>(r: seq<T>, rank: T -> real, i: nat)
    requires i < |r|
    ensures ExchangeSort(r, rank, i) == ExchangeSort(SortRow(r, rank, i, i), rank, i + 1)
    ensures i + 1 == |r| ==> ExchangeSort(SortRow(r, rank, i, i), rank, i + 1) == SortRow(r, rank, i, i)
  {
  }

  /** A loop that has run the inner loop at i continues with the outer loop from i + 1. */
  lemma ExchangeSortTurn<T>(r: seq<T>, t: seq<T>, key: T -> real, i: nat, target: seq<T>)
    requires i < |r| && t == SortRow(r, key, i, i) && ExchangeSort(r, key, i) == target
    ensures ExchangeSort(t, key, i + 1) == target
  {
  }

  /** The outer loop at the end of the sequence leaves it alone. */
  lemma ExchangeSortDone<T>(r: seq<T>, key: T -> real, target: seq<T>)
    requires ExchangeSort(r, key, |r|) == target
    ensures r == target
  {
  }

  /** The inner loop at the end of the sequence leaves it alone. */
  lemma SortRowDone<T>(r: seq<T>, key: T -> real, i: int, target: seq<T>)
    requires 0 <= i < |r| && SortRow(r, key, i, |r|) == target
    ensures r == target
  {
  }

  predicate SortedBy<T>(s: seq<T>, key: T -> real)
  {
    forall a, b :: 0 <= a < b < |s| ==> key(s[a]) <= key(s[b])
  }

  /** After the inner loop, position i holds a least key of positions i.. . */
  lemma {:induction false} SortRowLeast<T>(s: seq<T>, key: T -> real, i: int, j: int)
    requires 0 <= i < |s| && i <= j <= |s| && LeastFrom(s, key, i, i, j)
    ensures var r := SortRow(s, key, i, j); LeastFrom(r, key, i, i, |s|)
    decreases |s| - j
  {
    if j < |s| {
      if key(s[i]) > key(s[j]) {
        var t := Swap(s, i, j);
        forall k | i <= k < j + 1
          ensures key(t[i]) <= key(t[k])
        {
          if k != i && k != j {
            assert t[k] == s[k];
          }
        }
        SortRowLeast(t, key, i, j + 1);
      } else {
        SortRowLeast(s, key, i, j + 1);
      }
    }
  }

  /** Exchanges among positions i.. keep a lower bound on their keys. */
  lemma {:induction false} SortRowBound<T>(s: seq<T>, key: T -> real, i: int, j: int, m: real)
    requires 0 <= i < |s| && i <= j <= |s|
    requires forall b :: i <= b < |s| ==> m <= key(s[b])
    ensures forall b :: i <= b < |s| ==> m <= key(SortRow(s, key, i, j)[b])
    decreases |s| - j
  {
    if j < |s| {
      if key(s[i]) > key(s[j]) {
        var t := Swap(s, i, j);
        forall b | i <= b < |t|
          ensures m <= key(t[b])
        {
          if b != i && b != j {
            assert t[b] == s[b];
          }
        }
        SortRowBound(t, key, i, j + 1, m);
      } else {
        SortRowBound(s, key, i, j + 1, m);
      }
    }
  }

  /** The outer loop puts a least remaining key at each position in turn. */
  lemma {:induction false} ExchangeSortStep<T>(s: seq<T>, key: T -> real, i: nat)
    requires i <= |s|
    requires SortedBy(s[..i], key)
    requires i > 0 ==> forall b :: i <= b < |s| ==> key(s[i - 1]) <= key(s[b])
    ensures SortedBy(ExchangeSort(s, key, i), key)
    decreases |s| - i
  {
    if i == |s| {
      assert s[..i] == s;
    } else {
      var t := SortRow(s, key, i, i);
      SortRowLeast(s, key, i, i);
      if i > 0 {
        SortRowBound(s, key, i, i, key(s[i - 1]));
      }
      SortedPrefixGrows(s, t, key, i);
      ExchangeSortStep(t, key, i + 1);
    }
  }

  lemma SortedPrefixGrows<T>(s: seq<T>, t: seq<T>, key: T -> real, i: nat)
    requires i < |s| == |t| && t[..i] == s[..i] && SortedBy(s[..i], key)
    requires i > 0 ==> key(s[i - 1]) <= key(t[i])
    ensures SortedBy(t[..i + 1], key)
  {
    var u := t[..i + 1];
    forall a, b | 0 <= a < b < i + 1
      ensures key(u[a]) <= key(u[b])
    {
      if b < i {
        assert u[a] == s[..i][a] && u[b] == s[..i][b];
      } else if a < i - 1 {
        assert u[a] == s[..i][a] && s[i - 1] == s[..i][i - 1];
      } else {
        assert u[a] == s[i - 1];
      }
    }
  }

  /** The exchange sort orders by key and keeps every element. */
  lemma ExchangeSortSorts<T>(s: seq<T>, key: T -> real)
    ensures var r := ExchangeSort(s, key, 0);
            SortedBy(r, key) && multiset(r) == multiset(s) && |r| == |s|
  {
    ExchangeSortStep(s, key, 0);
    ExchangeSortKeeps(s, key, 0);
  }
}
