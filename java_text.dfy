/**
 * `java.lang.String.split` around a one-character literal pattern, as the
 * session server uses it.
 */
module JavaText {
  import opened Text

  /** Drops the empty strings at the end of `r`, as `String.split` does. */
  function DropTrailingEmpty(r: seq<string>): (t: seq<string>)
    ensures |t| <= |r| && t == r[..|t|]
    ensures t == [] || t[|t| - 1] != []
    ensures forall k :: |t| <= k < |r| ==> r[k] == []
  {
    if r == [] then []
    else if r[|r| - 1] == [] then DropTrailingEmpty(r[..|r| - 1])
    else r
  }

  /**
   * `s.split(c)`: when `c` does not occur the result is `[s]` (so `"".split(c)`
   * has one element); otherwise the pieces with trailing empty strings removed.
   */
  function Split(s: string, c: char): (r: seq<string>)
    ensures c !in s ==> r == [s]
    ensures forall k :: 0 <= k < |r| ==> c !in r[k]
    ensures c in s ==> r == [] || r[|r| - 1] != []
  {
    if c !in s then [s] else DropTrailingEmpty(Pieces(s, c))
  }

  /** Splitting `a` followed by `c` and then `b` (neither containing `c`) gives the two pieces. */
  lemma PiecesAround(a: string, b: string, c: char)
    requires c !in a && c !in b
    ensures Pieces(a + [c] + b, c) == [a, b]
  {
    PiecesCons(a, b, c);
  }

  /**
   * Exactly two pieces: a string of the form `a + [c] + b` with `b` non-empty
   * and no other `c` splits into `[a, b]`.
   */
  lemma SplitTwo(a: string, b: string, c: char)
    requires c !in a && c !in b && b != []
    ensures Split(a + [c] + b, c) == [a, b]
  {
    assert (a + [c] + b)[|a|] == c;
    PiecesAround(a, b, c);
  }

  /** A trailing separator is ignored: `a + [c]` splits into `[a]` when `a` is non-empty. */
  lemma SplitTrailing(a: string, c: char)
    requires c !in a && a != []
    ensures Split(a + [c], c) == [a]
  {
    assert (a + [c])[|a|] == c;
    PiecesAround(a, [], c);
    assert a + [c] + [] == a + [c];
    assert [a, []][..1] == [a];
    assert DropTrailingEmpty([a, []]) == DropTrailingEmpty([a]) == [a];
  }
}
