/**
 * Character-string vocabulary shared by the C and Java parts of the model.
 * A C string is modelled by the characters before its terminating NUL.
 */
module Text {

  /**
   * The pieces of `s` between occurrences of `c`, keeping every empty piece:
   * `k` occurrences of `c` give `k + 1` pieces.
   */
  function Pieces(s: string, c: char): (r: seq<string>)
    ensures |r| >= 1
    ensures forall k :: 0 <= k < |r| ==> c !in r[k]
    ensures c !in s ==> r == [s]
  {
    if s == [] then [[]]
    else
      var p := Pieces(s[..|s| - 1], c);
      assert s == s[..|s| - 1] + [s[|s| - 1]];
      if s[|s| - 1] == c then p + [[]]
      else p[..|p| - 1] + [p[|p| - 1] + [s[|s| - 1]]]
  }

  /** Appending one character either opens a new piece or extends the last one. */
  lemma {:induction false} PiecesSnoc(s: string, x: char, c: char)
    ensures Pieces(s + [x], c) ==
            (if x == c then Pieces(s, c) + [[]]
             else Pieces(s, c)[..|Pieces(s, c)| - 1] + [Pieces(s, c)[|Pieces(s, c)| - 1] + [x]])
  {
    assert (s + [x])[..|s + [x]| - 1] == s;
  }

  /** The piece before the first `c` is split off on its own, whatever follows. */
  lemma {:induction false} PiecesCons(a: string, b: string, c: char)
    requires c !in a
    ensures Pieces(a + [c] + b, c) == [a] + Pieces(b, c)
  {
    PiecesAppend(a, b, c);
  }

  /** A separator closes the last piece of `a`: the pieces of `b` follow those of `a`. */
  lemma {:induction false} PiecesAppend(a: string, b: string, c: char)
    ensures Pieces(a + [c] + b, c) == Pieces(a, c) + Pieces(b, c)
  {
    if b == [] {
      assert a + [c] + b == a + [c];
      PiecesSnoc(a, c, c);
    } else {
      var b' := b[..|b| - 1];
      var x := b[|b| - 1];
      assert a + [c] + b == (a + [c] + b') + [x];
      assert b == b' + [x];
      PiecesAppend(a, b', c);
      if x == c {
        PiecesAppendSep(a, b', c);
      } else {
        PiecesAppendChar(a, b', x, c);
      }
    }
  }

  lemma {:induction false} PiecesAppendSep(a: string, b': string, c: char)
    requires Pieces(a + [c] + b', c) == Pieces(a, c) + Pieces(b', c)
    ensures Pieces((a + [c] + b') + [c], c) == Pieces(a, c) + Pieces(b' + [c], c)
  {
    PiecesSnoc(a + [c] + b', c, c);
    PiecesSnoc(b', c, c);
  }

  lemma {:induction false} PiecesAppendChar(a: string, b': string, x: char, c: char)
    requires x != c
    requires Pieces(a + [c] + b', c) == Pieces(a, c) + Pieces(b', c)
    ensures Pieces((a + [c] + b') + [x], c) == Pieces(a, c) + Pieces(b' + [x], c)
  {
    PiecesSnoc(a + [c] + b', x, c);
    PiecesSnoc(b', x, c);
    ExtendLastOfConcat(Pieces(a, c), Pieces(b', c), x);
  }

  /** Extending the last string of `p + q` extends the last string of `q`. */
  lemma {:induction false} ExtendLastOfConcat(p: seq<string>, q: seq<string>, x: char)
    requires q != []
    ensures (p + q)[..|p + q| - 1] + [(p + q)[|p + q| - 1] + [x]] == p + (q[..|q| - 1] + [q[|q| - 1] + [x]])
  {
    assert (p + q)[..|p + q| - 1] == p + q[..|q| - 1];
  }

  /** `s` starts with `p` (Java's `startsWith`, C's prefix comparison). */
  predicate StartsWith<T(==)>(s: seq<T>, p: seq<T>)
  {
    |p| <= |s| && s[..|p|] == p
  }

  /** The last position of `c` in `s`, or -1. */
  function LastIndex(s: string, c: char): (r: int)
    ensures -1 <= r < |s|
    ensures r >= 0 ==> s[r] == c && forall k :: r < k < |s| ==> s[k] != c
    ensures r < 0 ==> c !in s
  {
    if s == [] then -1
    else if s[|s| - 1] == c then |s| - 1
    else LastIndex(s[..|s| - 1], c)
  }

  /** `s` with every occurrence of `c` removed. */
  function Without(s: string, c: char): (r: string)
    ensures c !in r && |r| <= |s|
  {
    if s == [] then [] else Without(s[..|s| - 1], c) + (if s[|s| - 1] == c then [] else [s[|s| - 1]])
  }
}
