/**
 * The field tokenizer shared by the tab-data reader (`TabularData::getTokens`)
 * and the CSV writer (`CSVWriter::getTokens`): a three-state machine that
 * cuts a line at a separator character, skips blanks before each token and,
 * in the tab-data reader only, never copies a '"'.
 *
 * The machine is proved against a reference description in terms of the
 * pieces of the line between separators: every piece but the last counts as a
 * token (possibly empty), the last counts only when it holds a character that
 * starts a token, and the text of a token is its piece without the leading
 * blanks (and without quotes when they are dropped).
 */
module Tokenizer {
  import opened Text

  /** The characters the machine skips before a token: space, tab and newline. */
  predicate Blank(x: char)
  {
    x == ' ' || x == '\t' || x == '\n'
  }

  /** A character that, met between tokens, starts one. */
  predicate Significant(x: char, sep: char, dropQuotes: bool)
  {
    x != sep && !Blank(x) && !(dropQuotes && x == '"')
  }

  /** Whether a piece holds a character that starts a token. */
  predicate Started(p: string, sep: char, dropQuotes: bool)
  {
    p != [] && (Started(p[..|p| - 1], sep, dropQuotes) || Significant(p[|p| - 1], sep, dropQuotes))
  }

  /** What a character inside a token contributes to it. */
  function Kept(x: char, dropQuotes: bool): (r: string)
    ensures dropQuotes ==> '"' !in r
    ensures !dropQuotes ==> r == [x]
  {
    if dropQuotes && x == '"' then [] else [x]
  }

  /** The text of the token a piece gives. */
  function Value(p: string, sep: char, dropQuotes: bool): (r: string)
    ensures dropQuotes ==> '"' !in r
    ensures |r| <= |p|
    ensures !Started(p, sep, dropQuotes) ==> r == []
  {
    if p == [] then []
    else
      var init := p[..|p| - 1];
      var v := Value(init, sep, dropQuotes);
      if Started(init, sep, dropQuotes) || Significant(p[|p| - 1], sep, dropQuotes) then v + Kept(p[|p| - 1], dropQuotes)
      else v
  }

  /** The number of tokens of a line: what `getTokens` returns. */
  function TokenCount(s: string, sep: char, dropQuotes: bool): (n: nat)
    ensures n <= |s|
  {
    var P := Pieces(s, sep);
    CountPieces(s, sep);
    |P| - 1 + (if Started(P[|P| - 1], sep, dropQuotes) then 1 else 0)
  }

  /** A line has one more piece than separators, and a started last piece is non-empty. */
  lemma {:induction false} CountPieces(s: string, sep: char)
    ensures |Pieces(s, sep)| - 1 <= |s|
    ensures |Pieces(s, sep)| - 1 + |Pieces(s, sep)[|Pieces(s, sep)| - 1]| <= |s|
  {
    if s != [] {
      CountPieces(s[..|s| - 1], sep);
      PiecesSnoc(s[..|s| - 1], s[|s| - 1], sep);
      assert s[..|s| - 1] + [s[|s| - 1]] == s;
    }
  }

  /** Once a piece has started, appending to it keeps it started. */
  lemma {:induction false} StartedExtends(p: string, q: string, sep: char, dropQuotes: bool)
    requires Started(p, sep, dropQuotes)
    ensures Started(p + q, sep, dropQuotes)
  {
    if q == [] {
      assert p + q == p;
    } else {
      StartedExtends(p, q[..|q| - 1], sep, dropQuotes);
      assert (p + q)[..|p + q| - 1] == p + q[..|q| - 1];
    }
  }

  /**
   * The pieces of a prefix of `s`: all but the last are pieces of `s`, and
   * the last is a prefix of the corresponding piece of `s`.
   */
  lemma {:induction false} PiecesOfPrefix(s: string, i: nat, sep: char)
    requires i <= |s|
    ensures var Q := Pieces(s[..i], sep); var P := Pieces(s, sep);
            |Q| <= |P| && Q[..|Q| - 1] == P[..|Q| - 1] &&
            StartsWith(P[|Q| - 1], Q[|Q| - 1])
    decreases |s| - i
  {
    var Q := Pieces(s[..i], sep);
    var P := Pieces(s, sep);
    if i == |s| {
      assert s[..i] == s;
    } else {
      PiecesOfPrefix(s, i + 1, sep);
      var R := Pieces(s[..i + 1], sep);
      assert s[..i + 1] == s[..i] + [s[i]];
      PiecesSnoc(s[..i], s[i], sep);
      if s[i] == sep {
        assert R == Q + [[]];
        assert R[..|R| - 1] == Q;
      } else {
        assert R == Q[..|Q| - 1] + [Q[|Q| - 1] + [s[i]]];
        assert R[..|R| - 1] == Q[..|Q| - 1];
        assert (Q[|Q| - 1] + [s[i]])[..|Q[|Q| - 1]|] == Q[|Q| - 1];
      }
    }
  }

  /**
   * A token starts in the piece being scanned only at an index below the
   * final count, so the buffer write of `getTokens` stays in bounds.
   */
  lemma StartedPrefixBelowCount(s: string, i: nat, sep: char, dropQuotes: bool)
    requires i <= |s|
    requires Started(Pieces(s[..i], sep)[|Pieces(s[..i], sep)| - 1], sep, dropQuotes)
    ensures |Pieces(s[..i], sep)| - 1 < TokenCount(s, sep, dropQuotes)
  {
    var Q := Pieces(s[..i], sep);
    var P := Pieces(s, sep);
    PiecesOfPrefix(s, i, sep);
    if |Q| == |P| {
      var p := P[|Q| - 1];
      var q := Q[|Q| - 1];
      assert p == q + p[|q|..];
      StartedExtends(q, p[|q|..], sep, dropQuotes);
    }
  }

  /**
   * What the machine knows after reading a text whose pieces are `Q`:
   * `collecting` says whether the current piece has started a token, `n` is
   * the index of the last token begun (-1 before any), every started piece
   * so far has its value in `t`, and every other entry still holds what `o`
   * held.
   */
  ghost predicate Scanned(Q: seq<string>, sep: char, dropQuotes: bool, t: seq<string>, o: seq<string>, n: int, collecting: bool)
    requires |Q| >= 1 && |t| == |o|
  {
    collecting == Started(Q[|Q| - 1], sep, dropQuotes) &&
    n == |Q| - 2 + (if collecting then 1 else 0) &&
    (forall j :: 0 <= j < |Q| && j < |t| && Started(Q[j], sep, dropQuotes) ==> t[j] == Value(Q[j], sep, dropQuotes)) &&
    (forall j :: 0 <= j < |t| && !(j < |Q| && Started(Q[j], sep, dropQuotes)) ==> t[j] == o[j])
  }

  /** A separator closes the current piece; it counts a token only if none was started. */
  lemma ScanSeparator(Q: seq<string>, sep: char, dropQuotes: bool, t: seq<string>, o: seq<string>, n: int, collecting: bool)
    requires |Q| >= 1 && |t| == |o|
    requires Scanned(Q, sep, dropQuotes, t, o, n, collecting)
    ensures Scanned(Q + [[]], sep, dropQuotes, t, o, if collecting then n else n + 1, false)
  {
    var R := Q + [[]];
    assert forall j :: 0 <= j < |Q| ==> R[j] == Q[j];
  }

  /** Appending `x` to the last piece. */
  function ExtendLast(Q: seq<string>, x: char): (R: seq<string>)
    requires |Q| >= 1
    ensures |R| == |Q| && R[|R| - 1] == Q[|Q| - 1] + [x]
    ensures forall j :: 0 <= j < |Q| - 1 ==> R[j] == Q[j]
  {
    Q[..|Q| - 1] + [Q[|Q| - 1] + [x]]
  }

  /** A character that the current state ignores changes nothing but the position. */
  lemma ScanSkip(Q: seq<string>, x: char, sep: char, dropQuotes: bool, t: seq<string>, o: seq<string>, n: int, collecting: bool)
    requires |Q| >= 1 && |t| == |o| && x != sep
    requires if collecting then dropQuotes && x == '"' else !Significant(x, sep, dropQuotes)
    requires Scanned(Q, sep, dropQuotes, t, o, n, collecting)
    ensures Scanned(ExtendLast(Q, x), sep, dropQuotes, t, o, n, collecting)
  {
    var last := Q[|Q| - 1];
    assert (last + [x])[..|last + [x]| - 1] == last;
    assert Value(last + [x], sep, dropQuotes) == Value(last, sep, dropQuotes);
  }

  /** A significant character between tokens starts the next one. */
  lemma ScanStart(Q: seq<string>, x: char, sep: char, dropQuotes: bool, t: seq<string>, o: seq<string>, n: int)
    requires |Q| >= 1 && |t| == |o| && Significant(x, sep, dropQuotes) && 0 <= n + 1 < |t|
    requires Scanned(Q, sep, dropQuotes, t, o, n, false)
    ensures Scanned(ExtendLast(Q, x), sep, dropQuotes, t[n + 1 := [x]], o, n + 1, true)
  {
    var last := Q[|Q| - 1];
    assert (last + [x])[..|last + [x]| - 1] == last;
    assert Started(last + [x], sep, dropQuotes);
    assert Value(last + [x], sep, dropQuotes) == [x];
  }

  /** Inside a token every character but the separator (and a dropped quote) is appended. */
  lemma ScanAppend(Q: seq<string>, x: char, sep: char, dropQuotes: bool, t: seq<string>, o: seq<string>, n: int)
    requires |Q| >= 1 && |t| == |o| && x != sep && !(dropQuotes && x == '"') && 0 <= n < |t|
    requires Scanned(Q, sep, dropQuotes, t, o, n, true)
    ensures Scanned(ExtendLast(Q, x), sep, dropQuotes, t[n := t[n] + [x]], o, n, true)
  {
    var last := Q[|Q| - 1];
    assert (last + [x])[..|last + [x]| - 1] == last;
    assert Value(last + [x], sep, dropQuotes) == Value(last, sep, dropQuotes) + [x];
  }

  /** Once the whole line is read, the machine's state is the reference result. */
  lemma ScannedLine(s: string, sep: char, dropQuotes: bool, t: seq<string>, o: seq<string>, n: int, collecting: bool)
    requires |t| == |o| && TokenCount(s, sep, dropQuotes) <= |t|
    requires Scanned(Pieces(s, sep), sep, dropQuotes, t, o, n, collecting)
    ensures n + 1 == TokenCount(s, sep, dropQuotes)
    ensures forall j :: 0 <= j < |Pieces(s, sep)| && Started(Pieces(s, sep)[j], sep, dropQuotes) ==>
              j < |t| && t[j] == Value(Pieces(s, sep)[j], sep, dropQuotes)
  {
  }

  /** The pieces after one more character: a separator opens a new piece, anything else extends the last one. */
  lemma PiecesOfNext(s: string, i: nat, sep: char)
    requires i < |s|
    ensures s[i] == sep ==> Pieces(s[..i + 1], sep) == Pieces(s[..i], sep) + [[]]
    ensures s[i] != sep ==> Pieces(s[..i + 1], sep) == ExtendLast(Pieces(s[..i], sep), s[i])
  {
    assert s[..i + 1] == s[..i] + [s[i]];
    PiecesSnoc(s[..i], s[i], sep);
  }

  /** A significant character between tokens: it is stored as the next token. */
  method StartToken(s: string, i: nat, sep: char, dropQuotes: bool, tokens: array<string>, ghost o: seq<string>, n: int)
    returns (n': int)
    requires i < |s| && tokens.Length == |o| && TokenCount(s, sep, dropQuotes) <= tokens.Length
    requires Significant(s[i], sep, dropQuotes)
    requires Scanned(Pieces(s[..i], sep), sep, dropQuotes, tokens[..], o, n, false)
    modifies tokens
    ensures Scanned(Pieces(s[..i + 1], sep), sep, dropQuotes, tokens[..], o, n', true)
  {
    ghost var Q := Pieces(s[..i], sep);
    ghost var t0 := tokens[..];
    PiecesOfNext(s, i, sep);
    assert Started(Q[|Q| - 1] + [s[i]], sep, dropQuotes);
    StartedPrefixBelowCount(s, i + 1, sep, dropQuotes);
    ScanStart(Q, s[i], sep, dropQuotes, t0, o, n);
    n' := n + 1;
    tokens[n'] := [s[i]];
    assert tokens[..] == t0[n' := [s[i]]];
  }

  /** A character inside a token (not the separator, not a dropped quote): it is appended. */
  method AppendToken(s: string, i: nat, sep: char, dropQuotes: bool, tokens: array<string>, ghost o: seq<string>, n: int)
    requires i < |s| && tokens.Length == |o| && TokenCount(s, sep, dropQuotes) <= tokens.Length
    requires s[i] != sep && !(dropQuotes && s[i] == '"')
    requires Scanned(Pieces(s[..i], sep), sep, dropQuotes, tokens[..], o, n, true)
    modifies tokens
    ensures Scanned(Pieces(s[..i + 1], sep), sep, dropQuotes, tokens[..], o, n, true)
  {
    ghost var Q := Pieces(s[..i], sep);
    ghost var t0 := tokens[..];
    PiecesOfNext(s, i, sep);
    StartedPrefixBelowCount(s, i, sep, dropQuotes);
    ScanAppend(Q, s[i], sep, dropQuotes, t0, o, n);
    tokens[n] := tokens[n] + [s[i]];
    assert tokens[..] == t0[n := t0[n] + [s[i]]];
  }

  /**
   * One turn of the machine's loop: reads `s[i]` in the state the first `i`
   * characters left and updates the buffer, the token index and the state.
   */
  method ScanChar(s: string, i: nat, sep: char, dropQuotes: bool, tokens: array<string>, ghost o: seq<string>,
                  n: int, collecting: bool) returns (n': int, collecting': bool)
    requires i < |s| && tokens.Length == |o| && TokenCount(s, sep, dropQuotes) <= tokens.Length
    requires Scanned(Pieces(s[..i], sep), sep, dropQuotes, tokens[..], o, n, collecting)
    modifies tokens
    ensures Scanned(Pieces(s[..i + 1], sep), sep, dropQuotes, tokens[..], o, n', collecting')
  {
    var chr := s[i];
    n', collecting' := n, collecting;
    if chr == sep {
      PiecesOfNext(s, i, sep);
      ScanSeparator(Pieces(s[..i], sep), sep, dropQuotes, tokens[..], o, n, collecting);
      if !collecting {
        n' := n + 1;
      }
      collecting' := false;
    } else if !collecting && (Blank(chr) || (dropQuotes && chr == '"')) {
      PiecesOfNext(s, i, sep);
      ScanSkip(Pieces(s[..i], sep), chr, sep, dropQuotes, tokens[..], o, n, collecting);
    } else if collecting && dropQuotes && chr == '"' {
      PiecesOfNext(s, i, sep);
      ScanSkip(Pieces(s[..i], sep), chr, sep, dropQuotes, tokens[..], o, n, collecting);
    } else if !collecting {
      n' := StartToken(s, i, sep, dropQuotes, tokens, o, n);
      collecting' := true;
    } else {
      AppendToken(s, i, sep, dropQuotes, tokens, o, n);
    }
  }

  /**
   * `getTokens`: writes token `j` of `s` into `tokens[j]` for every piece `j`
   * that starts a token, leaves every other entry alone, and returns the
   * number of tokens. The buffer must be large enough for them.
   */
  method GetTokens(s: string, sep: char, dropQuotes: bool, tokens: array<string>) returns (n: int)
    requires TokenCount(s, sep, dropQuotes) <= tokens.Length
    modifies tokens
    ensures n == TokenCount(s, sep, dropQuotes)
    ensures forall j :: 0 <= j < |Pieces(s, sep)| && Started(Pieces(s, sep)[j], sep, dropQuotes) ==>
              tokens[j] == Value(Pieces(s, sep)[j], sep, dropQuotes)
    ensures forall j :: 0 <= j < tokens.Length && !(j < |Pieces(s, sep)| && Started(Pieces(s, sep)[j], sep, dropQuotes)) ==>
              tokens[j] == old(tokens[j])
  {
    var numberOfTokens := -1;
    var collecting := false;
    var i := 0;
    assert s[..0] == [];
    while i < |s|
      invariant 0 <= i <= |s|
      invariant Scanned(Pieces(s[..i], sep), sep, dropQuotes, tokens[..], old(tokens[..]), numberOfTokens, collecting)
    {
      numberOfTokens, collecting := ScanChar(s, i, sep, dropQuotes, tokens, old(tokens[..]), numberOfTokens, collecting);
      i := i + 1;
    }
    assert s[..i] == s;
    ScannedLine(s, sep, dropQuotes, tokens[..], old(tokens[..]), numberOfTokens, collecting);
    n := numberOfTokens + 1;
  }

  /** An empty line has no tokens. */
  lemma EmptyLineHasNoTokens(sep: char, dropQuotes: bool)
    ensures TokenCount([], sep, dropQuotes) == 0
  {
  }

  /** Two separators in a row enclose an empty token. */
  lemma ConsecutiveSeparatorsCount(s: string, sep: char, dropQuotes: bool)
    ensures TokenCount(s + [sep, sep], sep, dropQuotes) == TokenCount(s + [sep], sep, dropQuotes) + 1
  {
    assert s + [sep, sep] == (s + [sep]) + [sep];
    PiecesSnoc(s + [sep], sep, sep);
    PiecesSnoc(s, sep, sep);
  }

  /** A separator after a token ends it without counting another. */
  lemma TrailingSeparatorAddsNone(s: string, x: char, sep: char, dropQuotes: bool)
    requires Significant(x, sep, dropQuotes)
    ensures TokenCount(s + [x, sep], sep, dropQuotes) == TokenCount(s + [x], sep, dropQuotes)
  {
    assert s + [x, sep] == (s + [x]) + [sep];
    PiecesSnoc(s + [x], sep, sep);
    PiecesSnoc(s, x, sep);
    var P := Pieces(s, sep);
    assert (P[|P| - 1] + [x])[..|P[|P| - 1] + [x]| - 1] == P[|P| - 1];
  }

  /** Characters that are skipped before a token. */
  predicate AllSkipped(b: string, sep: char, dropQuotes: bool)
  {
    forall k :: 0 <= k < |b| ==> b[k] != sep && !Significant(b[k], sep, dropQuotes)
  }

  /** A piece made only of skipped characters starts no token. */
  lemma {:induction false} SkippedNotStarted(b: string, sep: char, dropQuotes: bool)
    requires AllSkipped(b, sep, dropQuotes)
    ensures !Started(b, sep, dropQuotes)
  {
    if b != [] {
      SkippedNotStarted(b[..|b| - 1], sep, dropQuotes);
    }
  }

  /** The characters of `p` that a token keeps: all of them, or all but the quotes. */
  function KeptText(p: string, dropQuotes: bool): (r: string)
    ensures !dropQuotes ==> r == p
    ensures dropQuotes ==> r == Without(p, '"')
  {
    if p == [] then [] else KeptText(p[..|p| - 1], dropQuotes) + Kept(p[|p| - 1], dropQuotes)
  }

  /**
   * The token of a piece is the piece from its first significant character
   * on: the blanks (and quotes) before it are skipped, and everything after
   * it is kept, blanks included, except the quotes the tab-data reader drops.
   */
  lemma {:induction false} ValueOfPiece(b: string, p: string, sep: char, dropQuotes: bool)
    requires AllSkipped(b, sep, dropQuotes)
    requires p != [] && Significant(p[0], sep, dropQuotes)
    ensures Value(b + p, sep, dropQuotes) == KeptText(p, dropQuotes)
  {
    var q := b + p;
    var x := p[|p| - 1];
    assert q[..|q| - 1] == b + p[..|p| - 1];
    assert q[|q| - 1] == x;
    if |p| == 1 {
      SkippedNotStarted(b, sep, dropQuotes);
      assert p[..|p| - 1] == [];
      assert b + [] == b;
      assert Value(q, sep, dropQuotes) == Value(b, sep, dropQuotes) + Kept(x, dropQuotes);
    } else {
      var p' := p[..|p| - 1];
      ValueOfPiece(b, p', sep, dropQuotes);
      assert Started(b + [p[0]], sep, dropQuotes) by {
        assert (b + [p[0]])[..|b|] == b;
      }
      assert b + p' == (b + [p[0]]) + p'[1..];
      StartedExtends(b + [p[0]], p'[1..], sep, dropQuotes);
      assert Value(q, sep, dropQuotes) == Value(b + p', sep, dropQuotes) + Kept(x, dropQuotes);
    }
  }
}
