/**
 * The row format of the CSV writer (`CSVWriter::write_csv_file`) used with
 * legacy tabular partitioning: each line of the mapping file names a cell
 * number followed by its key values, and becomes one CSV row with the cell's
 * nominal value and status appended. The line itself is cut by the shared
 * tokenizer with ',' as separator and quotes kept.
 */
module CsvWriter {
  import opened Common
  import opened Text
  import opened Tokenizer

  /** Each string followed by a comma, all concatenated. */
  function CommaTerminated(ts: seq<string>): (r: string)
    ensures |r| >= |ts|
  {
    if ts == [] then [] else ts[0] + [','] + CommaTerminated(ts[1..])
  }

  /**
   * The row printed for one mapping line: `keys` are tokens 1..n-1 of the
   * line, `cellNumber` is token 0 read as an integer (None when it is not
   * one), and `nominal` is the cell's nominal value as "%lf" prints it. A line
   * with fewer than two tokens, or whose first token is not a number, prints
   * nothing.
   */
  function CsvRow(tokens: seq<string>, cellNumber: Option<int>, nominal: string, status: char): (r: Option<string>)
    ensures r.Some? <==> |tokens| > 1 && cellNumber.Some?
    ensures r.Some? ==> StartsWith(r.value, CommaTerminated(tokens[1..]))
    ensures r.Some? ==> |r.value| >= 3 && r.value[|r.value| - 3..] == [',', status, '\n']
  {
    if |tokens| > 1 && cellNumber.Some? then
      var row := CommaTerminated(tokens[1..]) + nominal + [','] + [status] + ['\n'];
      assert row[..|CommaTerminated(tokens[1..])|] == CommaTerminated(tokens[1..]);
      Some(row)
    else None
  }

  /** Cutting comma-terminated fields at commas gives the fields back, followed by the pieces of the rest. */
  lemma {:induction false} PiecesOfCommaTerminated(ts: seq<string>, rest: string)
    requires forall k :: 0 <= k < |ts| ==> ',' !in ts[k]
    ensures Pieces(CommaTerminated(ts) + rest, ',') == ts + Pieces(rest, ',')
  {
    if ts == [] {
      assert CommaTerminated(ts) + rest == rest;
    } else {
      var t := ts[0];
      var ts' := ts[1..];
      var tail := CommaTerminated(ts') + rest;
      PiecesOfCommaTerminated(ts', rest);
      CommaTerminatedCons(ts, rest);
      PiecesCons(t, tail, ',');
      ConsConcat(t, ts', Pieces(rest, ','));
      assert ts == [t] + ts';
    }
  }

  lemma CommaTerminatedCons(ts: seq<string>, rest: string)
    requires ts != []
    ensures CommaTerminated(ts) + rest == ts[0] + [','] + (CommaTerminated(ts[1..]) + rest)
  {
  }

  lemma ConsConcat(t: string, ts: seq<string>, r: seq<string>)
    ensures [t] + (ts + r) == ([t] + ts) + r
  {
  }

  /**
   * A row reads back as CSV: when no key value and not the printed nominal
   * value holds a comma, the row's comma-separated pieces are exactly the key
   * values, the nominal value, and the status with the line end.
   */
  lemma CsvRowPieces(tokens: seq<string>, cellNumber: int, nominal: string, status: char)
    requires |tokens| > 1 && status != ',' && ',' !in nominal
    requires forall k :: 1 <= k < |tokens| ==> ',' !in tokens[k]
    ensures Pieces(CsvRow(tokens, Some(cellNumber), nominal, status).value, ',') == tokens[1..] + [nominal, [status, '\n']]
  {
    var keys := tokens[1..];
    var tail := nominal + [','] + [status, '\n'];
    assert CsvRow(tokens, Some(cellNumber), nominal, status).value == CommaTerminated(keys) + tail;
    PiecesOfCommaTerminated(keys, tail);
    PiecesCons(nominal, [status, '\n'], ',');
    assert Pieces([status, '\n'], ',') == [[status, '\n']];
  }

  /**
   * `getTokens` of the CSV writer keeps quotes: the token of a piece is the
   * piece from its first character that is not a blank, quotes and inner
   * blanks included.
   */
  lemma CsvTokenKeepsQuotes(b: string, p: string)
    requires forall k :: 0 <= k < |b| ==> Blank(b[k])
    requires p != [] && !Blank(p[0]) && p[0] != ','
    ensures Value(b + p, ',', false) == p
  {
    ValueOfPiece(b, p, ',', false);
  }

  /**
   * A token left empty by two consecutive commas is not written: its buffer
   * entry keeps whatever an earlier line put there, and that is what the row
   * prints for it.
   */
  lemma EmptyKeyNotWritten(a: string, c: string)
    ensures var P := Pieces(a + [',', ','] + c, ',');
            |Pieces(a, ',')| < |P| && P[|Pieces(a, ',')|] == [] && !Started(P[|Pieces(a, ',')|], ',', false)
  {
    assert a + [',', ','] + c == a + [','] + ([','] + c);
    PiecesAppend(a, [','] + c, ',');
    assert [','] + c == [] + [','] + c;
    PiecesCons([], c, ',');
  }
}
