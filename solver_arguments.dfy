/**
 * The command line of the remote solver (`cell_suppression_solver/UWESolver.cpp`):
 * one argument of the form `key=value&key=value&...`, walked character by
 * character into a key buffer and a value buffer, each completed pair being
 * applied to the solver's settings by `setKeyValue`.
 *
 * Every `logger->error` call ends the process; here it is an `Err` with the
 * error code, and nothing after it has any effect.
 */
module SolverArguments {
  import opened Common

  /** MAX_FILENAME_SIZE is PATH_MAX on Linux. */
  const MaxFilenameSize: nat := 4096
  /** MAX_ARG_LENGTH: room for the basic arguments plus four file names. */
  const MaxArgLength: nat := 1024 + MaxFilenameSize * 4

  /** The solver's global settings. */
  datatype Settings = Settings(inFile: string, outFile: string, permFile: string, costFile: string,
                               protection: int, model: int, maxCost: real)

  /** The settings before any argument: no file names, individual protection, the full model, no cost limit. */
  const Defaults: Settings := Settings("", "", "", "", IndividualProtection, FullModel, 0.0)

  /** Settings every value of which `setKeyValue` could have produced. */
  predicate Consistent(s: Settings)
  {
    |s.inFile| < MaxFilenameSize && |s.outFile| < MaxFilenameSize &&
    |s.permFile| < MaxFilenameSize && |s.costFile| < MaxFilenameSize &&
    (s.protection == IndividualProtection || s.protection == GroupProtection) &&
    (s.model == FullModel || s.model == YPlusModel || s.model == YMinusModel)
  }

  /**
   * A file-name value: one that does not fit in MAX_FILENAME_SIZE is error
   * `tooLong`; an empty one is error `missing`.
   */
  function FileName(value: string, missing: int, tooLong: int): (r: Result<string>)
    ensures r.Ok? <==> 0 < |value| < MaxFilenameSize
    ensures r.Ok? ==> r.value == value
    ensures r.Err? ==> r.code == if |value| < MaxFilenameSize then missing else tooLong
  {
    if |value| < MaxFilenameSize then
      if value == "" then Err(missing) else Ok(value)
    else Err(tooLong)
  }

  /** The keys `setKeyValue` knows. */
  predicate KnownKey(key: string)
  {
    EqualsIgnoreCase(key, "session") || EqualsIgnoreCase(key, "infile") || EqualsIgnoreCase(key, "outfile") ||
    EqualsIgnoreCase(key, "permfile") || EqualsIgnoreCase(key, "costfile") ||
    EqualsIgnoreCase(key, "protection") || EqualsIgnoreCase(key, "model") || EqualsIgnoreCase(key, "maxcost")
  }

  /**
   * `setKeyValue`: keys and the protection and model names are compared
   * ignoring case; "session" is ignored; `maxcost` must read as a number
   * (`parseReal` stands for `sscanf("%lf")`). An error, once made, stays.
   */
  function SetKeyValue(s: Result<Settings>, key: string, value: string, parseReal: string -> Option<real>)
      : (r: Result<Settings>)
    ensures s.Err? ==> r == s
    ensures s.Ok? && Consistent(s.value) && r.Ok? ==> Consistent(r.value)
    ensures s.Ok? ==> (r.Err? && r.code == 109 <==> !KnownKey(key))
    ensures s.Ok? && EqualsIgnoreCase(key, "session") ==> r == s
    ensures s.Ok? && EqualsIgnoreCase(key, "protection") ==>
              (r.Ok? <==> EqualsIgnoreCase(value, "individual") || EqualsIgnoreCase(value, "group")) &&
              (r.Err? ==> r.code == 105)
    ensures s.Ok? && EqualsIgnoreCase(key, "model") ==>
              (r.Ok? <==> EqualsIgnoreCase(value, "full") || EqualsIgnoreCase(value, "yplus") ||
                          EqualsIgnoreCase(value, "yminus")) &&
              (r.Err? ==> r.code == 106)
    ensures s.Ok? && EqualsIgnoreCase(key, "maxcost") ==> (r.Err? <==> parseReal(value).None?) && (r.Err? ==> r.code == 119)
  {
    KeysDistinct(key);
    if s.Err? then s
    else
      var c := s.value;
      if EqualsIgnoreCase(key, "session") then s
      else if EqualsIgnoreCase(key, "infile") then
        (match FileName(value, 101, 102) case Ok(f) => Ok(c.(inFile := f)) case Err(e) => Err(e))
      else if EqualsIgnoreCase(key, "outfile") then
        (match FileName(value, 103, 104) case Ok(f) => Ok(c.(outFile := f)) case Err(e) => Err(e))
      else if EqualsIgnoreCase(key, "permfile") then
        (match FileName(value, 117, 118) case Ok(f) => Ok(c.(permFile := f)) case Err(e) => Err(e))
      else if EqualsIgnoreCase(key, "costfile") then
        (match FileName(value, 115, 116) case Ok(f) => Ok(c.(costFile := f)) case Err(e) => Err(e))
      else if EqualsIgnoreCase(key, "protection") then
        if EqualsIgnoreCase(value, "individual") then Ok(c.(protection := IndividualProtection))
        else if EqualsIgnoreCase(value, "group") then Ok(c.(protection := GroupProtection))
        else Err(105)
      else if EqualsIgnoreCase(key, "model") then
        if EqualsIgnoreCase(value, "full") then Ok(c.(model := FullModel))
        else if EqualsIgnoreCase(value, "yplus") then Ok(c.(model := YPlusModel))
        else if EqualsIgnoreCase(value, "yminus") then Ok(c.(model := YMinusModel))
        else Err(106)
      else if EqualsIgnoreCase(key, "maxcost") then
        match parseReal(value) case Some(x) => Ok(c.(maxCost := x)) case None => Err(119)
      else Err(109)
  }

  /** No key matches two of the names of the same length. */
  lemma KeysDistinct(key: string)
    ensures EqualsIgnoreCase(key, "session") ==> !EqualsIgnoreCase(key, "outfile") && !EqualsIgnoreCase(key, "maxcost")
    ensures EqualsIgnoreCase(key, "outfile") ==> !EqualsIgnoreCase(key, "maxcost")
    ensures EqualsIgnoreCase(key, "permfile") ==> !EqualsIgnoreCase(key, "costfile")
  {
    if |key| > 0 {
      assert Lower(key[0]) == Lower("session"[0]) ==> Lower(key[0]) == 's';
    }
  }

  lemma EqualsIgnoreCaseTransitive(a: string, b: string, c: string)
    requires EqualsIgnoreCase(a, b)
    ensures EqualsIgnoreCase(b, c) <==> EqualsIgnoreCase(a, c)
  {
  }

  /** Keys that differ only in case have the same effect. */
  lemma SetKeyValueIgnoresCase(s: Result<Settings>, key1: string, key2: string, value: string,
                               parseReal: string -> Option<real>)
    requires EqualsIgnoreCase(key1, key2)
    ensures SetKeyValue(s, key1, value, parseReal) == SetKeyValue(s, key2, value, parseReal)
  {
    EqualsIgnoreCaseTransitive(key1, key2, "session");
    EqualsIgnoreCaseTransitive(key1, key2, "infile");
    EqualsIgnoreCaseTransitive(key1, key2, "outfile");
    EqualsIgnoreCaseTransitive(key1, key2, "permfile");
    EqualsIgnoreCaseTransitive(key1, key2, "costfile");
    EqualsIgnoreCaseTransitive(key1, key2, "protection");
    EqualsIgnoreCaseTransitive(key1, key2, "model");
    EqualsIgnoreCaseTransitive(key1, key2, "maxcost");
  }

  // ---------------------------------------------------------------------------
  // The character walk
  // ---------------------------------------------------------------------------

  /** The C string a buffer holds: its characters up to the first NUL. */
  function CString(buf: seq<char>): (r: string)
    ensures |r| <= |buf| && r == buf[..|r|] && '\0' !in r
    ensures |r| < |buf| ==> buf[|r|] == '\0'
  {
    if buf == [] || buf[0] == '\0' then [] else [buf[0]] + CString(buf[1..])
  }

  /** A string followed by a NUL reads back as that string, whatever comes after. */
  lemma {:induction false} CStringOf(w: string, rest: seq<char>)
    requires '\0' !in w
    ensures CString(w + ['\0'] + rest) == w
  {
    if w != [] {
      assert (w + ['\0'] + rest)[1..] == w[1..] + ['\0'] + rest;
      CStringOf(w[1..], rest);
    }
  }

  /**
   * The walk's state: the two buffers, the positions `k` and `v` the next
   * key and value characters go to, whether a value is being read (`state`
   * 1), and the settings so far.
   */
  datatype Scanner = Scanner(key: seq<char>, value: seq<char>, k: nat, v: nat, inValue: bool,
                             settings: Result<Settings>)

  /** `*p = c` on a buffer (a write past its end cannot happen; see `ParseArguments`). */
  function Put(buf: seq<char>, p: nat, c: char): (r: seq<char>)
    ensures |r| == |buf|
  {
    if p < |buf| then buf[p := c] else buf
  }

  /**
   * One character of the argument: '=' ends the key and starts the value;
   * '&' ends the value, applies the pair and starts a key; any other
   * character is appended to the key or to the value.
   */
  function ScanChar(sc: Scanner, c: char, parseReal: string -> Option<real>): (r: Scanner)
    ensures |r.key| == |sc.key| && |r.value| == |sc.value|
    ensures c == '&' ==> (!r.inValue && r.v == 0 && r.k == sc.k &&
              r.settings == SetKeyValue(sc.settings, CString(sc.key), CString(Put(sc.value, sc.v, '\0')), parseReal))
    ensures c == '=' ==> r.inValue && r.k == 0 && r.settings == sc.settings
    ensures c != '&' ==> r.settings == sc.settings
  {
    if c == '=' then
      sc.(key := Put(sc.key, sc.k, '\0'), k := 0, inValue := true)
    else if c == '&' then
      var value := Put(sc.value, sc.v, '\0');
      sc.(value := value, v := 0, inValue := false,
          settings := SetKeyValue(sc.settings, CString(sc.key), CString(value), parseReal))
    else if sc.inValue then
      sc.(value := Put(sc.value, sc.v, c), v := sc.v + 1)
    else
      sc.(key := Put(sc.key, sc.k, c), k := sc.k + 1)
  }

  /** The walk over a whole string. */
  function Scan(sc: Scanner, s: string, parseReal: string -> Option<real>): (r: Scanner)
    ensures |r.key| == |sc.key| && |r.value| == |sc.value|
  {
    if s == [] then sc else ScanChar(Scan(sc, s[..|s| - 1], parseReal), s[|s| - 1], parseReal)
  }

  /** After the walk: a pair still being read (state 1) is applied; a key with no '=' is dropped. */
  function Finish(sc: Scanner, parseReal: string -> Option<real>): (r: Result<Settings>)
    ensures !sc.inValue ==> r == sc.settings
  {
    if sc.inValue then SetKeyValue(sc.settings, CString(sc.key), CString(Put(sc.value, sc.v, '\0')), parseReal)
    else sc.settings
  }

  /** What the command line `arg` leaves, starting from buffers holding `key0` and `value0`. */
  function Parsed(arg: string, key0: seq<char>, value0: seq<char>, parseReal: string -> Option<real>)
      : Result<Settings>
  {
    if |arg| >= MaxArgLength then Err(113)
    else Finish(Scan(Scanner(key0, value0, 0, 0, false, Ok(Defaults)), arg, parseReal), parseReal)
  }

  /**
   * The parse loop of `main`: a command line too long for the buffers is
   * error 113; otherwise the walk, stopping at the first error. The buffers
   * are the caller's, with whatever they held before.
   */
  method ParseArguments(arg: string, key: array<char>, value: array<char>, parseReal: string -> Option<real>)
      returns (r: Result<Settings>)
    requires key.Length == MaxArgLength && value.Length == MaxArgLength && key != value
    modifies key, value
    ensures r == Parsed(arg, old(key[..]), old(value[..]), parseReal)
  {
    if |arg| >= MaxArgLength {
      return Err(113);
    }
    ghost var start := Scanner(key[..], value[..], 0, 0, false, Ok(Defaults));
    var settings: Result<Settings> := Ok(Defaults);
    var k: nat, v: nat := 0, 0;
    var inValue := false;
    var i := 0;
    while i < |arg|
      invariant 0 <= i <= |arg| && k <= i && v <= i
      invariant Scan(start, arg[..i], parseReal) == Scanner(key[..], value[..], k, v, inValue, settings)
    {
      assert arg[..i + 1][..i] == arg[..i];
      k, v, inValue, settings := Advance(arg[i], key, value, k, v, inValue, settings, parseReal);
      i := i + 1;
      if settings.Err? {
        // `logger->error` ends the program at the first error
        StopsAtError(start, arg, i, parseReal);
        return settings;
      }
    }
    assert arg[..i] == arg;
    if inValue {
      value[v] := '\0';
      settings := SetKeyValueIn(settings, key, value, parseReal);
    }
    r := settings;
  }

  /** One pass of the `switch` on the buffers: the step `ScanChar` describes. */
  method Advance(c: char, key: array<char>, value: array<char>, k: nat, v: nat, inValue: bool,
                 settings: Result<Settings>, parseReal: string -> Option<real>)
      returns (k': nat, v': nat, inValue': bool, settings': Result<Settings>)
    requires key.Length == MaxArgLength && value.Length == MaxArgLength && key != value
    requires k < MaxArgLength && v < MaxArgLength
    modifies key, value
    ensures ScanChar(Scanner(old(key[..]), old(value[..]), k, v, inValue, settings), c, parseReal) ==
            Scanner(key[..], value[..], k', v', inValue', settings')
  {
    k', v', inValue', settings' := k, v, inValue, settings;
    if c == '=' {
      key[k] := '\0';
      k' := 0;
      inValue' := true;
    } else if c == '&' {
      value[v] := '\0';
      v' := 0;
      inValue' := false;
      settings' := SetKeyValueIn(settings, key, value, parseReal);
    } else if inValue {
      value[v] := c;
      v' := v + 1;
    } else {
      key[k] := c;
      k' := k + 1;
    }
  }

  /** `setKeyValue(key, value)` on the two buffers. */
  method SetKeyValueIn(s: Result<Settings>, key: array<char>, value: array<char>, parseReal: string -> Option<real>)
      returns (r: Result<Settings>)
    ensures r == SetKeyValue(s, CString(key[..]), CString(value[..]), parseReal)
  {
    var k := ReadCString(key);
    var v := ReadCString(value);
    r := SetKeyValue(s, k, v, parseReal);
  }

  /** Reads a buffer as a C string (the characters before the first NUL). */
  method ReadCString(buf: array<char>) returns (s: string)
    ensures s == CString(buf[..])
  {
    var n := 0;
    while n < buf.Length && buf[n] != '\0'
      invariant 0 <= n <= buf.Length
      invariant '\0' !in buf[..n]
    {
      n := n + 1;
    }
    s := buf[..n];
    CStringPrefix(buf[..], n);
  }

  lemma {:induction false} CStringPrefix(buf: seq<char>, n: nat)
    requires n <= |buf| && '\0' !in buf[..n] && (n < |buf| ==> buf[n] == '\0')
    ensures CString(buf) == buf[..n]
  {
    if n > 0 {
      assert buf[1..][..n - 1] == buf[..n][1..];
      CStringPrefix(buf[1..], n - 1);
    }
  }

  /** The walk over `a + b` is the walk over `a` continued over `b`. */
  lemma {:induction false} ScanAppend(sc: Scanner, a: string, b: string, parseReal: string -> Option<real>)
    ensures Scan(sc, a + b, parseReal) == Scan(Scan(sc, a, parseReal), b, parseReal)
  {
    if b == [] {
      assert a + b == a;
    } else {
      var n := |b| - 1;
      assert (a + b)[..|a + b| - 1] == a + b[..n];
      ScanAppend(sc, a, b[..n], parseReal);
    }
  }

  /** An error part-way through the argument is what the whole argument leaves. */
  lemma StopsAtError(start: Scanner, arg: string, i: nat, parseReal: string -> Option<real>)
    requires i <= |arg| && Scan(start, arg[..i], parseReal).settings.Err?
    ensures Finish(Scan(start, arg, parseReal), parseReal) == Scan(start, arg[..i], parseReal).settings
  {
    ScanAppend(start, arg[..i], arg[i..], parseReal);
    assert arg[..i] + arg[i..] == arg;
    ScanKeepsError(Scan(start, arg[..i], parseReal), arg[i..], parseReal);
  }

  /** After an error the walk changes no setting. */
  lemma {:induction false} ScanKeepsError(sc: Scanner, s: string, parseReal: string -> Option<real>)
    requires sc.settings.Err?
    ensures Scan(sc, s, parseReal).settings == sc.settings
    ensures Finish(Scan(sc, s, parseReal), parseReal) == sc.settings
  {
    if s != [] {
      ScanKeepsError(sc, s[..|s| - 1], parseReal);
    }
  }

  // ---------------------------------------------------------------------------
  // Well-formed command lines
  // ---------------------------------------------------------------------------

  /** A key or value with none of the characters '=', '&' and NUL. */
  predicate Plain(w: string)
  {
    forall i :: 0 <= i < |w| ==> w[i] != '=' && w[i] != '&' && w[i] != '\0'
  }

  datatype Pair = Pair(key: string, value: string)

  /** `key=value&` for each pair in turn. */
  function Joined(pairs: seq<Pair>): (r: string)
    ensures pairs == [] ==> r == []
  {
    if pairs == [] then []
    else
      var p := pairs[|pairs| - 1];
      Joined(pairs[..|pairs| - 1]) + p.key + "=" + p.value + "&"
  }

  /** `setKeyValue` applied to the pairs in turn, from the defaults. */
  function ApplyAll(pairs: seq<Pair>, parseReal: string -> Option<real>): Result<Settings>
  {
    if pairs == [] then Ok(Defaults)
    else
      var p := pairs[|pairs| - 1];
      SetKeyValue(ApplyAll(pairs[..|pairs| - 1], parseReal), p.key, p.value, parseReal)
  }

  /** The walk is between pairs: both positions at the start and a key being read. */
  predicate Ready(sc: Scanner)
  {
    sc.k == 0 && sc.v == 0 && !sc.inValue && |sc.key| == MaxArgLength && |sc.value| == MaxArgLength
  }

  /** Plain characters read as a key are written to the key buffer from `k` on. */
  lemma {:induction false} ScanKeyChars(sc: Scanner, w: string, parseReal: string -> Option<real>)
    requires !sc.inValue && Plain(w) && sc.k + |w| <= |sc.key|
    ensures Scan(sc, w, parseReal) ==
            sc.(key := sc.key[..sc.k] + w + sc.key[sc.k + |w|..], k := sc.k + |w|)
  {
    if w == [] {
      assert sc.key[..sc.k] + w + sc.key[sc.k..] == sc.key;
    } else {
      var n := |w| - 1;
      ScanKeyChars(sc, w[..n], parseReal);
      assert sc.key[..sc.k] + w + sc.key[sc.k + |w|..] ==
             (sc.key[..sc.k] + w[..n] + sc.key[sc.k + n..])[sc.k + n := w[n]];
    }
  }

  /** Plain characters read as a value are written to the value buffer from `v` on. */
  lemma {:induction false} ScanValueChars(sc: Scanner, w: string, parseReal: string -> Option<real>)
    requires sc.inValue && Plain(w) && sc.v + |w| <= |sc.value|
    ensures Scan(sc, w, parseReal) ==
            sc.(value := sc.value[..sc.v] + w + sc.value[sc.v + |w|..], v := sc.v + |w|)
  {
    if w == [] {
      assert sc.value[..sc.v] + w + sc.value[sc.v..] == sc.value;
    } else {
      var n := |w| - 1;
      ScanValueChars(sc, w[..n], parseReal);
      assert sc.value[..sc.v] + w + sc.value[sc.v + |w|..] ==
             (sc.value[..sc.v] + w[..n] + sc.value[sc.v + n..])[sc.v + n := w[n]];
    }
  }

  /** The buffer after a plain word and its terminating NUL reads back as the word. */
  lemma WordThenNul(buf: seq<char>, w: string)
    requires Plain(w) && |w| < |buf|
    ensures CString((w + buf[|w|..])[|w| := '\0']) == w
  {
    assert (w + buf[|w|..])[|w| := '\0'] == w + ['\0'] + buf[|w| + 1..];
    CStringOf(w, buf[|w| + 1..]);
  }

  /** The key part of a pair, up to and including its '='. */
  lemma ScanKeyPart(sc: Scanner, key: string, parseReal: string -> Option<real>)
    requires Ready(sc) && Plain(key) && |key| < MaxArgLength
    ensures var r := Scan(sc, key + "=", parseReal);
            r.inValue && r.k == 0 && r.v == 0 && r.settings == sc.settings && CString(r.key) == key &&
            |r.key| == MaxArgLength && r.value == sc.value
  {
    ScanAppend(sc, key, "=", parseReal);
    ScanKeyChars(sc, key, parseReal);
    assert sc.key[..0] + key + sc.key[|key|..] == key + sc.key[|key|..];
    WordThenNul(sc.key, key);
  }

  /** The value part of a pair, up to and including its '&'. */
  lemma ScanValuePart(sc: Scanner, value: string, parseReal: string -> Option<real>)
    requires sc.inValue && sc.v == 0 && sc.k == 0 && Plain(value) && |value| < |sc.value| == MaxArgLength
    requires |sc.key| == MaxArgLength
    ensures var r := Scan(sc, value + "&", parseReal);
            Ready(r) && r.settings == SetKeyValue(sc.settings, CString(sc.key), value, parseReal)
  {
    ScanAppend(sc, value, "&", parseReal);
    ScanValueChars(sc, value, parseReal);
    assert sc.value[..0] + value + sc.value[|value|..] == value + sc.value[|value|..];
    WordThenNul(sc.value, value);
  }

  /** The value part of a last pair with no '&' after it, applied by the finish. */
  lemma FinishValuePart(sc: Scanner, value: string, parseReal: string -> Option<real>)
    requires sc.inValue && sc.v == 0 && Plain(value) && |value| < |sc.value|
    ensures Finish(Scan(sc, value, parseReal), parseReal) == SetKeyValue(sc.settings, CString(sc.key), value, parseReal)
  {
    ScanValueChars(sc, value, parseReal);
    assert sc.value[..0] + value + sc.value[|value|..] == value + sc.value[|value|..];
    WordThenNul(sc.value, value);
  }

  /** A whole `key=value&` pair from between pairs applies the pair and ends between pairs. */
  lemma ScanPair(sc: Scanner, p: Pair, parseReal: string -> Option<real>)
    requires Ready(sc) && Plain(p.key) && Plain(p.value) && |p.key| < MaxArgLength && |p.value| < MaxArgLength
    ensures var r := Scan(sc, p.key + "=" + p.value + "&", parseReal);
            Ready(r) && r.settings == SetKeyValue(sc.settings, p.key, p.value, parseReal)
  {
    assert p.key + "=" + p.value + "&" == (p.key + "=") + (p.value + "&");
    ScanAppend(sc, p.key + "=", p.value + "&", parseReal);
    ScanKeyPart(sc, p.key, parseReal);
    ScanValuePart(Scan(sc, p.key + "=", parseReal), p.value, parseReal);
  }

  /** Scanning `key=value&` pairs from the start applies them in turn. */
  lemma {:induction false} ScanPairs(sc: Scanner, pairs: seq<Pair>, parseReal: string -> Option<real>)
    requires Ready(sc) && sc.settings == Ok(Defaults)
    requires forall i :: 0 <= i < |pairs| ==> Plain(pairs[i].key) && Plain(pairs[i].value)
    requires |Joined(pairs)| < MaxArgLength
    ensures Ready(Scan(sc, Joined(pairs), parseReal))
    ensures Scan(sc, Joined(pairs), parseReal).settings == ApplyAll(pairs, parseReal)
  {
    if pairs != [] {
      var n := |pairs| - 1;
      var p := pairs[n];
      var front := Joined(pairs[..n]);
      assert Joined(pairs) == front + (p.key + "=" + p.value + "&");
      ScanPairs(sc, pairs[..n], parseReal);
      ScanAppend(sc, front, p.key + "=" + p.value + "&", parseReal);
      ScanPair(Scan(sc, front, parseReal), p, parseReal);
    }
  }

  /**
   * A well-formed command line, `key=value&` pairs with plain keys and values
   * that fits the buffers, sets exactly what `setKeyValue` on the pairs in
   * turn sets, whatever the buffers held before.
   */
  lemma ParsedPairs(pairs: seq<Pair>, key0: seq<char>, value0: seq<char>, parseReal: string -> Option<real>)
    requires |key0| == MaxArgLength && |value0| == MaxArgLength
    requires forall i :: 0 <= i < |pairs| ==> Plain(pairs[i].key) && Plain(pairs[i].value)
    requires |Joined(pairs)| < MaxArgLength
    ensures Parsed(Joined(pairs), key0, value0, parseReal) == ApplyAll(pairs, parseReal)
  {
    ScanPairs(Scanner(key0, value0, 0, 0, false, Ok(Defaults)), pairs, parseReal);
  }

  /**
   * The same with no '&' after the last pair: parsing ends while reading a
   * value, and the finish applies the last pair.
   */
  lemma ParsedPairsUnterminated(pairs: seq<Pair>, last: Pair, key0: seq<char>, value0: seq<char>,
                                parseReal: string -> Option<real>)
    requires |key0| == MaxArgLength && |value0| == MaxArgLength
    requires forall i :: 0 <= i < |pairs| ==> Plain(pairs[i].key) && Plain(pairs[i].value)
    requires Plain(last.key) && Plain(last.value)
    requires |Joined(pairs) + last.key + "=" + last.value| < MaxArgLength
    ensures Parsed(Joined(pairs) + last.key + "=" + last.value, key0, value0, parseReal) ==
            ApplyAll(pairs + [last], parseReal)
  {
    var sc := Scanner(key0, value0, 0, 0, false, Ok(Defaults));
    var front := Joined(pairs);
    ScanPairs(sc, pairs, parseReal);
    var mid := Scan(sc, front, parseReal);
    assert front + last.key + "=" + last.value == front + (last.key + "=") + last.value;
    ScanAppend(sc, front + (last.key + "="), last.value, parseReal);
    ScanAppend(sc, front, last.key + "=", parseReal);
    ScanKeyPart(mid, last.key, parseReal);
    FinishValuePart(Scan(mid, last.key + "=", parseReal), last.value, parseReal);
    assert (pairs + [last])[..|pairs|] == pairs;
  }
}
