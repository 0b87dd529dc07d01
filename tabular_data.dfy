/**
 * The parts of the tab-data reader (`TabularData.cpp`) that are not file
 * input: attribute matching in the metadata file, quote stripping, the key
 * index that records the distinct values of every key field, the mixed-radix
 * numbering of table cells, the mapping of status codes, and the path helpers.
 */
module TabularData {
  import opened Common
  import opened Text

  const MaxNoKeyFields: nat := 6
  const MaxNoKeyEntries: nat := 20000
  /** DIRECTORY_SEPARATOR on POSIX systems. */
  const DirectorySeparator: char := '/'

  // ---------------------------------------------------------------------
  // Metadata attributes
  // ---------------------------------------------------------------------

  /** The number of spaces and tabs at the start of `buffer`. */
  function LeadingBlanks(buffer: string): (n: nat)
    ensures n <= |buffer|
    ensures forall k :: 0 <= k < n ==> buffer[k] == ' ' || buffer[k] == '\t'
    ensures n < |buffer| ==> buffer[n] != ' ' && buffer[n] != '\t'
  {
    if buffer != [] && (buffer[0] == ' ' || buffer[0] == '\t') then 1 + LeadingBlanks(buffer[1..]) else 0
  }

  /** `AttributeMatches`: after its leading spaces and tabs, `buffer` starts with `attribute`. */
  predicate AttributeMatches(buffer: string, attribute: string)
  {
    StartsWith(buffer[LeadingBlanks(buffer)..], attribute)
  }

  /** Only a prefix is compared: an attribute matches any word that extends it. */
  lemma AttributeMatchesExtension(attribute: string, rest: string)
    requires attribute != [] && attribute[0] != ' ' && attribute[0] != '\t'
    ensures AttributeMatches(attribute + rest, attribute)
  {
    assert (attribute + rest)[0] == attribute[0];
    assert LeadingBlanks(attribute + rest) == 0;
    assert (attribute + rest)[..|attribute|] == attribute;
  }

  /** A longer attribute that extends a shorter one can only match where the shorter one does. */
  lemma AttributeMatchesShorter(buffer: string, short: string, long: string)
    requires StartsWith(long, short)
    requires AttributeMatches(buffer, long)
    ensures AttributeMatches(buffer, short)
  {
    var b := buffer[LeadingBlanks(buffer)..];
    assert b[..|short|] == long[..|short|];
  }

  /** What a one-word attribute line of the metadata file declares about the current field. */
  datatype FieldAttribute =
    | Recodeable | Hierarchical | Numeric | NumericShadow | NumericCost | NumericLowerPl | NumericUpperPl
    | Frequency | MaxScore | Status | VariableName

  /**
   * The one-word branch of `ReadMetaData` as written: the attributes are
   * tried in order and `<NUMERIC>` is tried before the four attributes that
   * extend it.
   */
  function ClassifyWordAsWritten(word: string): FieldAttribute
  {
    if AttributeMatches(word, "<RECODEABLE>") then Recodeable
    else if AttributeMatches(word, "<HIERARCHICAL>") then Hierarchical
    else if AttributeMatches(word, "<NUMERIC>") then Numeric
    else if AttributeMatches(word, "<NUMERIC><SHADOW>") then NumericShadow
    else if AttributeMatches(word, "<NUMERIC><COST>") then NumericCost
    else if AttributeMatches(word, "<NUMERIC><LOWERPL>") then NumericLowerPl
    else if AttributeMatches(word, "<NUMERIC><UPPERPL>") then NumericUpperPl
    else if AttributeMatches(word, "<FREQUENCY>") then Frequency
    else if AttributeMatches(word, "<MAXSCORE>") then MaxScore
    else if AttributeMatches(word, "<STATUS>") then Status
    else VariableName
  }

  /**
   * As written, the four compound numeric types can never be declared with
   * a one-word attribute: every word that matches one of them matches
   * `<NUMERIC>` first.
   */
  lemma CompoundNumericUnreachable(word: string)
    ensures ClassifyWordAsWritten(word) !in {NumericShadow, NumericCost, NumericLowerPl, NumericUpperPl}
  {
    var n := "<NUMERIC>";
    if AttributeMatches(word, "<NUMERIC><SHADOW>") {
      assert "<NUMERIC><SHADOW>"[..|n|] == n;
      AttributeMatchesShorter(word, n, "<NUMERIC><SHADOW>");
    }
    if AttributeMatches(word, "<NUMERIC><COST>") {
      assert "<NUMERIC><COST>"[..|n|] == n;
      AttributeMatchesShorter(word, n, "<NUMERIC><COST>");
    }
    if AttributeMatches(word, "<NUMERIC><LOWERPL>") {
      assert "<NUMERIC><LOWERPL>"[..|n|] == n;
      AttributeMatchesShorter(word, n, "<NUMERIC><LOWERPL>");
    }
    if AttributeMatches(word, "<NUMERIC><UPPERPL>") {
      assert "<NUMERIC><UPPERPL>"[..|n|] == n;
      AttributeMatchesShorter(word, n, "<NUMERIC><UPPERPL>");
    }
  }

  /** A word that starts with a printable character and differs from `attribute` at `k` does not match it. */
  lemma MismatchAt(word: string, attribute: string, k: nat)
    requires word != [] && word[0] != ' ' && word[0] != '\t'
    requires k < |attribute| && (k >= |word| || word[k] != attribute[k])
    ensures !AttributeMatches(word, attribute)
  {
    assert LeadingBlanks(word) == 0;
    if |attribute| <= |word| {
      assert word[..|attribute|][k] != attribute[k];
    }
  }

  /** The line `<NUMERIC><COST>` declares a plain numeric field as written. */
  lemma NumericCostReadAsNumeric()
    ensures ClassifyWordAsWritten("<NUMERIC><COST>") == Numeric
  {
    var w := "<NUMERIC><COST>";
    MismatchAt(w, "<RECODEABLE>", 1);
    MismatchAt(w, "<HIERARCHICAL>", 1);
    AttributeMatchesExtension("<NUMERIC>", "<COST>");
    assert "<NUMERIC>" + "<COST>" == w;
  }

  /** The one-word branch with the compound numeric attributes tried before `<NUMERIC>`. */
  function ClassifyWord(word: string): (r: FieldAttribute)
    ensures !AttributeMatches(word, "<NUMERIC><SHADOW>") && !AttributeMatches(word, "<NUMERIC><COST>") &&
            !AttributeMatches(word, "<NUMERIC><LOWERPL>") && !AttributeMatches(word, "<NUMERIC><UPPERPL>") ==>
            r == ClassifyWordAsWritten(word)
  {
    CompoundNumericUnreachable(word);
    if AttributeMatches(word, "<RECODEABLE>") then Recodeable
    else if AttributeMatches(word, "<HIERARCHICAL>") then Hierarchical
    else if AttributeMatches(word, "<NUMERIC><SHADOW>") then NumericShadow
    else if AttributeMatches(word, "<NUMERIC><COST>") then NumericCost
    else if AttributeMatches(word, "<NUMERIC><LOWERPL>") then NumericLowerPl
    else if AttributeMatches(word, "<NUMERIC><UPPERPL>") then NumericUpperPl
    else if AttributeMatches(word, "<NUMERIC>") then Numeric
    else if AttributeMatches(word, "<FREQUENCY>") then Frequency
    else if AttributeMatches(word, "<MAXSCORE>") then MaxScore
    else if AttributeMatches(word, "<STATUS>") then Status
    else VariableName
  }

  /** None of the numeric attributes is taken for a key field. */
  lemma NotKeyAttribute(w: string)
    requires StartsWith(w, "<N")
    ensures !AttributeMatches(w, "<RECODEABLE>") && !AttributeMatches(w, "<HIERARCHICAL>")
  {
    assert w[..2] == "<N";
    assert w[1] == 'N';
    MismatchAt(w, "<RECODEABLE>", 1);
    MismatchAt(w, "<HIERARCHICAL>", 1);
  }

  /** An attribute word matches itself. */
  lemma MatchesItself(w: string)
    requires w != [] && w[0] != ' ' && w[0] != '\t'
    ensures AttributeMatches(w, w)
  {
    AttributeMatchesExtension(w, []);
    assert w + [] == w;
  }

  /** With the corrected order each compound numeric attribute declares its own type. */
  lemma ShadowDeclared()
    ensures ClassifyWord("<NUMERIC><SHADOW>") == NumericShadow
  {
    NotKeyAttribute("<NUMERIC><SHADOW>");
    MatchesItself("<NUMERIC><SHADOW>");
  }

  lemma CostDeclared()
    ensures ClassifyWord("<NUMERIC><COST>") == NumericCost
  {
    var w := "<NUMERIC><COST>";
    NotKeyAttribute(w);
    MismatchAt(w, "<NUMERIC><SHADOW>", 10);
    MatchesItself(w);
  }

  lemma LowerPlDeclared()
    ensures ClassifyWord("<NUMERIC><LOWERPL>") == NumericLowerPl
  {
    var w := "<NUMERIC><LOWERPL>";
    NotKeyAttribute(w);
    MismatchAt(w, "<NUMERIC><SHADOW>", 10);
    MismatchAt(w, "<NUMERIC><COST>", 10);
    MatchesItself(w);
  }

  lemma UpperPlDeclared()
    ensures ClassifyWord("<NUMERIC><UPPERPL>") == NumericUpperPl
  {
    var w := "<NUMERIC><UPPERPL>";
    NotKeyAttribute(w);
    MismatchAt(w, "<NUMERIC><SHADOW>", 10);
    MismatchAt(w, "<NUMERIC><COST>", 10);
    MismatchAt(w, "<NUMERIC><LOWERPL>", 10);
    MatchesItself(w);
  }

  lemma NumericDeclared()
    ensures ClassifyWord("<NUMERIC>") == Numeric
  {
    var w := "<NUMERIC>";
    NotKeyAttribute(w);
    MismatchAt(w, "<NUMERIC><SHADOW>", 9);
    MismatchAt(w, "<NUMERIC><COST>", 9);
    MismatchAt(w, "<NUMERIC><LOWERPL>", 9);
    MismatchAt(w, "<NUMERIC><UPPERPL>", 9);
    MatchesItself(w);
  }

  // ---------------------------------------------------------------------
  // Quote stripping
  // ---------------------------------------------------------------------

  /** `strcpy_without_quotes`: the copy of `t` with every '"' left out. */
  method StripQuotes(t: string) returns (s: string)
    ensures s == Without(t, '"')
    ensures '"' !in s && |s| + Count(t, '"') == |t|
  {
    s := [];
    var i := 0;
    while i < |t|
      invariant 0 <= i <= |t|
      invariant s == Without(t[..i], '"')
      invariant |s| + Count(t[..i], '"') == i
    {
      assert t[..i + 1][..i] == t[..i];
      if t[i] != '"' {
        s := s + [t[i]];
      }
      i := i + 1;
    }
    assert t[..i] == t;
  }

  // ---------------------------------------------------------------------
  // Status codes
  // ---------------------------------------------------------------------

  /**
   * The status mapping of `ReadCellData`: the first one or two characters of
   * the status word decide the JJ status; 'Y' and 'X' mark codes it does not
   * know.
   */
  function MapStatus(word: string): (r: char)
    ensures r in {'u', 'z', 's', 'm', 'Y', 'X'}
    ensures r == 'm' <==> |word| >= 2 && word[0] == '1' && (word[1] == '1' || word[1] == '2')
    ensures word == [] ==> r == 'X'
  {
    if word == [] then 'X'
    else
      var c := word[0];
      if c in {'U', 'u', '3', '4', '5', '6', '7', '8', '9'} then 'u'
      else if c in {'P', 'p', 'z', 'Z'} then 'z'
      else if c in {'S', 's', '2'} then 's'
      else if c == '1' then
        if |word| == 1 then 's'
        else if word[1] in {'1', '2'} then 'm'
        else if word[1] in {'0', '3', '4'} then 'z'
        else 'Y'
      else 'X'
  }

  /** The letters a JJ table uses for primary, safe and protected cells map to themselves. */
  lemma MapStatusFixesJJLetters(c: char)
    requires c in {Primary, Safe, Protected}
    ensures MapStatus([c]) == c
  {
  }

  /** A secondary suppression is never read back as such: 'm' is an unknown code. */
  lemma MapStatusSecondaryUnknown()
    ensures MapStatus([Secondary]) == 'X'
  {
  }

  // ---------------------------------------------------------------------
  // Path helpers
  // ---------------------------------------------------------------------

  /** `find_dot_position`: the index of the last '.', or 0 when there is none. */
  method FindDotPosition(filename: string) returns (p: int)
    ensures p == Max(LastIndex(filename, '.'), 0)
  {
    p := 0;
    var i := 0;
    while i < |filename|
      invariant 0 <= i <= |filename|
      invariant p == Max(LastIndex(filename[..i], '.'), 0)
    {
      assert filename[..i + 1][..i] == filename[..i];
      if filename[i] == '.' {
        p := i;
      }
      i := i + 1;
    }
    assert filename[..i] == filename;
  }

  /** `find_end_position`: the index of the last character, or 0 for an empty name. */
  method FindEndPosition(filename: string) returns (p: int)
    ensures p == Max(|filename| - 1, 0)
  {
    p := 0;
    var i := 0;
    while i < |filename|
      invariant 0 <= i <= |filename|
      invariant p == Max(i - 1, 0)
    {
      p := i;
      i := i + 1;
    }
  }

  /**
   * `get_directory`: the prefix of `path` up to and including its last
   * directory separator, or the empty string when it has none.
   */
  method GetDirectory(path: string) returns (dir: string)
    ensures dir == path[..LastIndex(path, DirectorySeparator) + 1]
    ensures StartsWith(path, dir) && DirectorySeparator !in path[|dir|..]
    ensures dir == [] || dir[|dir| - 1] == DirectorySeparator
  {
    var last := 0;
    var i := 0;
    while i < |path|
      invariant 0 <= i <= |path|
      invariant last == LastIndex(path[..i], DirectorySeparator) + 1
    {
      assert path[..i + 1][..i] == path[..i];
      if path[i] == DirectorySeparator {
        last := i + 1;
      }
      i := i + 1;
    }
    assert path[..i] == path;
    dir := [];
    var j := 0;
    while j < last
      invariant 0 <= j <= last
      invariant dir == path[..j]
    {
      dir := dir + [path[j]];
      j := j + 1;
    }
    forall k | 0 <= k < |path[|dir|..]|
      ensures path[|dir|..][k] != DirectorySeparator
    {
      assert path[|dir|..][k] == path[|dir| + k];
    }
  }

  // ---------------------------------------------------------------------
  // Mixed-radix cell numbering
  // ---------------------------------------------------------------------

  /** The field types of the metadata that matter for cell numbering. */
  datatype FieldType = FieldRecodeable | FieldOther

  /** A metadata field as far as cell numbering is concerned. */
  datatype MetaDataField = MetaDataField(fieldType: FieldType, useThisIndex: bool, keyIndex: int)

  /** A field that contributes a digit to the cell number. */
  predicate Indexed(f: MetaDataField)
  {
    f.fieldType == FieldRecodeable && f.useThisIndex
  }

  /** The key indices of the indexed fields, in field order. */
  function IndexedKeys(fields: seq<MetaDataField>): (r: seq<int>)
    ensures |r| <= |fields|
  {
    if fields == [] then []
    else
      var f := fields[|fields| - 1];
      var r := IndexedKeys(fields[..|fields| - 1]);
      if Indexed(f) then r + [f.keyIndex] else r
  }

  /** The indexed keys are exactly the key indices of the indexed fields. */
  lemma {:induction false} IndexedKeysMembers(fields: seq<MetaDataField>, k: int)
    ensures k in IndexedKeys(fields) <==> exists i :: 0 <= i < |fields| && Indexed(fields[i]) && fields[i].keyIndex == k
  {
    if fields != [] {
      var init := fields[..|fields| - 1];
      IndexedKeysMembers(init, k);
      assert forall i :: 0 <= i < |init| ==> init[i] == fields[i];
      if k in IndexedKeys(init) {
        var i :| 0 <= i < |init| && Indexed(init[i]) && init[i].keyIndex == k;
        assert Indexed(fields[i]) && fields[i].keyIndex == k;
      }
    }
  }

  /** The product of the sizes of the given keys (1 for none). */
  function Product(sizes: seq<int>, keys: seq<int>): int
    requires KeysIn(sizes, keys)
  {
    if keys == [] then 1 else Product(sizes, keys[..|keys| - 1]) * sizes[keys[|keys| - 1]]
  }

  /** Every key indexes a slot of `sizes`. */
  predicate KeysIn(sizes: seq<int>, keys: seq<int>)
  {
    forall m :: 0 <= m < |keys| ==> 0 <= keys[m] < |sizes|
  }

  /**
   * `SetupIndexingOffsets`: each indexed key's offset becomes the product of
   * the numbers of entries of the indexed keys before it, so that the cell
   * number is a mixed-radix numeral. A key index outside
   * `[0, MAX_NO_KEY_FIELDS)` is error 1.
   */
  method SetupIndexingOffsets(fields: seq<MetaDataField>, numberOfKeyEntries: array<int>, keyEntryOffsets: array<int>)
    returns (r: Result<()>)
    requires numberOfKeyEntries.Length == MaxNoKeyFields && keyEntryOffsets.Length == MaxNoKeyFields
    requires numberOfKeyEntries != keyEntryOffsets
    modifies keyEntryOffsets
    ensures r.Err? <==> exists m :: 0 <= m < |IndexedKeys(fields)| && !(0 <= IndexedKeys(fields)[m] < MaxNoKeyFields)
    ensures r.Err? ==> r.code == 1
    ensures r.Ok? ==> OffsetsSet(keyEntryOffsets[..], numberOfKeyEntries[..], IndexedKeys(fields), old(keyEntryOffsets[..]))
  {
    ghost var sizes := numberOfKeyEntries[..];
    ghost var orig := keyEntryOffsets[..];
    var offset := 1;
    var i := 0;
    ghost var keys: seq<int> := [];
    while i < |fields|
      invariant 0 <= i <= |fields| && numberOfKeyEntries[..] == sizes
      invariant keys == IndexedKeys(fields[..i]) && KeysIn(sizes, keys)
      invariant keyEntryOffsets[..] == Offsets(sizes, keys, orig)
      invariant offset == Product(sizes, keys)
    {
      IndexedKeysSnoc(fields, i);
      if Indexed(fields[i]) {
        var kindex := fields[i].keyIndex;
        if kindex < 0 || kindex >= MaxNoKeyFields {
          BadKeyListed(fields, i);
          return Err(1);
        }
        keyEntryOffsets[kindex] := offset;
        offset := offset * numberOfKeyEntries[kindex];
        OffsetsSnoc(sizes, keys, kindex, orig);
        keys := keys + [kindex];
      }
      i := i + 1;
    }
    assert fields[..i] == fields;
    OffsetsMeaning(sizes, keys, orig);
    r := Ok(());
  }

  /** One more field extends the indexed keys by its key when it is indexed. */
  lemma IndexedKeysSnoc(fields: seq<MetaDataField>, i: int)
    requires 0 <= i < |fields|
    ensures IndexedKeys(fields[..i + 1]) ==
            IndexedKeys(fields[..i]) + (if Indexed(fields[i]) then [fields[i].keyIndex] else [])
  {
    assert fields[..i + 1][..i] == fields[..i];
  }

  /** The key of an indexed field occurs among the indexed keys. */
  lemma BadKeyListed(fields: seq<MetaDataField>, i: int)
    requires 0 <= i < |fields| && Indexed(fields[i])
    ensures exists m :: 0 <= m < |IndexedKeys(fields)| && IndexedKeys(fields)[m] == fields[i].keyIndex
  {
    var ks := IndexedKeys(fields);
    IndexedKeysMembers(fields, fields[i].keyIndex);
    var m :| 0 <= m < |ks| && ks[m] == fields[i].keyIndex;
  }

  /** The offsets after writing those of `keys` in order over `orig`, as the loop does. */
  ghost function Offsets(sizes: seq<int>, keys: seq<int>, orig: seq<int>): (offs: seq<int>)
    requires KeysIn(sizes, keys) && |orig| == |sizes|
    ensures |offs| == |orig|
  {
    if keys == [] then orig
    else
      var init := keys[..|keys| - 1];
      Offsets(sizes, init, orig)[keys[|keys| - 1] := Product(sizes, init)]
  }

  /** One more key writes the running product into its slot and multiplies the product by its size. */
  lemma OffsetsSnoc(sizes: seq<int>, keys: seq<int>, k: int, orig: seq<int>)
    requires KeysIn(sizes, keys) && |orig| == |sizes| && 0 <= k < |sizes|
    ensures KeysIn(sizes, keys + [k])
    ensures Offsets(sizes, keys + [k], orig) == Offsets(sizes, keys, orig)[k := Product(sizes, keys)]
    ensures Product(sizes, keys + [k]) == Product(sizes, keys) * sizes[k]
  {
    assert (keys + [k])[..|keys|] == keys;
  }

  /**
   * The offsets `offs` hold, for every key of `keys` at its last place, the
   * product of the sizes of the keys before it, and elsewhere what `orig` held.
   */
  ghost predicate OffsetsSet(offs: seq<int>, sizes: seq<int>, keys: seq<int>, orig: seq<int>)
  {
    |offs| == |orig| == |sizes| && KeysIn(sizes, keys) &&
    (forall m :: 0 <= m < |keys| && keys[m] !in keys[m + 1..] ==> offs[keys[m]] == Product(sizes, keys[..m])) &&
    (forall k :: 0 <= k < |offs| && k !in keys ==> offs[k] == orig[k])
  }

  /** Writing the offsets of `keys` in order leaves each key's last-written offset and nothing else. */
  lemma {:induction false} OffsetsMeaning(sizes: seq<int>, keys: seq<int>, orig: seq<int>)
    requires KeysIn(sizes, keys) && |orig| == |sizes|
    ensures OffsetsSet(Offsets(sizes, keys, orig), sizes, keys, orig)
  {
    if keys != [] {
      var init := keys[..|keys| - 1];
      var k := keys[|keys| - 1];
      assert keys == init + [k];
      OffsetsMeaning(sizes, init, orig);
      OffsetsSnoc(sizes, init, k, orig);
      OffsetsStep(sizes, init, k, Offsets(sizes, init, orig), Offsets(sizes, keys, orig), orig);
    }
  }

  /** Writing the offset of key `k` keeps every earlier last-written offset and adds `k`'s. */
  lemma OffsetsStep(sizes: seq<int>, keys: seq<int>, k: int, before: seq<int>, after: seq<int>, orig: seq<int>)
    requires OffsetsSet(before, sizes, keys, orig)
    requires 0 <= k < |sizes| && after == before[k := Product(sizes, keys)]
    ensures OffsetsSet(after, sizes, keys + [k], orig)
  {
    var keys' := keys + [k];
    assert keys'[..|keys|] == keys;
    assert keys'[|keys|] == k;
    forall m | 0 <= m < |keys'| && keys'[m] !in keys'[m + 1..]
      ensures after[keys'[m]] == Product(sizes, keys'[..m])
    {
      if m < |keys| {
        assert keys'[m + 1..] == keys[m + 1..] + [k];
        assert keys'[m] == keys[m] && keys[m] != k && keys[m] !in keys[m + 1..];
        assert after[keys[m]] == before[keys[m]];
        assert keys'[..m] == keys[..m];
      } else {
        assert m == |keys|;
      }
    }
    forall j | 0 <= j < |after| && j !in keys'
      ensures after[j] == orig[j]
    {
      assert j != k && j !in keys;
    }
  }

  /** The key indices whose `KeyIndexInUse` flag is set, in increasing order. */
  function KeysInUse(inUse: seq<bool>): (r: seq<int>)
    ensures forall m :: 0 <= m < |r| ==> 0 <= r[m] < |inUse| && inUse[r[m]]
    ensures forall m, l :: 0 <= m < l < |r| ==> r[m] < r[l]
  {
    if inUse == [] then []
    else KeysInUse(inUse[..|inUse| - 1]) + (if inUse[|inUse| - 1] then [|inUse| - 1] else [])
  }

  /** The cell number of the current key values: the sum of value times offset over the given keys. */
  function CellNumber(keys: seq<int>, current: seq<int>, offsets: seq<int>): int
    requires forall m :: 0 <= m < |keys| ==> 0 <= keys[m] < |current| && keys[m] < |offsets|
  {
    if keys == [] then 0
    else CellNumber(keys[..|keys| - 1], current, offsets) + current[keys[|keys| - 1]] * offsets[keys[|keys| - 1]]
  }

  /**
   * `GetCellNumber`: the sum over the first `numberOfKeyFields` keys that are
   * in use of the key's current value times its offset. (A number above
   * `ncells` is only logged.)
   */
  method GetCellNumber(numberOfKeyFields: nat, keyIndexInUse: array<bool>, currentKeyIndex: array<int>,
                       keyEntryOffsets: array<int>) returns (index: int)
    requires numberOfKeyFields <= keyIndexInUse.Length == currentKeyIndex.Length == keyEntryOffsets.Length
    ensures index == CellNumber(KeysInUse(keyIndexInUse[..numberOfKeyFields]), currentKeyIndex[..], keyEntryOffsets[..])
  {
    index := 0;
    var i := 0;
    while i < numberOfKeyFields
      invariant 0 <= i <= numberOfKeyFields
      invariant index == CellNumber(KeysInUse(keyIndexInUse[..i]), currentKeyIndex[..], keyEntryOffsets[..])
    {
      assert keyIndexInUse[..i + 1][..i] == keyIndexInUse[..i];
      if keyIndexInUse[i] {
        ghost var keys := KeysInUse(keyIndexInUse[..i]);
        assert KeysInUse(keyIndexInUse[..i + 1]) == keys + [i];
        assert (keys + [i])[..|keys|] == keys;
        index := index + currentKeyIndex[i] * keyEntryOffsets[i];
      } else {
        assert KeysInUse(keyIndexInUse[..i + 1]) == KeysInUse(keyIndexInUse[..i]);
      }
      i := i + 1;
    }
  }

  /** Key values within the numbers of entries, and offsets as `SetupIndexingOffsets` leaves them. */
  ghost predicate MixedRadix(keys: seq<int>, sizes: seq<int>, current: seq<int>, offsets: seq<int>)
  {
    (forall m :: 0 <= m < |keys| ==> 0 <= keys[m] < |sizes| && keys[m] < |current| && keys[m] < |offsets|) &&
    (forall m :: 0 <= m < |keys| ==> 0 <= current[keys[m]] < sizes[keys[m]]) &&
    (forall m :: 0 <= m < |keys| ==> offsets[keys[m]] == Product(sizes, keys[..m]))
  }

  lemma MixedRadixPrefix(keys: seq<int>, sizes: seq<int>, current: seq<int>, offsets: seq<int>)
    requires keys != [] && MixedRadix(keys, sizes, current, offsets)
    ensures MixedRadix(keys[..|keys| - 1], sizes, current, offsets)
  {
    var ks := keys[..|keys| - 1];
    forall m | 0 <= m < |ks|
      ensures ks[..m] == keys[..m]
    {
    }
  }

  lemma MulBelow(a: int, s: int, p: int)
    requires 0 <= a < s && p > 0
    ensures a * p <= s * p - p
  {
    assert (s - a) * p >= p by {
      assert s - a >= 1;
    }
  }

  /** Every cell number lies below the product of the numbers of entries of the keys in use. */
  lemma {:induction false} CellNumberInRange(keys: seq<int>, sizes: seq<int>, current: seq<int>, offsets: seq<int>)
    requires MixedRadix(keys, sizes, current, offsets)
    ensures 0 <= CellNumber(keys, current, offsets) < Product(sizes, keys)
  {
    if keys != [] {
      var ks := keys[..|keys| - 1];
      var k := keys[|keys| - 1];
      MixedRadixPrefix(keys, sizes, current, offsets);
      CellNumberInRange(ks, sizes, current, offsets);
      assert offsets[k] == Product(sizes, ks);
      MulBelow(current[k], sizes[k], Product(sizes, ks));
    }
  }

  lemma MulAtLeast(d: int, p: int)
    requires d >= 1 && p > 0
    ensures d * p >= p
  {
  }

  lemma DigitUnique(a: int, c: int, a': int, c': int, p: int)
    requires 0 <= a < p && 0 <= a' < p && a + c * p == a' + c' * p
    ensures c == c' && a == a'
  {
    assert (c' - c) * p == a - a';
    if c < c' {
      MulAtLeast(c' - c, p);
      assert false;
    } else if c' < c {
      assert (c - c') * p == a' - a;
      MulAtLeast(c - c', p);
      assert false;
    }
  }

  /** Distinct key values give distinct cell numbers. */
  lemma {:induction false} CellNumberInjective(keys: seq<int>, sizes: seq<int>, current: seq<int>, current': seq<int>,
                                               offsets: seq<int>)
    requires MixedRadix(keys, sizes, current, offsets) && MixedRadix(keys, sizes, current', offsets)
    requires CellNumber(keys, current, offsets) == CellNumber(keys, current', offsets)
    ensures forall m :: 0 <= m < |keys| ==> current[keys[m]] == current'[keys[m]]
  {
    if keys != [] {
      var ks := keys[..|keys| - 1];
      var k := keys[|keys| - 1];
      var p := Product(sizes, ks);
      MixedRadixPrefix(keys, sizes, current, offsets);
      MixedRadixPrefix(keys, sizes, current', offsets);
      CellNumberInRange(ks, sizes, current, offsets);
      CellNumberInRange(ks, sizes, current', offsets);
      assert keys[..|ks|] == ks;
      assert offsets[k] == p;
      DigitUnique(CellNumber(ks, current, offsets), current[k], CellNumber(ks, current', offsets), current'[k], p);
      CellNumberInjective(ks, sizes, current, current', offsets);
      forall m | 0 <= m < |keys|
        ensures current[keys[m]] == current'[keys[m]]
      {
        if m < |ks| {
          assert keys[m] == ks[m];
        }
      }
    }
  }

  // ---------------------------------------------------------------------
  // Key index
  // ---------------------------------------------------------------------

  /** A recorded value of a key field and its hierarchy level. */
  datatype KeyField = KeyField(keyValue: string, hierarchyLevel: int)

  /** The key index of a table: the distinct values seen for every key field. */
  class KeyIndex {
    var keyFields: array2<KeyField>
    var numberOfKeyEntries: array<int>

    /** Counts within capacity, and no value recorded twice for the same key field. */
    ghost predicate Valid()
      reads this, numberOfKeyEntries
    {
      keyFields.Length0 == MaxNoKeyFields && keyFields.Length1 == MaxNoKeyEntries &&
      numberOfKeyEntries.Length == MaxNoKeyFields &&
      (forall k :: 0 <= k < MaxNoKeyFields ==> 0 <= numberOfKeyEntries[k] <= MaxNoKeyEntries)
    }

    ghost predicate Distinct()
      requires Valid()
      reads this, numberOfKeyEntries, keyFields
    {
      forall k, i, j :: 0 <= k < MaxNoKeyFields && 0 <= i < j < numberOfKeyEntries[k] ==>
        keyFields[k, i].keyValue != keyFields[k, j].keyValue
    }

    /** Whether `key` is among the values recorded for key field `k`. */
    predicate Present(k: nat, key: string)
      requires Valid() && k < MaxNoKeyFields
      reads this, numberOfKeyEntries, keyFields
    {
      exists i :: 0 <= i < numberOfKeyEntries[k] && keyFields[k, i].keyValue == key
    }

    constructor ()
      ensures Valid() && Distinct()
      ensures forall k :: 0 <= k < MaxNoKeyFields ==> numberOfKeyEntries[k] == 0
    {
      keyFields := new KeyField[MaxNoKeyFields, MaxNoKeyEntries]((k, i) => KeyField([], 0));
      numberOfKeyEntries := new int[MaxNoKeyFields](k => 0);
    }

    /**
     * `AddKeyToIndex`: records `key` for key field `keyindex` unless it is
     * already there; a new key when the field already holds
     * MAX_NO_KEY_ENTRIES values is refused with false.
     */
    method AddKeyToIndex(keyindex: nat, key: string, hierarchy: int) returns (rc: bool)
      requires Valid() && Distinct() && keyindex < MaxNoKeyFields
      requires keyFields.Length0 == MaxNoKeyFields
      modifies keyFields, numberOfKeyEntries
      ensures Valid() && Distinct()
      ensures !rc <==> !old(Present(keyindex, key)) && old(numberOfKeyEntries[keyindex]) == MaxNoKeyEntries
      ensures old(Present(keyindex, key)) || !rc ==>
                numberOfKeyEntries[..] == old(numberOfKeyEntries[..]) &&
                forall k, i :: 0 <= k < MaxNoKeyFields && 0 <= i < MaxNoKeyEntries ==> keyFields[k, i] == old(keyFields[k, i])
      ensures !old(Present(keyindex, key)) && rc ==>
                var n := old(numberOfKeyEntries[keyindex]);
                numberOfKeyEntries[..] == old(numberOfKeyEntries[..])[keyindex := n + 1] &&
                keyFields[keyindex, n] == KeyField(key, hierarchy) &&
                forall k, i :: 0 <= k < MaxNoKeyFields && 0 <= i < MaxNoKeyEntries && (k, i) != (keyindex, n) ==>
                  keyFields[k, i] == old(keyFields[k, i])
      ensures Present(keyindex, key) == (old(Present(keyindex, key)) || rc)
    {
      var n := numberOfKeyEntries[keyindex];
      rc := true;
      if n == 0 {
        keyFields[keyindex, n] := KeyField(key, hierarchy);
        numberOfKeyEntries[keyindex] := n + 1;
        assert keyFields[keyindex, n].keyValue == key;
      } else {
        var i := 0;
        while i < n && keyFields[keyindex, i].keyValue != key
          invariant 0 <= i <= n
          invariant forall l :: 0 <= l < i ==> keyFields[keyindex, l].keyValue != key
        {
          i := i + 1;
        }
        if i == n {
          if n < MaxNoKeyEntries {
            keyFields[keyindex, n] := KeyField(key, hierarchy);
            numberOfKeyEntries[keyindex] := n + 1;
            assert keyFields[keyindex, n].keyValue == key;
          } else {
            rc := false;
          }
        } else {
          assert keyFields[keyindex, i].keyValue == key;
        }
      }
    }
  }
}
