/**
 * The orchestration arithmetic of the cell suppression tool
 * (`UWECellSuppression.cpp`): how run time is shared among partitions, the
 * iteration and termination rule of the main loop, the recombined cost, and
 * the recognition of `.tab` input on the command line.
 */
module CellSuppressionTool {
  import opened Common
  import opened Text

  /** `GetRequiredTimeUnits`: relative run time a partition needs for its number of primary cells. */
  function RequiredTimeUnits(primaries: int): (u: int)
    ensures 1 <= u <= 300
    ensures primaries < 70 ==> u == 1
    ensures primaries >= 2000 ==> u == 300
  {
    if primaries < 70 then 1
    else if primaries < 85 then 2
    else if primaries < 100 then 4
    else if primaries < 120 then 6
    else if primaries < 135 then 8
    else if primaries < 150 then 13
    else if primaries < 200 then 35
    else if primaries < 250 then 50
    else if primaries < 300 then 70
    else if primaries < 350 then 80
    else if primaries < 400 then 90
    else if primaries < 500 then 120
    else if primaries < 600 then 130
    else if primaries < 700 then 140
    else if primaries < 800 then 150
    else if primaries < 1000 then 200
    else if primaries < 2000 then 250
    else 300
  }

  /** More primary cells never get fewer time units. */
  lemma RequiredTimeUnitsMonotone(m: int, n: int)
    requires m <= n
    ensures RequiredTimeUnits(m) <= RequiredTimeUnits(n)
  {
  }

  /** The per-partition state that the driver keeps (`PartitionData`). */
  datatype Partition = Partition(numberOfPrimaryCells: int, executionTimeSeconds: int, cost: real)

  /** The total number of time units the partitions `p[..n]` require. */
  function TotalUnits(p: seq<Partition>): (t: int)
    ensures t >= |p|
  {
    if p == [] then 0 else TotalUnits(p[..|p| - 1]) + RequiredTimeUnits(p[|p| - 1].numberOfPrimaryCells)
  }

  /** The time a partition is given: its share of the total time, but never less than 1000 seconds. */
  function AllocatedTime(totalTime: nat, totalUnits: int, primaries: int): (t: int)
    requires totalUnits > 0
    ensures t >= 1000
  {
    var time := (totalTime / totalUnits) * RequiredTimeUnits(primaries);
    if time < 1000 then 1000 else time
  }

  /** The first loop of `AllocatePartitionRuntimes`: the total of the required time units. */
  method TotalRequiredTimeUnits(partition: array<Partition>) returns (total: int)
    ensures total == TotalUnits(partition[..])
    ensures total >= partition.Length
  {
    total := 0;
    var i := 0;
    while i < partition.Length
      invariant 0 <= i <= partition.Length
      invariant total == TotalUnits(partition[..i])
    {
      assert partition[..i + 1][..i] == partition[..i];
      total := total + RequiredTimeUnits(partition[i].numberOfPrimaryCells);
      i := i + 1;
    }
    assert partition[..i] == partition[..];
  }

  /**
   * `AllocatePartitionRuntimes`: every partition's execution time becomes its
   * allocated time and nothing else changes. `totalTime` is
   * TOTAL_EXECUTION_TIME, whose value is not part of this model. With no
   * partitions the source divides by zero, so at least one is required.
   */
  method AllocatePartitionRuntimes(partition: array<Partition>, totalTime: nat)
    requires partition.Length > 0
    modifies partition
    ensures forall k :: 0 <= k < partition.Length ==>
              partition[k] == old(partition[k]).(executionTimeSeconds :=
                AllocatedTime(totalTime, TotalUnits(old(partition[..])), old(partition[k]).numberOfPrimaryCells))
  {
    var total := TotalRequiredTimeUnits(partition);
    var timePerUnit := totalTime / total;
    var i := 0;
    while i < partition.Length
      invariant 0 <= i <= partition.Length
      invariant forall k :: 0 <= k < i ==>
                  partition[k] == old(partition[k]).(executionTimeSeconds :=
                    AllocatedTime(totalTime, total, old(partition[k]).numberOfPrimaryCells))
      invariant forall k :: i <= k < partition.Length ==> partition[k] == old(partition[k])
    {
      var units := RequiredTimeUnits(partition[i].numberOfPrimaryCells);
      var time := timePerUnit * units;
      if time < 1000 {
        time := 1000;
      }
      partition[i] := partition[i].(executionTimeSeconds := time);
      i := i + 1;
    }
  }

  /** The total cost of a sequence of partitions. */
  function SumCost(p: seq<Partition>): real
  {
    if p == [] then 0.0 else SumCost(p[..|p| - 1]) + p[|p| - 1].cost
  }

  /** The cost of the recombined table: the sum of the partition costs. */
  method CombinedCost(partition: array<Partition>) returns (c: real)
    ensures c == SumCost(partition[..])
  {
    c := 0.0;
    var i := 0;
    while i < partition.Length
      invariant 0 <= i <= partition.Length
      invariant c == SumCost(partition[..i])
    {
      assert partition[..i + 1][..i] == partition[..i];
      c := c + partition[i].cost;
      i := i + 1;
    }
    assert partition[..i] == partition[..];
  }

  /** Whether the main loop stops after iteration `it`, given the partitions' answers `row`. */
  predicate StopsAfter(row: seq<bool>, it: int, iterations: int)
  {
    (forall i :: 0 <= i < |row| ==> row[i]) || it == iterations
  }

  /**
   * The main loop of the tool. `terminated[it][i]` is what partition `i`
   * answers to `time_to_terminate` in iteration `it` (the search itself is not
   * modelled here); iteration 0 only evaluates the initial pools, later
   * iterations run `protect` on every partition that has not terminated.
   * The loop stops after the first iteration in which every partition has
   * terminated, or after iteration `iterations`. The source's loop has no
   * bound of its own when `iterations` is negative and partitions never
   * terminate; the answers supplied bound it here, and `finished` is false
   * when they ran out first.
   */
  method MainLoop(partitions: nat, iterations: int, terminated: seq<seq<bool>>)
    returns (finished: bool, count: nat, protectCalls: seq<(nat, nat)>)
    requires forall it :: 0 <= it < |terminated| ==> |terminated[it]| == partitions
    ensures count <= |terminated|
    ensures finished ==> count > 0 && StopsAfter(terminated[count - 1], count - 1, iterations)
    ensures !finished ==> count == |terminated|
    ensures forall it :: 0 <= it < count - 1 ==> !StopsAfter(terminated[it], it, iterations)
    ensures !finished ==> forall it :: 0 <= it < count ==> !StopsAfter(terminated[it], it, iterations)
    ensures forall c :: c in protectCalls ==> 0 < c.0 < count && c.1 < partitions && !terminated[c.0][c.1]
    ensures forall it, i :: 0 < it < count && 0 <= i < partitions && !terminated[it][i] ==>
              (it, i) in protectCalls
  {
    count := 0;
    finished := false;
    protectCalls := [];
    while !finished && count < |terminated|
      invariant 0 <= count <= |terminated|
      invariant finished ==> count > 0 && StopsAfter(terminated[count - 1], count - 1, iterations)
      invariant forall it :: 0 <= it < count - 1 ==> !StopsAfter(terminated[it], it, iterations)
      invariant !finished ==> forall it :: 0 <= it < count ==> !StopsAfter(terminated[it], it, iterations)
      invariant forall c :: c in protectCalls ==> 0 < c.0 < count && c.1 < partitions && !terminated[c.0][c.1]
      invariant forall it, i :: 0 < it < count && 0 <= i < partitions && !terminated[it][i] ==>
                  (it, i) in protectCalls
      decreases |terminated| - count, !finished
    {
      var done := true;
      var i := 0;
      while i < partitions
        invariant 0 <= i <= partitions
        invariant done <==> forall k :: 0 <= k < i ==> terminated[count][k]
        invariant forall c :: c in protectCalls ==> 0 < c.0 <= count && c.1 < partitions && !terminated[c.0][c.1]
        invariant forall it, k :: 0 < it < count && 0 <= k < partitions && !terminated[it][k] ==>
                    (it, k) in protectCalls
        invariant forall k :: 0 <= k < i && count > 0 && !terminated[count][k] ==> (count, k) in protectCalls
      {
        if !terminated[count][i] {
          if count > 0 {
            protectCalls := protectCalls + [(count, i)];
          }
          done := false;
        }
        i := i + 1;
      }
      if count == iterations {
        done := true;
      }
      assert done == StopsAfter(terminated[count], count, iterations);
      finished := done;
      count := count + 1;
    }
  }

  /** The file names and format flag derived from the `--table` option. */
  datatype TableNames = TableNames(table: string, tabData: Option<string>, metadata: Option<string>, tabular: bool)

  /** Whether a name ends, case-insensitively, in ".tab". */
  predicate HasTabExtension(name: string)
  {
    |name| >= 4 && EqualsIgnoreCase(name[|name| - 4..], ".tab")
  }

  /** The base name (after the last '/') with its extension (from the last '.') removed. */
  function BaseName(path: string): (r: string)
    ensures |r| <= |path|
  {
    var dir := LastIndex(path, '/');
    var file := if dir < 0 then path else path[dir + 1..];
    var dot := LastIndex(file, '.');
    if dot < 0 then file else file[..dot]
  }

  /**
   * The TABLE option of `parseInputs`: a name of MAX_FILENAME_SIZE characters
   * or more is error 1; a name ending in ".tab" becomes the tab-data file, its
   * ".rda" twin the metadata file and its base name plus ".jj" the table.
   */
  function TableOption(name: string, maxFilenameSize: int): (r: Result<TableNames>)
    ensures r.Err? <==> |name| >= maxFilenameSize
    ensures r.Ok? && HasTabExtension(name) ==>
              r.value.tabular && r.value.tabData == Some(name) &&
              r.value.metadata == Some(name[..|name| - 4] + ".rda") &&
              r.value.table == BaseName(name) + ".jj"
    ensures r.Ok? && !HasTabExtension(name) ==> r.value == TableNames(name, None, None, false)
  {
    if |name| >= maxFilenameSize then Err(1)
    else if HasTabExtension(name) then
      Ok(TableNames(BaseName(name) + ".jj", Some(name), Some(name[..|name| - 4] + ".rda"), true))
    else Ok(TableNames(name, None, None, false))
  }

  /** The metadata name of a ".tab" file keeps everything but the extension, which becomes ".rda". */
  lemma TabMetadataName(stem: string, ext: string, maxFilenameSize: int)
    requires |ext| == 4 && EqualsIgnoreCase(ext, ".tab") && |stem + ext| < maxFilenameSize
    ensures TableOption(stem + ext, maxFilenameSize) == Ok(TableNames(BaseName(stem + ext) + ".jj", Some(stem + ext), Some(stem + ".rda"), true))
  {
    assert (stem + ext)[|stem + ext| - 4..] == ext;
    assert (stem + ext)[..|stem + ext| - 4] == stem;
  }

  /** CSV output needs TAB input: asking for it otherwise is error 1. */
  function CheckOutputFormat(csvOutput: bool, tabular: bool): (r: Result<()>)
    ensures r.Err? <==> csvOutput && !tabular
  {
    if csvOutput && !tabular then Err(1) else Ok(())
  }
}
