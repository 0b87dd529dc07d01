/**
 * Legacy tabular partitioning (`LegacyTabularPartitioning.cpp`): a table is
 * cut along two key fields into a grid of partitions whose size along each
 * field comes from a fixed 6x6 table indexed by the sizes of both fields.
 */
module LegacyPartitioning {
  import opened Common

  /** `required_partitions[6][6]`. */
  const RequiredPartitions: seq<seq<int>> := [
    [4, 4, 4, 4, 4, 4],
    [5, 5, 5, 5, 5, 5],
    [6, 6, 7, 7, 6, 6],
    [7, 7, 7, 7, 6, 6],
    [22, 14, 10, 9, 8, 8],
    [27, 14, 12, 12, 8, 9]
  ]

  /** Every entry of the table is between 4 and 27. */
  lemma RequiredPartitionsBounds(i: int, j: int)
    requires 0 <= i < 6 && 0 <= j < 6
    ensures |RequiredPartitions| == 6 && |RequiredPartitions[i]| == 6
    ensures 4 <= RequiredPartitions[i][j] <= 27
  {
  }

  /** `partition_index`: the size band of a field with `n` key values. */
  function PartitionIndex(n: int): (r: int)
    ensures 0 <= r < 6
    ensures r == 0 <==> n <= 20
    ensures r == 5 <==> n > 500
    ensures 0 < r < 5 ==> [20, 50, 100, 200, 500][r - 1] < n <= [20, 50, 100, 200, 500][r]
  {
    if n <= 20 then 0
    else if n <= 50 then 1
    else if n <= 100 then 2
    else if n <= 200 then 3
    else if n <= 500 then 4
    else 5
  }

  /** `partition_index` is monotone in the number of key values. */
  lemma PartitionIndexMonotone(m: int, n: int)
    requires m <= n
    ensures PartitionIndex(m) <= PartitionIndex(n)
  {
  }

  /**
   * `number_of_required_partitions`: the table entry for the sizes of the two
   * fields, capped by the number of highest-level values of the first field.
   */
  function NumberOfRequiredPartitions(size1: int, size2: int, highLevel1: int): (r: int)
    ensures r <= highLevel1
    ensures r <= RequiredPartitions[PartitionIndex(size1)][PartitionIndex(size2)]
    ensures r == highLevel1 || r == RequiredPartitions[PartitionIndex(size1)][PartitionIndex(size2)]
  {
    var number := RequiredPartitions[PartitionIndex(size1)][PartitionIndex(size2)];
    if number < highLevel1 then number else highLevel1
  }

  /** A partitioning of a table along two fields, with per-partition counters. */
  class Partitioning {
    const numberOfPartitions: int
    var numberOfCells: array<int>
    var numberOfPrimaryCells: array<int>

    ghost predicate Valid()
      reads this
    {
      numberOfCells.Length == numberOfPartitions && numberOfPrimaryCells.Length == numberOfPartitions &&
      numberOfCells != numberOfPrimaryCells
    }

    /**
     * The constructor's arithmetic: the grid has as many partitions as the
     * product of the required counts along the two fields (each computed
     * with the other field as the second index).
     */
    constructor (size1: int, high1: int, size2: int, high2: int)
      requires NumberOfRequiredPartitions(size1, size2, high1) >= 0
      requires NumberOfRequiredPartitions(size2, size1, high2) >= 0
      ensures Valid()
      ensures numberOfPartitions ==
              NumberOfRequiredPartitions(size1, size2, high1) * NumberOfRequiredPartitions(size2, size1, high2)
    {
      var n := NumberOfRequiredPartitions(size1, size2, high1) * NumberOfRequiredPartitions(size2, size1, high2);
      numberOfPartitions := n;
      numberOfCells := new int[n];
      numberOfPrimaryCells := new int[n];
    }

    /**
     * `write_partitioned_jj_file`: records the counts of partition `index`
     * read back from its files (`cells`, `primaries`); an index at or beyond
     * the number of partitions is error 1.
     */
    method RecordPartition(index: nat, cells: int, primaries: int) returns (r: Result<()>)
      requires Valid()
      modifies numberOfCells, numberOfPrimaryCells
      ensures Valid()
      ensures r.Err? <==> index >= numberOfPartitions
      ensures r.Err? ==> r.code == 1 && numberOfCells[..] == old(numberOfCells[..])
                         && numberOfPrimaryCells[..] == old(numberOfPrimaryCells[..])
      ensures r.Ok? ==> numberOfCells[..] == old(numberOfCells[..])[index := cells]
                        && numberOfPrimaryCells[..] == old(numberOfPrimaryCells[..])[index := primaries]
    {
      if index >= numberOfPartitions {
        return Err(1);
      }
      numberOfCells[index] := cells;
      numberOfPrimaryCells[index] := primaries;
      r := Ok(());
    }

    /** `get_number_of_cells`: error 1 for an index out of range. */
    method GetNumberOfCells(index: nat) returns (r: Result<int>)
      requires Valid()
      ensures r.Err? <==> index >= numberOfPartitions
      ensures r.Err? ==> r.code == 1
      ensures r.Ok? ==> r.value == numberOfCells[index]
    {
      if index >= numberOfPartitions {
        return Err(1);
      }
      r := Ok(numberOfCells[index]);
    }

    /** `get_number_of_primary_cells`: error 1 for an index out of range. */
    method GetNumberOfPrimaryCells(index: nat) returns (r: Result<int>)
      requires Valid()
      ensures r.Err? <==> index >= numberOfPartitions
      ensures r.Err? ==> r.code == 1
      ensures r.Ok? ==> r.value == numberOfPrimaryCells[index]
    {
      if index >= numberOfPartitions {
        return Err(1);
      }
      r := Ok(numberOfPrimaryCells[index]);
    }
  }
}
