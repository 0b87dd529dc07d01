# SUMiT cell suppression, modelled in Dafny

SUMiT protects a statistical table by suppressing cells. The primary cells ('u') are sensitive and must not be published. Secondary cells ('m') are suppressed as well, so that the primaries cannot be recovered from the table's consistency equations (its marginal sums). This project models the discrete core of the C++ tool and of its Java solver server, and proves what each piece promises.

- **Genetic search** (`GAProtections`, `Genomes`, `DistancePreserving`, `Selections`, `Replacements`, `PoolGrowth`, `Individuals`, `Scheduling`, `FitnessEvaluation`, `FitnessLoops`):
  - genomes are orderings of the cells to protect;
  - the pools of parents, offspring and clones are arrays;
  - it models the selection, crossover and mutation operators, the replacement policies and the termination rule;
  - it models `evaluate_fitness`, which dispatches remote solver runs to slots, shares a polling back-off, copies cache hits and fills in duplicates.
  - `IncrementalProtections` and `GroupedProtections` model the two subclasses. Each seeds the pool and runs `protect`.
- **Evaluation cache** (`Evaluations`, `EvaluationCaches`): a map keyed by model and genome, ordered by a lexicographic comparator, with per-model counters.
- **Seed ordering and grouping** (`CellStores`, `Groups`): the filtering and exchange-sort passes over cell indices, and the first-fit grouping of primary cells.
- **Remote solver shell** (`Solvers`, `SolverArguments`, `SystemSleep`):
  - the step loop marks the cells the LP answer requires;
  - it records the cost after every step;
  - it builds the sparse constraint matrix;
  - it parses the `key=value&` argument string.
- **Disclosure checkers** (`Unpickers` over `real`, `Eliminations`/`Eliminators` over scaled integers):
  - consolidate, tidy and simplify the equations;
  - derive bounds by interval propagation;
  - classify exposure;
  - greedily remove secondary cells that are not needed.
- **Table data** (`JJData`, `TabularData`, `Tokenizer`, `Text`, `CsvWriter`):
  - validate and resolve JJ files, infer levels, reset and recombine partitions;
  - tokenize lines and match attributes;
  - map status codes and compute mixed-radix cell numbers.
- **Orchestration and server** (`CellSuppressionTool`, `LegacyPartitioning`, `SessionRegistry`, `ServerSession`, `CellSuppressionServer`, `JavaText`):
  - split run time across partitions;
  - the session registry and the session life cycle;
  - parse the session query string.

Each stateful source class is a Dafny `class` whose methods are proved against specification functions. Lemmas about those functions state the promises: permutations preserved, bounds only tightening, soundness of the attacks, round trips and orderings. All `random()` draws, clock readings, solver replies and LP answers are parameters.

## Model

| member | source | states |
|---|---|---|
| `CellStores.CellStore.constructor` | sumit/sumit_lib/CellStore.cpp:4-9 | the store starts empty, with room for one index per cell of the table |
| `CellStores.CellStore.StoreCell` | sumit/sumit_lib/CellStore.cpp:15-19 | the stored indices become the old ones followed by `i` |
| `CellStores.CellStore.StoreSelectedCells` | sumit/sumit_lib/CellStore.cpp:21-27 | appends exactly the indices of the primary (`u`) cells, in increasing order, and the size grows by their count |
| `CellStores.CellStore.StoreAllCells` | sumit/sumit_lib/CellStore.cpp:29-33 | appends every index `0..ncells-1` in order |
| `CellStores.CellStore.StoreAllPotentialCells` | sumit/sumit_lib/CellStore.cpp:35-41 | appends exactly the indices of the cells that may be suppressed (`s`), in increasing order |
| `CellStores.CellStore.SwapStoredCells` | sumit/sumit_lib/CellStore.cpp:43-47 | the buffer afterwards is the old one with positions `i` and `j` exchanged and nothing else changed |
| `CellStores.CellStore.OrderCells` | sumit/sumit_lib/CellStore.cpp:49-60 | the shared exchange-sort double loop leaves the stored indices a permutation of the old ones, sorted by the key, with the slots past `size` untouched |
| `CellStores.CellStore.OrderCellsByLargestProtectionLevel` | sumit/sumit_lib/CellStore.cpp:49-60 | a permutation of the stored cells whose upper protection levels are non-increasing |
| `CellStores.CellStore.OrderCellsByLargestWeighting` | sumit/sumit_lib/CellStore.cpp:62-73 | a permutation of the stored cells whose loss-of-information weights are non-increasing |
| `CellStores.CellStore.OrderCellsBySmallestProtectionLevel` | sumit/sumit_lib/CellStore.cpp:75-86 | a permutation of the stored cells whose upper protection levels are non-decreasing |
| `CellStores.CellStore.OrderCellsBySmallestWeighting` | sumit/sumit_lib/CellStore.cpp:88-99 | a permutation of the stored cells whose loss-of-information weights are non-decreasing |
| `CellStores.Before` | sumit/sumit_lib/CellStore.cpp:52-55 | cell `k` is ranked before cell `l` exactly when its rank under the key is strictly smaller |
| `CellStores.CellStore.StoreCellsWithStatus` | sumit/sumit_lib/CellStore.cpp:21-27 | the shared filtering loop appends, in increasing order, exactly the indices of the cells with the given status |
| `CellStores.CellStore.CompareAndSwap` | sumit/sumit_lib/CellStore.cpp:53-58 | one inner-loop step: the two stored cells are exchanged when out of order, keeping the same multiset and leaving the rest of the buffer alone |
| `CellSuppressionTool.RequiredTimeUnits` | sumit/cell_suppression_tool/UWECellSuppression.cpp:162-200 | a partition needs between 1 and 300 time units: 1 below 70 primary cells, 300 from 2000 on |
| `CellSuppressionTool.RequiredTimeUnitsMonotone` | sumit/cell_suppression_tool/UWECellSuppression.cpp:162-200 | more primary cells never need fewer time units |
| `CellSuppressionTool.AllocatedTime` | sumit/cell_suppression_tool/UWECellSuppression.cpp:512-519 | a partition is never given less than 1000 seconds |
| `CellSuppressionTool.TotalRequiredTimeUnits` | sumit/cell_suppression_tool/UWECellSuppression.cpp:505-511 | the first loop sums the partitions' required units, which is at least one per partition |
| `CellSuppressionTool.AllocatePartitionRuntimes` | sumit/cell_suppression_tool/UWECellSuppression.cpp:501-527 | every partition's execution time becomes its share of the total time, at least 1000 seconds, and no other field of any partition changes |
| `CellSuppressionTool.CombinedCost` | sumit/cell_suppression_tool/UWECellSuppression.cpp:636-638 | the recombined cost is the sum of the partition costs |
| `CellSuppressionTool.MainLoop` | sumit/cell_suppression_tool/UWECellSuppression.cpp:762-803 | the loop stops at the first iteration where every partition has terminated or the iteration limit is reached, and `protect` is called exactly for the partitions not yet terminated in iterations after the first |
| `CellSuppressionTool.BaseName` | sumit/sumit_lib/System.cpp:272-293 | the base name is never longer than the path |
| `CellSuppressionTool.TableOption` | sumit/cell_suppression_tool/UWECellSuppression.cpp:344-364 | the TABLE option fails exactly when the name is too long; a `.tab` name (any case) gives the tab-data name, the metadata name with `.rda` in place of the extension and the table `<base>.jj`; any other name is kept as the JJ table |
| `CellSuppressionTool.TabMetadataName` | sumit/cell_suppression_tool/UWECellSuppression.cpp:353-359 | for every stem and every case of `.tab`, the three derived names are the stem's |
| `CellSuppressionTool.CheckOutputFormat` | sumit/cell_suppression_tool/UWECellSuppression.cpp:372-374 | CSV output is refused exactly when the input was not in TAB format |
| `CsvWriter.CommaTerminated` | sumit/sumit_lib/CSVWriter.cpp:128-130 | the key fields each followed by a comma: never shorter than the number of fields |
| `CsvWriter.CsvRow` | sumit/sumit_lib/CSVWriter.cpp:122-133 | a row is written exactly when the mapping line has more than one token and its first token is a cell number; it starts with tokens 1..n-1 each followed by a comma and ends with `,<status>` and a newline |
| `CsvWriter.PiecesOfCommaTerminated` | sumit/sumit_lib/CSVWriter.cpp:128-130 | comma-terminated fields without commas cut back at commas into the same fields |
| `CsvWriter.CsvRowPieces` | sumit/sumit_lib/CSVWriter.cpp:125-132 | a written row reads back as CSV: its comma-separated pieces are the key tokens, the nominal value and the status with its newline |
| `CsvWriter.CsvTokenKeepsQuotes` | sumit/sumit_lib/CSVWriter.cpp:13-73 | `getTokens` of the CSV writer drops leading blanks only, so quotes and inner blanks stay in the written key |
| `CsvWriter.EmptyKeyNotWritten` | sumit/sumit_lib/CSVWriter.cpp:13-73 | a field left empty between two commas is a piece of its own that the tokenizer never starts, so its buffer entry is not written |
| `Common.Lower` | sumit/sumit_lib/System.cpp:250-256 | the case folding of the case-insensitive comparison: upper-case ASCII letters move to lower case, every other character is kept |
| `Common.ExchangeSortSorts` | sumit/sumit_lib/GAProtection.cpp:284-308 | the double exchange loop of `sort_pool_by_fitness`, for every input, orders by non-decreasing key and keeps every element (a permutation) |
| `DistancePreserving.NoFragments` | sumit/sumit_lib/GAProtection.cpp:569-576 | the work arrays start sized for N genes with no fragment found |
| `DistancePreserving.ScanGene` | sumit/sumit_lib/GAProtection.cpp:579-621 | one turn of the fragment scan keeps the work arrays sized and finds at most one more fragment |
| `DistancePreserving.Scan` | sumit/sumit_lib/GAProtection.cpp:579-625 | the scan over the first t genes finds at most t fragments |
| `DistancePreserving.ScanGeneShape` | sumit/sumit_lib/GAProtection.cpp:588-620 | a turn records the gene's start when it opens a fragment, grows the open fragment's length by one, and then either keeps the fragment open or closes it |
| `DistancePreserving.ScanTiles` | sumit/sumit_lib/GAProtection.cpp:579-621 | after t turns the fragments found lie end to end over the first t genes of parent 1 |
| `DistancePreserving.FragmentsCoverParent` | sumit/sumit_lib/GAProtection.cpp:579-625 | after the whole scan the fragments cut parent 1 into consecutive non-empty pieces whose lengths add up to N |
| `DistancePreserving.ScanFailsOnMissingGene` | sumit/sumit_lib/GAProtection.cpp:479-493 | the scan fails, with error 1, exactly when some gene of parent 1 is missing from parent 2 |
| `DistancePreserving.FragmentOrder` | sumit/sumit_lib/GAProtection.cpp:628-645 | one entry per fragment found |
| `DistancePreserving.FragmentOrderSorted` | sumit/sumit_lib/GAProtection.cpp:628-645 | the fragments are taken in non-decreasing order of their totals (start in parent 1 plus start in parent 2), each exactly once |
| `DistancePreserving.SumOverPermutation` | sumit/sumit_lib/GAProtection.cpp:633-645 | reordering the fragments does not change their total length |
| `DistancePreserving.FragmentGenes` | sumit/sumit_lib/GAProtection.cpp:654-664 | a fragment read cyclically from its start has exactly its length in genes |
| `DistancePreserving.Assemble` | sumit/sumit_lib/GAProtection.cpp:648-666 | the offspring built from the first i ordered fragments has their total length |
| `DistancePreserving.OffspringLength` | sumit/sumit_lib/GAProtection.cpp:648-666 | the assembled offspring has exactly N genes |
| `DistancePreserving.Dpx` | sumit/sumit_lib/GAProtection.cpp:557-674 | the crossover either fails with error 1 or yields N genes that pass the `invalid_offspring` test |
| `Eliminations.Truncate` | sumit/sumit_lib/Eliminate.cpp:19-25 | the cast to `int_fast64_t` truncates toward zero: the result is the integer part of the value, on either side of 0 |
| `Eliminations.ScaledCells` | sumit/sumit_lib/Eliminate.cpp:16-27 | one scaled cell per cell of the table, each cell's figures scaled by the precision |
| `Eliminations.ScaledEquations` | sumit/sumit_lib/Eliminate.cpp:48-53 | one equation per consistency equation, with the same terms and the right-hand side scaled |
| `Eliminations.GrandTotal` | sumit/sumit_lib/Eliminate.cpp:28-30 | the grand total is at least 0 and every scaled nominal value; it is 0 or some cell's nominal value |
| `Eliminations.Primaries` | sumit/sumit_lib/Eliminate.cpp:37-44 | exactly the primary cells' indices, in increasing order |
| `Eliminations.InitialBoundsSound` | sumit/sumit_lib/Eliminate.cpp:100-115 | every table the published figures allow lies within the initial bounds, and each published cell is pinned at its value |
| `Eliminations.SuppressedTerms` | sumit/sumit_lib/Eliminate.cpp:424-441 | the terms kept by consolidation are exactly the equation's in-range terms over suppressed cells |
| `Eliminations.NumberWithSuppressed` | sumit/sumit_lib/Eliminate.cpp:364-389 | the first pass keeps at most one equation per consistency equation |
| `Eliminations.Reductions` | sumit/sumit_lib/Eliminate.cpp:409-449 | one reduced equation per equation with a suppressed cell, each with terms, all naming cells of the table |
| `Eliminations.Tidy` | sumit/sumit_lib/Eliminate.cpp:332-347 | a tidied equation has a right-hand side of at least 0, and its signs are flipped exactly when the right-hand side was negative |
| `Eliminations.TidySound` | sumit/sumit_lib/Eliminate.cpp:332-347 | tidying keeps the cells, keeps signs of ±1 and keeps exactly the equation's solutions |
| `Eliminations.Consolidation` | sumit/sumit_lib/Eliminate.cpp:349-460 | consolidation leaves tidied equations, none empty, all naming cells of the table |
| `Eliminations.ConsolidationSound` | sumit/sumit_lib/Eliminate.cpp:349-460 | consolidation keeps one equation per equation with a suppressed cell, over suppressed cells only, and every table the published figures and the consistency equations allow satisfies them |
| `Eliminations.SimplifyEquation` | sumit/sumit_lib/Eliminate.cpp:472-511 | one equation's case of the simplification removes only terms it had, and the count removed plus the terms left is the old size |
| `Eliminations.SimplifyEach` | sumit/sumit_lib/Eliminate.cpp:471-512 | the pass simplifies each equation on its own, and its count is the number of terms removed |
| `Eliminations.Simplified` | sumit/sumit_lib/Eliminate.cpp:462-515 | simplification returns the number of terms removed and leaves tidied equations, each with a subset of its terms |
| `Eliminations.SimplifyFromSound` | sumit/sumit_lib/Eliminate.cpp:486-509 | removing known terms leaves each equation's sum minus right-hand side unchanged for every table within the bounds |
| `Eliminations.SimplifyEquationSound` | sumit/sumit_lib/Eliminate.cpp:472-511 | simplifying keeps an equation satisfied by every table within the bounds that satisfied it |
| `Eliminations.SimplifiedSound` | sumit/sumit_lib/Eliminate.cpp:462-515 | one pass of simplification keeps every equation satisfied by every table within the bounds |
| `Eliminations.SetInitialEquation` | sumit/sumit_lib/Eliminate.cpp:529-572 | one equation's case of the initial bounds changes bounds only, one per cell |
| `Eliminations.SetInitialSound` | sumit/sumit_lib/Eliminate.cpp:517-575 | every table within the bounds that satisfies the tidied equations stays within the new bounds |
| `Eliminations.LowerProcessing` | sumit/sumit_lib/Eliminate.cpp:1259-1410 | the lower processing equation for term `j` targets its cell with the equation's right-hand side, signed, and has no upper additions and no lower subtractions |
| `Eliminations.UpperProcessing` | sumit/sumit_lib/Eliminate.cpp:1259-1410 | the upper processing equation for term `j` targets its cell and has no lower additions and no upper subtractions |
| `Eliminations.ProcessingLists` | sumit/sumit_lib/Eliminate.cpp:1259-1410 | every other term of the equation lands in exactly one list of each processing equation, and the lower and upper equations split the terms the same way |
| `Eliminations.ProcessingSound` | sumit/sumit_lib/Eliminate.cpp:1259-1410 | for every table within the bounds that satisfies the equation, the lower processing equation evaluates at most the cell's value and the upper one at least |
| `Eliminations.RaiseLower` | sumit/sumit_lib/Eliminate.cpp:716-735 | a lower-bound improvement changes only bounds, one per cell |
| `Eliminations.LowerUpper` | sumit/sumit_lib/Eliminate.cpp:774-793 | an upper-bound improvement changes only bounds, one per cell |
| `Eliminations.LowerPass` | sumit/sumit_lib/Eliminate.cpp:681-736 | the lower pass keeps one bound per cell and changes nothing once the function has returned |
| `Eliminations.UpperPass` | sumit/sumit_lib/Eliminate.cpp:738-794 | the upper pass keeps one bound per cell and changes nothing once the function has returned |
| `Eliminations.ImproveAll` | sumit/sumit_lib/Eliminate.cpp:653-812 | improvement keeps one bound per cell |
| `Eliminations.LowerPassStep` | sumit/sumit_lib/Eliminate.cpp:682-736 | each turn of the lower pass evaluates its processing equation on the bounds the earlier turns left |
| `Eliminations.UpperPassStep` | sumit/sumit_lib/Eliminate.cpp:740-794 | each turn of the upper pass evaluates its processing equation on the bounds the earlier turns left |
| `Eliminations.ImproveFromStopped` | sumit/sumit_lib/Eliminate.cpp:724-728 | once a correction has made the function return, the later equations change nothing |
| `Eliminations.ImproveProgress` | sumit/sumit_lib/Eliminate.cpp:653-812 | a call that returned early returns false; no call widens the bounds in total; a call that returns true has narrowed them by more than UNPICKING_PRECISION |
| `Eliminations.ImproveNarrows` | sumit/sumit_lib/Eliminate.cpp:653-812 | on ordered bounds, improvement only raises lower bounds and lowers upper bounds, and keeps them ordered |
| `Eliminations.ImproveSound` | sumit/sumit_lib/Eliminate.cpp:653-812 | for a table within the bounds and [0, grand total] that satisfies the equations, no bound needs correcting and the table stays within the improved bounds |
| `Eliminations.SimplifyLoop` | sumit/sumit_lib/Eliminate.cpp:833-835 | the simplification loop ends; it leaves tidied equations, each with a subset of its terms |
| `Eliminations.SimplifyLoopSound` | sumit/sumit_lib/Eliminate.cpp:833-835 | a table within the bounds that satisfies the equations satisfies those the loop leaves and lies within the bounds it leaves |
| `Eliminations.ImproveUntilStable` | sumit/sumit_lib/Eliminate.cpp:918-921 | the uncapped improvement loop ends and keeps one bound per cell |
| `Eliminations.ImproveCallsBound` | sumit/sumit_lib/Eliminate.cpp:918-921 | the uncapped loop makes at most one call more than the total width of the bounds divided by UNPICKING_PRECISION + 1 |
| `Eliminations.ImproveUntilStableSound` | sumit/sumit_lib/Eliminate.cpp:918-921 | the uncapped loop keeps every admissible table within the bounds |
| `Eliminations.ImproveUntilStableNarrows` | sumit/sumit_lib/Eliminate.cpp:918-921 | on ordered bounds, the uncapped loop only narrows them |
| `Eliminations.ImproveCapped` | sumit/sumit_lib/Eliminate.cpp:842-844 | the capped loop keeps one bound per cell |
| `Eliminations.ImproveCappedSound` | sumit/sumit_lib/Eliminate.cpp:842-844 | the capped loop keeps every admissible table within the bounds |
| `Eliminations.Attack` | sumit/sumit_lib/Eliminate.cpp:900-935 | the attack of `SafeToRemoveSecondaryCell` leaves equations with subsets of their terms and one bound per cell |
| `Eliminations.AttackSound` | sumit/sumit_lib/Eliminate.cpp:900-935 | every admissible table satisfies the equations the attack leaves and lies within its bounds |
| `Eliminations.Recorded` | sumit/sumit_lib/Eliminate.cpp:832-845 | the attack of `RecordExistingExposure` reports success exactly when no equation is empty |
| `Eliminations.RecordedSound` | sumit/sumit_lib/Eliminate.cpp:832-845 | every admissible table satisfies the equations that attack leaves and lies within its bounds |
| `Eliminations.LowerTarget` | sumit/sumit_lib/Eliminate.cpp:597-602 | the lower target is the nominal value less the lower protection level, or 1 when that is negative |
| `Eliminations.ExposureOf` | sumit/sumit_lib/Eliminate.cpp:604-615 | a primary is found exactly when its bounds coincide, and intact exactly when both bounds clear the protection levels by the safety margin |
| `Eliminations.TallyOf` | sumit/sumit_lib/Eliminate.cpp:592-615 | the found and broken counters together count at most the listed cells |
| `Eliminations.PrimaryTallySnoc` | sumit/sumit_lib/Eliminate.cpp:846-875 | scanning one more cell adds its exposure exactly when it is primary |
| `Eliminations.ExposureNarrowing` | sumit/sumit_lib/Eliminate.cpp:604-615 | narrower bounds never un-expose a cell: found stays found, broken stays broken or becomes found |
| `Eliminations.TallyNarrowing` | sumit/sumit_lib/Eliminate.cpp:592-615 | over narrower bounds neither the found count nor the found-and-broken count falls |
| `Eliminations.CensusOf` | sumit/sumit_lib/Eliminate.cpp:1011-1036 | the removable count is at most the secondary count, and primaries plus secondaries at most the terms |
| `Eliminations.Unmark` | sumit/sumit_lib/Eliminate.cpp:1048-1056 | exactly the equation's secondary cells become not removable, every other flag kept |
| `Eliminations.MarkEquation` | sumit/sumit_lib/Eliminate.cpp:1006-1058 | a marking step only clears flags |
| `Eliminations.MarkPass` | sumit/sumit_lib/Eliminate.cpp:1004-1059 | a marking pass only clears flags |
| `Eliminations.InitialRemovable` | sumit/sumit_lib/Eliminate.cpp:990-997 | exactly the secondary cells start as removal candidates |
| `Eliminations.Candidates` | sumit/sumit_lib/Eliminate.cpp:990-1060 | after the six passes only secondary cells are candidates |
| `Eliminations.CandidatesKeepLoneSecondary` | sumit/sumit_lib/Eliminate.cpp:1038-1057 | a secondary cell that alone protects the single primary of a consistency equation is never a candidate |
| `Eliminations.NonEmptyOf` | sumit/sumit_lib/Eliminate.cpp:198-234 | the backup holds only the equations with terms, each one of the originals, and all of them when none is empty |
| `Eliminations.NonEmptyOfIdempotent` | sumit/sumit_lib/Eliminate.cpp:173-234 | a backup taken right after a restore is the same backup |
| `Eliminations.SettledHeaviestFirst` | sumit/sumit_lib/Eliminate.cpp:948-975 | when every position is settled the cells are in non-increasing weight order |
| `Eliminations.IndexInjective` | sumit/sumit_lib/Eliminate.cpp:1203 | distinct (equation, term) pairs map to distinct processing slots |
| `Eliminations.Biggest` | sumit/sumit_lib/Eliminate.cpp:1208-1257 | the largest equation size: it bounds every size, is reached by one equation, and is 0 exactly when no equation has a term |
| `Eliminations.CostOfPublishing` | sumit/sumit_lib/Eliminate.cpp:1191-1201 | publishing a secondary cell lowers the cost by exactly its weight |
| `Eliminations.Exchange` | sumit/sumit_lib/Eliminate.cpp:960-966 | a turn of the ordering loop permutes the order |
| `Eliminations.ExchangeKeeps` | sumit/sumit_lib/Eliminate.cpp:958-968 | a turn of the inner loop keeps the settled prefix, makes position i at least as heavy as every position up to j, and keeps the entries distinct |
| `Eliminations.Judged` | sumit/sumit_lib/Eliminate.cpp:1111-1124 | a trial either publishes the cell and counts it, or keeps it secondary with the bounds restored |
| `Eliminations.Trial` | sumit/sumit_lib/Eliminate.cpp:1103-1126 | one turn of the removal loop publishes cell j and counts it, or restores it and the bounds |
| `Eliminations.EliminationStart` | sumit/sumit_lib/Eliminate.cpp:1086-1095 | the removal loop starts on the table's cells with nothing removed, on the existing consolidated equations when there are any |
| `Eliminations.Eliminated` | sumit/sumit_lib/Eliminate.cpp:1099-1127 | the removal loop removes at most one cell per position of the order |
| `Eliminations.EliminatedSafe` | sumit/sumit_lib/Eliminate.cpp:1099-1127 | once a cell has been removed, the current bounds find and break no more primaries than at the start |
| `Eliminations.EliminatedPublishesOnly` | sumit/sumit_lib/Eliminate.cpp:1099-1127 | only flagged cells of the order change, each from secondary to published |
| `Eliminations.EliminatedCount` | sumit/sumit_lib/Eliminate.cpp:1092-1113 | `number_of_secondary_cells_removed` is exactly the number of cells the loop published |
| `Eliminations.EliminationOutcome` | sumit/sumit_lib/Eliminate.cpp:977-1130 | from a start with nothing removed: only flagged secondary cells are published, the counter counts them, and after any removal no more primaries are found or broken than at the start |
| `Eliminators.ScaleTable` | sumit/sumit_lib/Eliminate.cpp:13-35 | the scaled cells are the table's cells scaled by the precision, and the grand total is theirs |
| `Eliminators.PrimaryCells` | sumit/sumit_lib/Eliminate.cpp:37-44 | the filled array is exactly the primary cells' indices in increasing order |
| `Eliminators.BuildProcessing` | sumit/sumit_lib/Eliminate.cpp:1259-1410 | the two processing equations written for term j are the lower and upper processing equations of the specification |
| `Eliminators.LargestSize` | sumit/sumit_lib/Eliminate.cpp:1208-1257 | the loop computes `biggestConsEqn`, the largest equation size |
| `Eliminators.Eliminate.constructor` | sumit/sumit_lib/Eliminate.cpp:5-69 | the cells and consistency equations are scaled copies of the table's, the grand total and primary list are computed, and no consolidated equation, backup or removal exists yet |
| `Eliminators.Eliminate.InitCellBounds` | sumit/sumit_lib/Eliminate.cpp:100-115 | suppressed cells get [0, grand total] and every other cell is pinned at its scaled nominal value |
| `Eliminators.Eliminate.BackupEquations` | sumit/sumit_lib/Eliminate.cpp:198-234 | the backup becomes the consolidated equations that have terms |
| `Eliminators.Eliminate.RestoreEquations` | sumit/sumit_lib/Eliminate.cpp:173-195 | the consolidated equations become the backup |
| `Eliminators.Eliminate.BackupCellBounds` | sumit/sumit_lib/Eliminate.cpp:237-255 | with no cells the call fails with error 1; otherwise the saved bounds become the current bounds |
| `Eliminators.Eliminate.RestoreCellBounds` | sumit/sumit_lib/Eliminate.cpp:257-275 | with no cells the call fails with error 1; otherwise the current bounds become the saved ones |
| `Eliminators.Eliminate.TidyUp` | sumit/sumit_lib/Eliminate.cpp:332-347 | every consolidated equation is replaced by its tidied form |
| `Eliminators.Eliminate.CountSuppressed` | sumit/sumit_lib/Eliminate.cpp:366-381 | the count of an equation's in-range suppressed cells |
| `Eliminators.Eliminate.ReduceEquation` | sumit/sumit_lib/Eliminate.cpp:417-445 | the consolidated equation written for one consistency equation: its suppressed terms, with the published terms moved into the right-hand side |
| `Eliminators.Eliminate.CountKept` | sumit/sumit_lib/Eliminate.cpp:362-389 | the first pass counts the equations with a suppressed cell |
| `Eliminators.Eliminate.FillKept` | sumit/sumit_lib/Eliminate.cpp:396-449 | the second pass writes exactly the reduced equations, in order |
| `Eliminators.Eliminate.Consolidate` | sumit/sumit_lib/Eliminate.cpp:349-460 | the consolidated equations become the consolidation of the consistency equations |
| `Eliminators.Eliminate.SimplifyEquationIn` | sumit/sumit_lib/Eliminate.cpp:472-511 | one equation simplified on the array bounds, as the specification function says |
| `Eliminators.Eliminate.SimplifyEachIn` | sumit/sumit_lib/Eliminate.cpp:471-512 | the loop over the equations, as the specification function says |
| `Eliminators.Eliminate.Simplify` | sumit/sumit_lib/Eliminate.cpp:462-515 | the equations and the returned count are those of the simplification |
| `Eliminators.Eliminate.SetInitialFor` | sumit/sumit_lib/Eliminate.cpp:529-572 | one equation's case of the initial bounds, on the bounds array |
| `Eliminators.Eliminate.SetInitial` | sumit/sumit_lib/Eliminate.cpp:517-575 | the bounds become the initial bounds set by every equation, and the call returns false exactly when some equation is empty |
| `Eliminators.Eliminate.SimplifyUntilStable` | sumit/sumit_lib/Eliminate.cpp:833-835 | the equations and bounds become those the simplification loop leaves |
| `Eliminators.Eliminate.AllocateProcessing` | sumit/sumit_lib/Eliminate.cpp:1208-1257 | with no equations nothing is allocated; equations that are all empty fail with error 1; otherwise slots for the number of equations times the longest equation are allocated and every equation fits |
| `Eliminators.Eliminate.WriteSlot` | sumit/sumit_lib/Eliminate.cpp:1259-1410 | writes slot (i, j) and keeps every slot already written |
| `Eliminators.Eliminate.SetUpProcessing` | sumit/sumit_lib/Eliminate.cpp:1259-1410 | every (equation, term) slot holds its two processing equations |
| `Eliminators.Eliminate.Accumulate` | sumit/sumit_lib/Eliminate.cpp:689-713 | one of the four inner loops: the result plus or minus the chosen bounds of the listed cells |
| `Eliminators.Eliminate.EvaluateIn` | sumit/sumit_lib/Eliminate.cpp:685-713 | a processing equation evaluated on the bounds array |
| `Eliminators.Eliminate.RaiseLowerIn` | sumit/sumit_lib/Eliminate.cpp:716-735 | the lower-bound update on the array, as the specification function says |
| `Eliminators.Eliminate.LowerUpperIn` | sumit/sumit_lib/Eliminate.cpp:774-793 | the upper-bound update on the array, as the specification function says |
| `Eliminators.Eliminate.LowerPassIn` | sumit/sumit_lib/Eliminate.cpp:681-736 | the lower pass over one equation, as the specification function says |
| `Eliminators.Eliminate.UpperPassIn` | sumit/sumit_lib/Eliminate.cpp:738-794 | the upper pass over one equation, as the specification function says |
| `Eliminators.Eliminate.ImproveEquationIn` | sumit/sumit_lib/Eliminate.cpp:676-801 | the two passes over one equation |
| `Eliminators.Eliminate.Improve` | sumit/sumit_lib/Eliminate.cpp:653-812 | the bounds and the returned flag are those of `ImproveAll` |
| `Eliminators.Eliminate.ImproveToFixpoint` | sumit/sumit_lib/Eliminate.cpp:918-921 | the bounds become those of the uncapped improvement loop |
| `Eliminators.Eliminate.ImproveAtMostSix` | sumit/sumit_lib/Eliminate.cpp:842-844 | the bounds become those of the capped improvement loop |
| `Eliminators.Eliminate.ExposureIn` | sumit/sumit_lib/Eliminate.cpp:597-615 | the exposure of one primary cell, as the specification function says |
| `Eliminators.Eliminate.GetSafety` | sumit/sumit_lib/Eliminate.cpp:577-651 | safe exactly when no more primaries are found and none more are broken than at the start |
| `Eliminators.Eliminate.CountExposed` | sumit/sumit_lib/Eliminate.cpp:846-875 | the counters of found and broken primaries over the current bounds |
| `Eliminators.Eliminate.RecordExistingExposure` | sumit/sumit_lib/Eliminate.cpp:814-898 | the equations and bounds become those of its attack, and the initial counters are the exposure they show (0 and 0 when some equation is empty) |
| `Eliminators.Eliminate.SafeToRemove` | sumit/sumit_lib/Eliminate.cpp:900-935 | the equations and bounds become those of the attack, and the answer is `getSafety`'s on them |
| `Eliminators.Eliminate.TryRemove` | sumit/sumit_lib/Eliminate.cpp:1103-1126 | one removal trial: the state becomes the specification's `Trial`, with the backup and saved bounds taken afresh |
| `Eliminators.Eliminate.AttackCell` | sumit/sumit_lib/Eliminate.cpp:1105-1111 | cell j is published and pinned, the backups hold the state before, and the attack runs on it |
| `Eliminators.Eliminate.KeepRemoval` | sumit/sumit_lib/Eliminate.cpp:1111-1117 | a safe attack counts the removal and backs up the new state |
| `Eliminators.Eliminate.UndoRemoval` | sumit/sumit_lib/Eliminate.cpp:1118-1124 | an unsafe attack puts the cell back to secondary and restores the equations and bounds |
| `Eliminators.Eliminate.Publish` | sumit/sumit_lib/Eliminate.cpp:1107-1109 | only cell j changes: it becomes safe, with its bounds pinned at its nominal value |
| `Eliminators.Eliminate.CensusIn` | sumit/sumit_lib/Eliminate.cpp:1011-1036 | the counts of one equation, as the specification function says |
| `Eliminators.Eliminate.UnmarkIn` | sumit/sumit_lib/Eliminate.cpp:1048-1056 | the flags of the equation's secondary cells are cleared |
| `Eliminators.Eliminate.MarkEquationIn` | sumit/sumit_lib/Eliminate.cpp:1006-1058 | one equation's marking step on the flags |
| `Eliminators.Eliminate.MarkPassIn` | sumit/sumit_lib/Eliminate.cpp:1004-1059 | one marking pass on the flags |
| `Eliminators.Eliminate.MarkCandidates` | sumit/sumit_lib/Eliminate.cpp:990-1060 | the flags become the candidates after six passes |
| `Eliminators.Eliminate.InitOrderedCells` | sumit/sumit_lib/Eliminate.cpp:948-975 | the ordered cells are a permutation of the cell indices in non-increasing weight order |
| `Eliminators.Eliminate.FillOrderedCells` | sumit/sumit_lib/Eliminate.cpp:954-956 | the ordered cells start as `0..ncells-1` |
| `Eliminators.Eliminate.SortOrderedCells` | sumit/sumit_lib/Eliminate.cpp:958-968 | the exchange loop leaves a permutation of the indices in non-increasing weight order |
| `Eliminators.Eliminate.ExchangeIn` | sumit/sumit_lib/Eliminate.cpp:960-966 | one turn of the exchange loop, keeping the entries |
| `Eliminators.Eliminate.EliminateSecondary` | sumit/sumit_lib/Eliminate.cpp:977-1130 | the flags become the candidates; with no cells the call fails with error 1; otherwise the state becomes the removal loop's over the ordered cells |
| `Eliminators.Eliminate.PrepareRemoval` | sumit/sumit_lib/Eliminate.cpp:1086-1095 | the start of the removal loop: consolidated equations (afresh when none), backups, initial bounds and nothing removed |
| `Eliminators.Eliminate.RemovalLoop` | sumit/sumit_lib/Eliminate.cpp:1099-1127 | the state becomes the one the specification's removal loop reaches over the ordered cells |
| `Eliminators.Eliminate.RemoveNext` | sumit/sumit_lib/Eliminate.cpp:1102-1126 | one more position of the removal loop |
| `Eliminators.Eliminate.GetCost` | sumit/sumit_lib/Eliminate.cpp:1191-1201 | the cost is the total weight of the suppressed cells |
| `Eliminators.Eliminate.RemoveExcessSuppression` | sumit/sumit_lib/Eliminate.cpp:1152-1189 | fails exactly when there is no consolidated equation; otherwise only removable secondary cells are published, the safe count grows by the number removed, no more primaries are exposed after a removal, the cells were tried heaviest first and the equations are consolidated afresh |
| `Eliminators.Eliminate.RecordAndEliminate` | sumit/sumit_lib/Eliminate.cpp:1167-1173 | recording the exposure then eliminating publishes only removable secondary cells, counts them, and exposes no more primaries |
| `Eliminators.Eliminate.PrepareTables` | sumit/sumit_lib/Eliminate.cpp:1157-1163 | fails exactly when there is no consolidated equation; otherwise the equations are consolidated and the processing arrays allocated |
| `Eliminators.Eliminate.EliminateChecked` | sumit/sumit_lib/Eliminate.cpp:977-1130 | with cells present elimination succeeds, publishes only removable secondary cells, counts them and exposes no more primaries |
| `Evaluations.Cmp` | uwesdc/src/sumit_lib/EvaluationCache.h:38-57 | keys are ordered by model first, then lexicographically by genes |
| `Evaluations.GenesLessIsLexicographic` | uwesdc/src/sumit_lib/EvaluationCache.h:47-54 | the gene comparison holds exactly when the genomes agree on a prefix and then the first one is smaller |
| `Evaluations.CmpIrreflexive` | uwesdc/src/sumit_lib/EvaluationCache.h:38-57 | no key is ordered before itself |
| `Evaluations.CmpAsymmetric` | uwesdc/src/sumit_lib/EvaluationCache.h:38-57 | two keys are never ordered both ways |
| `Evaluations.CmpTransitive` | uwesdc/src/sumit_lib/EvaluationCache.h:38-57 | the order is transitive, so it is a strict weak order the map can rely on |
| `Evaluations.CmpEquivalenceIsEquality` | uwesdc/src/sumit_lib/EvaluationCache.h:38-57 | two keys of one genome length are equivalent under the order exactly when they are equal, so the map holds one entry per (model, genome) |
| `Evaluations.Evaluation.KeyOf` | sumit/sumit_lib/Evaluation.cpp:5-15 | an evaluation's key is its model and its genes |
| `Evaluations.Evaluation.constructor` | sumit/sumit_lib/Evaluation.cpp:5-15 | the evaluation owns a fresh copy of the first `genomeSize` genes |
| `Evaluations.Evaluation.Copy` | sumit/sumit_lib/Evaluation.cpp:17-27 | the copy has the same key and genome size in a fresh array |
| `Evaluations.Evaluation.Equals` | sumit/sumit_lib/Evaluation.cpp:33-46 | equal exactly when the model and every gene agree |
| `Evaluations.EqualsIsCmpEquivalence` | sumit/sumit_lib/Evaluation.cpp:33-46 | `equals` agrees with equivalence under the map's order |
| `EvaluationCaches.Tallied` | uwesdc/src/sumit_lib/EvaluationCache.cpp:46-59 | the counters after some lookups of one model: requests grow by the lookups, hits by the hits, misses by the rest, and other models' counters stay |
| `EvaluationCaches.TalliedTwice` | uwesdc/src/sumit_lib/EvaluationCache.cpp:46-59 | two rounds of lookups tally as one round of their sums |
| `EvaluationCaches.EvaluationCache.KeyFor` | uwesdc/src/sumit_lib/EvaluationCache.cpp:46-48 | the key of a lookup is the model with the first `genomeSize` genes |
| `EvaluationCaches.EvaluationCache.constructor` | uwesdc/src/sumit_lib/EvaluationCache.cpp:6-14 | an empty cache with all counters 0 for the three models |
| `EvaluationCaches.EvaluationCache.Cached` | uwesdc/src/sumit_lib/EvaluationCache.cpp:46-59 | answers whether the key is in the cache, counts one request and one hit or miss for the model, and nothing else changes |
| `EvaluationCaches.EvaluationCache.CachedAll` | uwesdc/src/sumit_lib/EvaluationCache.cpp:46-59 | one lookup per key: flags the uncached keys and tallies the lookups and hits |
| `EvaluationCaches.EvaluationCache.JJFile` | uwesdc/src/sumit_lib/EvaluationCache.cpp:61-70 | the cached JJ file name, or none when the key is absent |
| `EvaluationCaches.EvaluationCache.Costs` | uwesdc/src/sumit_lib/EvaluationCache.cpp:72-85 | copies the cached costs into the buffer and returns their number, or 0 with the buffer untouched when the key is absent |
| `EvaluationCaches.EvaluationCache.Fitness` | uwesdc/src/sumit_lib/EvaluationCache.cpp:87-96 | the cached fitness, or 0 when the key is absent |
| `EvaluationCaches.EvaluationCache.Add` | uwesdc/src/sumit_lib/EvaluationCache.cpp:98-136 | the key maps to the new entry (a copy of the costs), and a replaced entry's JJ file is removed |
| `Evaluations.GenesLessIrreflexive` | uwesdc/src/sumit_lib/EvaluationCache.h:47-54 | no genome is less than itself |
| `Evaluations.GenesLessAsymmetric` | uwesdc/src/sumit_lib/EvaluationCache.h:47-54 | two genomes of one length are never less than each other both ways |
| `Evaluations.GenesLessTransitive` | uwesdc/src/sumit_lib/EvaluationCache.h:47-54 | the gene comparison is transitive on genomes of one length |
| `Evaluations.GenesLessTotal` | uwesdc/src/sumit_lib/EvaluationCache.h:47-54 | two different genomes of one length are ordered one way or the other |
| `FitnessEvaluation.SlotKey` | sumit/sumit_lib/GAProtection.cpp:1357 | an individual's key is the call's model with its first N genes |
| `FitnessEvaluation.DeletedFile` | uwesdc/src/sumit_lib/EvaluationCache.cpp:98-136 | `add` deletes at most one file, and one exactly when it replaces an entry that holds a JJ file |
| `FitnessEvaluation.Turn` | sumit/sumit_lib/GAProtection.cpp:1381-1555 | one turn of the loop body for slot i: when it finishes, the run still fits the call, and it leaves `complete` true only when it was |
| `FitnessEvaluation.Started` | sumit/sumit_lib/GAProtection.cpp:1401-1421 | opening a session for slot i changes only the slots and the requests, not the pool |
| `FitnessEvaluation.Completion` | sumit/sumit_lib/GAProtection.cpp:1460-1532 | a completed solver run keeps the pool's shape and the run's fit to the call |
| `FitnessEvaluation.PassTo` | sumit/sumit_lib/GAProtection.cpp:1380-1556 | a pass over the slots keeps the pool's size and the run's fit to the call |
| `FitnessEvaluation.Scheduled` | sumit/sumit_lib/GAProtection.cpp:1377-1562 | when the do-while loop finishes it has ended with a complete pass |
| `FitnessEvaluation.Loaded` | sumit/sumit_lib/GAProtection.cpp:1333-1349 | the first loop keeps one individual per slot, each of the same shape |
| `FitnessEvaluation.Begin` | sumit/sumit_lib/GAProtection.cpp:1333-1373 | the loop's starting state fits the call and has one slot per individual |
| `FitnessEvaluation.Representative` | sumit/sumit_lib/GAProtection.cpp:1565-1582 | a duplicate is filled from the first individual with its genome |
| `FitnessEvaluation.Filled` | sumit/sumit_lib/GAProtection.cpp:1565-1582 | the last loop keeps one individual per slot |
| `FitnessEvaluation.Evaluated` | sumit/sumit_lib/GAProtection.cpp:1320-1595 | a finished call keeps one individual per slot |
| `FitnessEvaluation.NeedersDistinct` | sumit/sumit_lib/GAProtection.cpp:1363-1373 | two slots that need a solver never share a key: every later copy is marked duplicate |
| `FitnessEvaluation.BeginKeeps` | sumit/sumit_lib/GAProtection.cpp:1333-1373 | the starting state meets the loop invariant |
| `FitnessEvaluation.TurnKeeps` | sumit/sumit_lib/GAProtection.cpp:1381-1555 | one turn keeps the invariant, changes no other slot's status, and leaves `complete` true only when slot i is settled |
| `FitnessEvaluation.PassKeeps` | sumit/sumit_lib/GAProtection.cpp:1380-1556 | a pass keeps the invariant, and a complete pass has settled every slot it visited |
| `FitnessEvaluation.ScheduledKeeps` | sumit/sumit_lib/GAProtection.cpp:1377-1562 | when the loop ends the invariant holds and every slot is complete or a duplicate |
| `FitnessEvaluation.SettledSolvesAll` | sumit/sumit_lib/GAProtection.cpp:1377-1562 | once every slot is settled, every key that needed a solver has been solved, and each duplicate's first holder is complete |
| `FitnessEvaluation.FilledAgrees` | sumit/sumit_lib/GAProtection.cpp:1565-1582 | after the last loop every individual carries the cached result for its key, its genes unchanged |
| `FitnessEvaluation.FinalCount` | sumit/sumit_lib/GAProtection.cpp:1207-1260 | the cache ends with its old keys plus the missing ones: `solvers_required` more |
| `FitnessEvaluation.EvaluatedSound` | sumit/sumit_lib/GAProtection.cpp:1320-1595 | a finished call leaves every individual with its genome and the cached or solved costs and fitness of its key (a duplicate gets its first twin's), keeps the old entries, adds exactly the missing keys, counts one evaluation per solver run (counted only when asked), and requests one run per missing key |
| `FitnessEvaluation.PassIdle` | sumit/sumit_lib/GAProtection.cpp:1380-1556 | a pass over settled slots with no countdown changes nothing and stays complete |
| `FitnessEvaluation.NothingToSolve` | sumit/sumit_lib/GAProtection.cpp:1320-1595 | when every individual is cached or a copy of a cached one, the call opens no session, polls nothing, and changes neither the cache nor the counters |
| `FitnessLoops.BackOff` | sumit/sumit_lib/GAProtection.cpp:1424-1439 | when no session is free for slot i, the slots change exactly as the specification's busy step says: the delay is raised and every slot waiting for a session takes it |
| `FitnessLoops.ResetWaiting` | sumit/sumit_lib/GAProtection.cpp:1527-1532 | every slot waiting for a session has its delay and countdown set to 0; every other slot keeps them |
| `FitnessLoops.Allocate` | sumit/sumit_lib/GAProtection.cpp:1384-1442 | opening a session for slot i ends in the outcome, state and `complete` flag of the specification's turn |
| `FitnessLoops.Store` | sumit/sumit_lib/GAProtection.cpp:1463-1490 | the individual takes the polled costs and fitness, the cache maps its key to them (with the JJ file only when kept), and exactly the replaced entry's file is deleted |
| `FitnessLoops.Complete` | sumit/sumit_lib/GAProtection.cpp:1460-1535 | a completed run leaves the state the specification's completion gives, and opens no session |
| `FitnessLoops.PollSolver` | sumit/sumit_lib/GAProtection.cpp:1445-1547 | polling slot i ends in the outcome, state and `complete` flag of the specification's turn |
| `FitnessLoops.Visit` | sumit/sumit_lib/GAProtection.cpp:1381-1555 | the loop body for slot i ends in the outcome, state and `complete` flag of the specification's turn |
| `FitnessLoops.PassFails` | sumit/sumit_lib/GAProtection.cpp:1380-1556 | a pass that failed at slot k ends there: visiting further slots changes nothing |
| `FitnessLoops.Pass` | sumit/sumit_lib/GAProtection.cpp:1380-1556 | one pass over all slots ends in the outcome and state of the specification's pass |
| `FitnessLoops.Schedule` | sumit/sumit_lib/GAProtection.cpp:1377-1562 | the do-while loop ends in the outcome and state of the specification's loop |
| `FitnessLoops.Lookup` | sumit/sumit_lib/GAProtection.cpp:1333-1349 | the lookup hits exactly when the key is cached; a hit copies the cached costs and fitness into the individual; the counters record one request and the hit or miss |
| `FitnessLoops.LoadSlot` | sumit/sumit_lib/GAProtection.cpp:1333-1349 | one step of the first loop keeps its invariant one slot further |
| `FitnessLoops.LoadCached` | sumit/sumit_lib/GAProtection.cpp:1333-1349 | the pool ends as the specification's `Loaded`; a cached slot is complete and any other waits for a session, with no delay; the counters record n requests and the hits |
| `FitnessLoops.LookedUp` | sumit/sumit_lib/GAProtection.cpp:1333-1349 | one more lookup extends the tally of the lookups before it |
| `FitnessLoops.EvaluationsFor` | sumit/sumit_lib/GAProtection.cpp:1355-1361 | exactly the slots waiting for a session get a request, for their own key |
| `FitnessLoops.MarkCopies` | sumit/sumit_lib/GAProtection.cpp:1363-1373 | every slot ends with its initial status: complete when cached, a duplicate when an earlier uncached slot has its key, otherwise waiting |
| `FitnessLoops.FillOthers` | sumit/sumit_lib/GAProtection.cpp:1565-1582 | filling slot j leaves the fill state of the other slots as it was |
| `FitnessLoops.FillStep` | sumit/sumit_lib/GAProtection.cpp:1565-1582 | comparing individual i with slot j fills j exactly when it is an uncompleted duplicate of i |
| `FitnessLoops.RepresentativeOf` | sumit/sumit_lib/GAProtection.cpp:1565-1582 | a duplicate's representative is an earlier, uncached slot that is not a duplicate |
| `FitnessLoops.FillOne` | sumit/sumit_lib/GAProtection.cpp:1565-1582 | one comparison keeps the fill invariant one slot further |
| `FitnessLoops.FillCopies` | sumit/sumit_lib/GAProtection.cpp:1565-1582 | the pool ends as the specification's `Filled`; slots past n are unchanged |
| `FitnessLoops.FilledShaped` | sumit/sumit_lib/GAProtection.cpp:1565-1582 | filling keeps every genome of g genes with costs within g |
| `FitnessLoops.FillPool` | sumit/sumit_lib/GAProtection.cpp:1565-1582 | the pool ends as `Filled` and keeps its shape |
| `FitnessLoops.DuplicatesStay` | sumit/sumit_lib/GAProtection.cpp:1377-1562 | a finished loop marks as duplicates exactly the slots that started as duplicates |
| `FitnessLoops.MarkAll` | sumit/sumit_lib/GAProtection.cpp:1355-1373 | every slot gets its initial status, and exactly the uncached slots get a request for their key |
| `FitnessLoops.Prepare` | sumit/sumit_lib/GAProtection.cpp:1333-1373 | the slots start as the specification's `StartSlots`, the pool as `Loaded`, and the requests are those of the uncached slots |
| `FitnessLoops.EvaluatePool` | sumit/sumit_lib/GAProtection.cpp:1320-1595 | `evaluate_fitness` leaves the pool, cache, deleted files and counters the specification's `Evaluated` gives, with the lookup counters tallied; slots past n are unchanged |
| `GAProtections.EvaluationCap` | sumit/sumit_lib/GAProtection.cpp:195-205 | the evaluation cap is the one the pool sizes give for n genes |
| `GAProtections.PmxEnded` | sumit/sumit_lib/GAProtection.cpp:507-555 | partially mapped crossover finishes exactly when it produced an offspring |
| `GAProtections.Recombined` | sumit/sumit_lib/GAProtection.cpp:755-824 | a finished recombination yields a genome of the parents' length |
| `GAProtections.OrderRecombinationKeepsGenes` | sumit/sumit_lib/GAProtection.cpp:690-739 | order crossover of two orderings of the same distinct genes always finishes, yields an ordering of the same genes, and keeps the first parent's genes between the cuts |
| `GAProtections.BlankPool` | sumit/sumit_lib/GAProtection.cpp:224-250 | a new pool holds `size` individuals, each with n zero genes, no costs and fitness 0 |
| `GAProtections.Mutated` | sumit/sumit_lib/GAProtection.cpp:947-993 | every mutation kind keeps the genome's length and its genes (a permutation of them) |
| `GAProtections.CycleAt` | sumit/sumit_lib/GAProtection.cpp:947-993 | the mutation type cycled s times stays one of the four kinds |
| `GAProtections.CycleAtMod` | sumit/sumit_lib/GAProtection.cpp:947-993 | cycling the mutation type s times is adding s modulo 4 |
| `GAProtections.KindFor` | sumit/sumit_lib/GAProtection.cpp:947-993 | the assorted algorithm picks one of the four kinds; a fixed algorithm always uses itself |
| `GAProtections.MutatedClone` | sumit/sumit_lib/GAProtection.cpp:947-993 | a mutated clone keeps its genes as a permutation; each random clone is a full-rate swap mutation |
| `GAProtections.MutatedPool` | sumit/sumit_lib/GAProtection.cpp:947-993 | mutating the pool keeps its size |
| `GAProtections.MutatedPoolAt` | sumit/sumit_lib/GAProtection.cpp:947-993 | clone c is mutated when c is below k and unchanged otherwise, and keeps its genes as a permutation of n |
| `GAProtections.MutatedPoolShaped` | sumit/sumit_lib/GAProtection.cpp:947-993 | mutating the pool keeps every genome of n genes |
| `GAProtections.MutatedPoolPending` | sumit/sumit_lib/GAProtection.cpp:947-993 | clone k is not yet mutated when only the first k are |
| `GAProtections.MutationKeepsDistinct` | sumit/sumit_lib/GAProtection.cpp:842-945 | every mutation of a genome of distinct genes keeps them distinct |
| `GAProtections.InsertShift` | sumit/sumit_lib/GAProtection.cpp:858-884 | the shifting loop moves gene i to position j as the insert move defines |
| `GAProtections.ScrambleRange` | sumit/sumit_lib/GAProtection.cpp:886-916 | the scrambling loop does the drawn swaps within the range |
| `GAProtections.FittestIn` | sumit/sumit_lib/GAProtection.cpp:1001-1040 | the clone picked is the one the specification of `get_fittest_clone` gives |
| `GAProtections.LeastFitnessAt` | sumit/sumit_lib/GAProtection.cpp:1001-1040 | the scan finds the first index of the least fitness |
| `GAProtections.CountFitness` | sumit/sumit_lib/GAProtection.cpp:1001-1040 | the loop counts the clones whose fitness equals the best |
| `GAProtections.PickFitness` | sumit/sumit_lib/GAProtection.cpp:1001-1040 | the selection-th clone with the best fitness is picked, or error 1 when there is none |
| `GAProtections.InvertRange` | sumit/sumit_lib/GAProtection.cpp:918-945 | the inversion loop swaps the range's ends inward, half its width times |
| `GAProtections.SwapGenes` | sumit/sumit_lib/GAProtection.cpp:842-856 | the loop performs the swap mutation |
| `GAProtections.InsertGenes` | sumit/sumit_lib/GAProtection.cpp:858-884 | the loop performs the insert mutation |
| `GAProtections.ScrambleGenes` | sumit/sumit_lib/GAProtection.cpp:886-916 | the loop performs the scramble mutation |
| `GAProtections.InvertGenes` | sumit/sumit_lib/GAProtection.cpp:918-945 | the loop performs the inversion mutation |
| `GAProtections.MutateGenes` | sumit/sumit_lib/GAProtection.cpp:947-993 | the switch applies the mutation of the given kind |
| `GAProtections.MarkDuplicates` | sumit/sumit_lib/GAProtection.cpp:1207-1260 | a genome needs a solver exactly when it is uncached and no earlier one has its key |
| `GAProtections.CountMarked` | sumit/sumit_lib/GAProtection.cpp:1207-1260 | the count is the number of solvers required |
| `GAProtections.ShuffleGenes` | sumit/sumit_lib/GAProtection.cpp:1262-1286 | the shuffle swaps each position with its drawn partner |
| `GAProtections.ReverseGenes` | sumit/sumit_lib/IncrementalGAProtection.cpp:33-36 | the genes come out in reverse order |
| `GAProtections.SeedsRequired` | sumit/sumit_lib/IncrementalGAProtection.cpp:26-42 | the two seeds of distinct genes need two solvers, one when there is a single gene |
| `GAProtections.SeededFill` | sumit/sumit_lib/IncrementalGAProtection.cpp:26-39 | filling the seeded pool keeps both seeds and fills every slot with an ordering of the seed; the seeds leave room to fill; a fill that finishes leaves exactly as many distinct uncached parents as the target, so every one of them needs a solver |
| `GAProtections.EvaluatedCounts` | sumit/sumit_lib/GAProtection.cpp:1320-1595 | a finished evaluation keeps every genome, adds one evaluation per solver required (counted only when asked), and issues runs only for the call's protection, model and cost ceiling |
| `GAProtections.EvaluatedFacts` | sumit/sumit_lib/GAProtection.cpp:1320-1595 | evaluating one individual caches its key with its fitness; a cached key issues nothing and leaves the cache as it was; an uncached one costs one evaluation |
| `GAProtections.GAProtection.constructor` | sumit/sumit_lib/GAProtection.cpp:10-111 | the pools, the cache and the counters start empty; the sizes and the evaluation cap come from the gene count and cores, all zero without genes; the operators are the default ones |
| `GAProtections.GAProtection.EvaluateFitness` | sumit/sumit_lib/GAProtection.cpp:1320-1595 | the pool, cache and counters end as the specification of `evaluate_fitness` gives; the genes are kept, one evaluation is added per solver required, and the runs are for the call's protection, model and cost ceiling |
| `GAProtections.GAProtection.CallFor` | sumit/sumit_lib/GAProtection.cpp:1320-1595 | the call carries the arguments and keeps the JJ file exactly for the YPLUS model or elimination runs |
| `GAProtections.GAProtection.EvaluateCall` | sumit/sumit_lib/GAProtection.cpp:1320-1595 | the object's pool, cache and counters follow the specification of `evaluate_fitness` for the call |
| `GAProtections.GAProtection.EvaluateBestParent` | sumit/sumit_lib/GAProtection.cpp:1597-1612 | the best parent's YMINUS key is cached with the returned fitness; a cached key issues nothing; the counted evaluations are unchanged and one evaluation is added only for a new key |
| `GAProtections.GAProtection.EvaluateCopy` | sumit/sumit_lib/GAProtection.cpp:1597-1612 | evaluating a copy of the individual caches its YMINUS key with the returned fitness, counting nothing |
| `GAProtections.GAProtection.CopyIndividual` | sumit/sumit_lib/GAProtection.cpp:311-327 | more costs than genes fail with code 1; otherwise only slot index becomes the copy |
| `GAProtections.GAProtection.CopyToMating` | sumit/sumit_lib/GAProtection.cpp:311-327 | only mating slot `slot` becomes the parent |
| `GAProtections.GAProtection.SortPoolByFitness` | sumit/sumit_lib/GAProtection.cpp:284-308 | the first n individuals end as the exchange sort of them by fitness, a permutation; the rest are unchanged |
| `GAProtections.GAProtection.SortPoolRow` | sumit/sumit_lib/GAProtection.cpp:284-308 | one row of the exchange sort on the first n individuals |
| `GAProtections.GAProtection.ExchangeIfFitter` | sumit/sumit_lib/GAProtection.cpp:284-308 | one comparison keeps the row of the exchange sort in step |
| `GAProtections.GAProtection.GetBestParent` | sumit/sumit_lib/GAProtection.cpp:333-347 | the best parent is the first with the least fitness |
| `GAProtections.GAProtection.GetWorstFitness` | sumit/sumit_lib/GAProtection.cpp:349-361 | the result is the greatest fitness among the parents |
| `GAProtections.GAProtection.InvalidOffspring` | sumit/sumit_lib/GAProtection.cpp:256-282 | the offspring is invalid exactly when its genes are not an ordering of 1..N (some value of 1..N is missing or repeated) |
| `GAProtections.GAProtection.CountGenes` | sumit/sumit_lib/GAProtection.cpp:256-282 | the tally holds each gene's number of occurrences |
| `GAProtections.GAProtection.SelectionTruncation` | sumit/sumit_lib/GAProtection.cpp:369-376 | the parents are sorted by fitness, the mating pool holds the two fittest, the rest are unchanged |
| `GAProtections.GAProtection.CopyFirstParents` | sumit/sumit_lib/GAProtection.cpp:369-376 | the mating pool holds the first two parents |
| `GAProtections.GAProtection.SelectionTournament` | sumit/sumit_lib/GAProtection.cpp:378-403 | each mating slot holds the winner of a tournament between the two drawn parents |
| `GAProtections.GAProtection.SelectionProportionate` | sumit/sumit_lib/GAProtection.cpp:405-435 | the mating pool holds the two parents picked in proportion to fitness, both in range |
| `GAProtections.GAProtection.ProportionateScan` | sumit/sumit_lib/GAProtection.cpp:405-435 | the picks are those of the proportionate scan, both in range |
| `GAProtections.GAProtection.TotalFitness` | sumit/sumit_lib/GAProtection.cpp:405-435 | the total is the sum of the parents' fitness |
| `GAProtections.GAProtection.CumulativeFractions` | sumit/sumit_lib/GAProtection.cpp:405-435 | the array holds the cumulative fractions of the total fitness |
| `GAProtections.GAProtection.ScanFractions` | sumit/sumit_lib/GAProtection.cpp:405-435 | the pick is the first fraction at or above the draw |
| `GAProtections.GAProtection.SelectForPoolMating` | sumit/sumit_lib/GAProtection.cpp:437-454 | the mating pool is filled by the configured selection: truncation, tournament or proportionate; any other value leaves it unchanged, and only truncation reorders the parents |
| `GAProtections.GAProtection.SetOffspringGenes` | sumit/sumit_lib/GAProtection.cpp:755-824 | only offspring index takes the genes |
| `GAProtections.GAProtection.PlaceOffspring` | sumit/sumit_lib/GAProtection.cpp:755-824 | only offspring slot takes the genes |
| `GAProtections.GAProtection.FindGeneLocation` | sumit/sumit_lib/GAProtection.cpp:479-493 | a missing gene is error 1; a present one is found at its last position |
| `GAProtections.GAProtection.MapGene` | sumit/sumit_lib/GAProtection.cpp:495-505 | the result is the specification's gene mapping on the two mating parents |
| `GAProtections.GAProtection.StartSegment` | sumit/sumit_lib/GAProtection.cpp:527-533 | the offspring starts as the first parent between the cuts and unfilled elsewhere |
| `GAProtections.GAProtection.CrossoverPartiallyMapped` | sumit/sumit_lib/GAProtection.cpp:507-555 | with room, an offspring produced by partially mapped crossover is placed next and counted; a full pool is left alone |
| `GAProtections.GAProtection.PartiallyMapped` | sumit/sumit_lib/GAProtection.cpp:507-555 | the result is partially mapped crossover of the two mating parents |
| `GAProtections.GAProtection.MapSegment` | sumit/sumit_lib/GAProtection.cpp:535-545 | the loop maps every gene of the second parent's segment |
| `GAProtections.GAProtection.MapTurn` | sumit/sumit_lib/GAProtection.cpp:536-544 | one gene of the segment is mapped as the specification says |
| `GAProtections.GAProtection.FillFromParent` | sumit/sumit_lib/GAProtection.cpp:547-551 | the unfilled positions take the second parent's genes |
| `GAProtections.GAProtection.NotInGenes` | sumit/sumit_lib/GAProtection.cpp:680-688 | the result holds exactly when the gene is absent |
| `GAProtections.GAProtection.CrossoverOrder` | sumit/sumit_lib/GAProtection.cpp:690-739 | with room, the order-crossover offspring is placed next and counted unless a position is unfilled (failure 1); for orderings of the same distinct genes it always finishes with an ordering that keeps the first parent between the cuts |
| `GAProtections.GAProtection.CountOffspring` | sumit/sumit_lib/GAProtection.cpp:690-739 | an offspring with an unfilled gene fails with code 1 and is not counted; otherwise it is counted |
| `GAProtections.GAProtection.OrderedOffspring` | sumit/sumit_lib/GAProtection.cpp:690-739 | the offspring is the order crossover of the two mating parents |
| `GAProtections.GAProtection.HasUnfilled` | sumit/sumit_lib/GAProtection.cpp:690-739 | the result holds exactly when some gene is unfilled |
| `GAProtections.GAProtection.CrossoverDistancePreserving` | sumit/sumit_lib/GAProtection.cpp:557-674 | a distance-preserving offspring is placed next and counted, or failure 1; a finished offspring repeats no gene |
| `GAProtections.GAProtection.CrossoverEdge` | sumit/sumit_lib/GAProtection.cpp:676-678 | edge crossover is not implemented: failure 1 |
| `GAProtections.GAProtection.CrossoverCycle` | sumit/sumit_lib/GAProtection.cpp:741-743 | cycle crossover is not implemented: failure 1 |
| `GAProtections.GAProtection.ValidMating` | sumit/sumit_lib/GAProtection.cpp:745-753 | a parent is valid exactly when its genes are cell indices |
| `GAProtections.GAProtection.ApplyCrossover` | sumit/sumit_lib/GAProtection.cpp:755-824 | the outcome is that of the crossing; a finished one fills the offspring pool |
| `GAProtections.GAProtection.Recombine` | sumit/sumit_lib/GAProtection.cpp:755-824 | the two mating parents are recombined by the configured crossover or copied; a finished one fills the offspring pool |
| `GAProtections.GAProtection.CopyToOffspring` | sumit/sumit_lib/GAProtection.cpp:803-821 | the parent is copied to the offspring slot and counted when it is in the pool; otherwise nothing changes |
| `GAProtections.GAProtection.DuplicateClones` | sumit/sumit_lib/GAProtection.cpp:826-830 | every clone is the offspring |
| `GAProtections.GAProtection.MutationSwap` | sumit/sumit_lib/GAProtection.cpp:842-856 | only the clone takes the swap mutation of its genes |
| `GAProtections.GAProtection.RandomiseClone` | sumit/sumit_lib/GAProtection.cpp:838-840 | only the clone takes the full-rate swap mutation of its genes |
| `GAProtections.GAProtection.MutationInsert` | sumit/sumit_lib/GAProtection.cpp:858-884 | only the clone takes the insert mutation of its genes |
| `GAProtections.GAProtection.MutationScramble` | sumit/sumit_lib/GAProtection.cpp:886-916 | only the clone takes the scramble mutation of its genes |
| `GAProtections.GAProtection.MutationInversion` | sumit/sumit_lib/GAProtection.cpp:918-945 | only the clone takes the inversion mutation of its genes |
| `GAProtections.GAProtection.ApplyMutation` | sumit/sumit_lib/GAProtection.cpp:947-993 | the clones become the mutated pool (one random clone while the parent pool is not full), and an assorted mutation type has advanced once per default clone mutated |
| `GAProtections.GAProtection.AdvanceMutationType` | sumit/sumit_lib/GAProtection.cpp:947-993 | the mutation type becomes the cycled one |
| `GAProtections.GAProtection.SwapRandomClones` | sumit/sumit_lib/GAProtection.cpp:947-993 | the random clones are fully swap-mutated |
| `GAProtections.GAProtection.MutateDefaultClones` | sumit/sumit_lib/GAProtection.cpp:947-993 | the remaining default clones are mutated, the type cycling for each |
| `GAProtections.GAProtection.MutateNextClone` | sumit/sumit_lib/GAProtection.cpp:947-993 | one more clone is mutated and the type cycled |
| `GAProtections.GAProtection.StoreClones` | sumit/sumit_lib/GAProtection.cpp:947-993 | the clone pool holds the given clones |
| `GAProtections.GAProtection.GetFittestClone` | sumit/sumit_lib/GAProtection.cpp:1001-1040 | the clone picked is the one the specification of `get_fittest_clone` gives for the first clones |
| `GAProtections.GAProtection.PutClone` | sumit/sumit_lib/GAProtection.cpp:311-327 | only parent slot `slot` becomes the clone |
| `GAProtections.GAProtection.ReplaceNothing` | sumit/sumit_lib/GAProtection.cpp:1042-1050 | the fittest clone is appended to the parents, or failure 1 changes nothing |
| `GAProtections.GAProtection.ReplaceOldest` | sumit/sumit_lib/GAProtection.cpp:1052-1064 | the fittest clone replaces the oldest parent, or failure 1 changes nothing |
| `GAProtections.GAProtection.ReplaceWorst` | sumit/sumit_lib/GAProtection.cpp:1066-1082 | the fittest clone replaces the worst parent when fitter, or failure 1 changes nothing |
| `GAProtections.GAProtection.SortParents` | sumit/sumit_lib/GAProtection.cpp:284-308 | the parents are sorted by fitness; the slots past the pool are unchanged |
| `GAProtections.GAProtection.ReplaceTournament` | sumit/sumit_lib/GAProtection.cpp:1084-1098 | the fittest clone replaces by tournament, or failure 1 changes nothing |
| `GAProtections.GAProtection.ReplaceWorstByTournament` | sumit/sumit_lib/GAProtection.cpp:1100-1116 | the fittest clone replaces the worst parent by tournament, or failure 1 changes nothing |
| `GAProtections.GAProtection.LeastFitParent` | sumit/sumit_lib/GAProtection.cpp:1100-1116 | the result is the first parent with the greatest fitness |
| `GAProtections.GAProtection.Replacement` | sumit/sumit_lib/GAProtection.cpp:1118-1143 | a parent pool that is not full grows by the fittest clone; a full one is replaced into by the configured policy; an unknown policy changes nothing; failure 1 changes nothing |
| `GAProtections.GAProtection.SolversRequired` | sumit/sumit_lib/GAProtection.cpp:1207-1260 | the count is the number of distinct uncached keys, and the lookup counters are tallied |
| `GAProtections.GAProtection.SetParentGenes` | sumit/sumit_lib/GAProtection.cpp:1262-1286 | only parent index takes the genes |
| `GAProtections.GAProtection.ShuffleParent` | sumit/sumit_lib/GAProtection.cpp:1262-1286 | only the parent takes the shuffle of its genes |
| `GAProtections.GAProtection.SeedParents` | sumit/sumit_lib/IncrementalGAProtection.cpp:26-36 | every parent in the pool holds the seed, except parent 1, which holds it reversed |
| `GAProtections.GAProtection.SeedAndFill` | sumit/sumit_lib/IncrementalGAProtection.cpp:26-39 | after seeding and filling every parent is an ordering of the seed, parents 0 and 1 hold the seed and its reverse, and the cache is still empty; a fill that finishes leaves pool_parent_size parents that each need a solver |
| `GAProtections.GAProtection.FillSeeded` | sumit/sumit_lib/IncrementalGAProtection.cpp:39 | filling keeps both seeds and leaves every parent an ordering of the seed; when it finishes, the pool_parent_size parents need pool_parent_size solvers |
| `GAProtections.GAProtection.Initialise` | sumit/sumit_lib/IncrementalGAProtection.cpp:21-42 | the constructor's search setup leaves the parents orderings of the seed with both seeds in place, the best parent's YMINUS key cached, at most one uncounted evaluation more, and exactly pool_parent_size counted evaluations more |
| `GAProtections.GAProtection.EvaluateParents` | sumit/sumit_lib/IncrementalGAProtection.cpp:41-42 | evaluating the parents and the best parent keeps the genes, caches the best parent's YMINUS key, adds at most one uncounted evaluation and counts one evaluation per parent key that needs a solver |
| `GAProtections.GAProtection.EvaluateSeeded` | sumit/sumit_lib/IncrementalGAProtection.cpp:41 | evaluating the parents keeps their genes, adds no uncounted evaluation and counts one evaluation per parent key that needs a solver |
| `GAProtections.GAProtection.TryParent` | sumit/sumit_lib/GAProtection.cpp:1262-1286 | one attempt of the fill loop: the next parent is shuffled and looked up as the specification's growth step says |
| `GAProtections.GAProtection.TryClone` | sumit/sumit_lib/GAProtection.cpp:1288-1318 | one attempt of the growth loop: the next clone is randomised and looked up as the specification's growth step says |
| `GAProtections.GAProtection.FillParentPool` | sumit/sumit_lib/GAProtection.cpp:1262-1286 | the parents end as the specification's fill gives, finishing when enough solvers are needed; the lookups are tallied |
| `GAProtections.GAProtection.GrowClonesPool` | sumit/sumit_lib/GAProtection.cpp:1288-1318 | the clones end as the specification's growth gives, finishing on enough solvers or attempts; the clones used are at least the default ones and within the pool |
| `GAProtections.GAProtection.TryClones` | sumit/sumit_lib/GAProtection.cpp:1288-1318 | the growth loop ends in the specification's growth, using at least the default clones |
| `GAProtections.GAProtection.GetBestFitness` | sumit/sumit_lib/GAProtection.cpp:329-331 | the result is the least parent fitness |
| `GAProtections.GAProtection.TimeToTerminate` | sumit/sumit_lib/GAProtection.cpp:1151-1185 | with no genes or once terminated it stops and changes nothing; at or above the evaluation cap it stops and marks the search terminated; below the evaluation cap the best fitness becomes the stable one, the stable count grows when it is within precision and resets otherwise, and the search terminates exactly when stable for long enough or out of time |
| `GAProtections.GAProtection.SelectMates` | sumit/sumit_lib/GAProtection.cpp:437-454 | every mating slot holds one of the parents, which are unchanged |
| `GAProtections.GAProtection.Cross` | sumit/sumit_lib/GAProtection.cpp:755-824 | when the mating pool holds orderings of the genes, a finished crossing leaves the offspring orderings too |
| `GAProtections.GAProtection.Mate` | sumit/sumit_lib/IncrementalGAProtection.cpp:54-55 | selection and crossover keep the parents; each mating slot is a parent and the offspring are orderings of the genes |
| `GAProtections.GAProtection.Clone` | sumit/sumit_lib/IncrementalGAProtection.cpp:58-59 | duplicating and mutating an offspring leaves every clone an ordering of its genes |
| `GAProtections.GAProtection.Grow` | sumit/sumit_lib/IncrementalGAProtection.cpp:61 | growing keeps the clones orderings of the genes and uses between the default number and the pool size |
| `GAProtections.GAProtection.EvaluateClones` | sumit/sumit_lib/IncrementalGAProtection.cpp:63 | evaluating the clones keeps them orderings and issues YPLUS runs with the given protection and cost ceiling |
| `GAProtections.GAProtection.Replace` | sumit/sumit_lib/IncrementalGAProtection.cpp:64 | replacement keeps the parents orderings of the genes and grows the parent pool by one at most |
| `GAProtections.GAProtection.Breed` | sumit/sumit_lib/IncrementalGAProtection.cpp:57-65 | one offspring's round keeps the parents orderings, grows the pool by one at most, and issues only YPLUS runs with the given protection and ceiling |
| `GAProtections.GAProtection.BreedAll` | sumit/sumit_lib/IncrementalGAProtection.cpp:57-65 | the generation's rounds grow the parent pool by at most one per offspring and keep it orderings of the genes |
| `GAProtections.GAProtection.EvaluateBest` | sumit/sumit_lib/IncrementalGAProtection.cpp:67 | the best parent's YMINUS key ends cached, with runs only for its genes |
| `GAProtections.GAProtection.Protect` | sumit/sumit_lib/IncrementalGAProtection.cpp:48-69 | no genes or no clones changes nothing; otherwise the worst parent fitness is every clone run's cost ceiling when costs are limited (0 otherwise), the pool grows by at most one per offspring, and the best parent's YMINUS key ends cached |
| `Genomes.Index` | sumit/sumit_lib/GAProtection.cpp:509-514 | a draw in [0, 1) scaled by n truncates to an index below n; a draw of exactly 1 gives n |
| `Genomes.Reversed` | sumit/sumit_lib/IncrementalGAProtection.cpp:33-36 | position k of the reverse holds the gene at N - 1 - k |
| `Genomes.ReversedPermutes` | sumit/sumit_lib/IncrementalGAProtection.cpp:33-36 | reversing keeps the genes (a permutation) |
| `Genomes.Factorial` | sumit/sumit_lib/GAProtection.cpp:196-203 | the product 1·2·…·n is at least 1 |
| `Genomes.FactorialMonotone` | sumit/sumit_lib/GAProtection.cpp:196-203 | the product grows with n |
| `Genomes.MaxEvaluationsValues` | sumit/sumit_lib/GAProtection.cpp:195-205 | the evaluation cap is between 1 and `MAX_EVALUATIONS`: n! for up to 6 genes, the limit from 7 on |
| `Genomes.CountIsMultiplicity` | sumit/sumit_lib/GAProtection.cpp:264-267 | the tally of a value is its multiplicity in the genome |
| `Genomes.ValidOffspringIsOrderOfOneToN` | sumit/sumit_lib/GAProtection.cpp:256-282 | `invalid_offspring` passes exactly on the orderings of 1..N |
| `Genomes.OrderOfZeroToNIsInvalid` | sumit/sumit_lib/GAProtection.cpp:269-279 | every ordering of 0..N-1 fails the check, since N is missing |
| `Genomes.SwapMutation` | sumit/sumit_lib/GAProtection.cpp:842-856 | swap mutation keeps the genes (a permutation) |
| `Genomes.InsertMove` | sumit/sumit_lib/GAProtection.cpp:858-884 | moving a gene keeps the genes (a permutation) |
| `Genomes.InsertMoveProperties` | sumit/sumit_lib/GAProtection.cpp:858-884 | the gene at j lands next to i, the genes between shift by one towards j's old place, and every other gene stays |
| `Genomes.InsertAdjacentKeeps` | sumit/sumit_lib/GAProtection.cpp:858-884 | moving a neighbour next to i changes nothing |
| `Genomes.InsertMutation` | sumit/sumit_lib/GAProtection.cpp:858-884 | insert mutation keeps the genes (a permutation) |
| `Genomes.Offsets` | sumit/sumit_lib/GAProtection.cpp:904-913 | every drawn pair scales to two offsets within the range |
| `Genomes.ScrambleSwaps` | sumit/sumit_lib/GAProtection.cpp:904-913 | the scramble's swaps keep the length and touch no gene outside the range |
| `Genomes.ScrambleStep` | sumit/sumit_lib/GAProtection.cpp:904-913 | each swap is of two positions within the range |
| `Genomes.ScrambleSwapsKeepGenes` | sumit/sumit_lib/GAProtection.cpp:904-913 | the scramble's swaps keep the genes (a permutation) |
| `Genomes.Scramble` | sumit/sumit_lib/GAProtection.cpp:886-916 | scrambling a range keeps the genes (a permutation) |
| `Genomes.ScrambleStaysInRange` | sumit/sumit_lib/GAProtection.cpp:886-916 | genes outside the range are not moved |
| `Genomes.ScrambleAdjacent` | sumit/sumit_lib/GAProtection.cpp:886-916 | a range of one gene is left as it is |
| `Genomes.ScrambleMutation` | sumit/sumit_lib/GAProtection.cpp:886-916 | scramble mutation keeps the genes (a permutation) |
| `Genomes.ScrambleMutationStep` | sumit/sumit_lib/GAProtection.cpp:886-916 | gene k scrambles its range exactly when its test draw is at most the rate |
| `Genomes.InversionSwaps` | sumit/sumit_lib/GAProtection.cpp:918-945 | the inversion's swaps keep the length |
| `Genomes.InversionSwapsKeep` | sumit/sumit_lib/GAProtection.cpp:918-945 | the inversion's swaps keep the genes (a permutation) |
| `Genomes.InversionSwapsMirror` | sumit/sumit_lib/GAProtection.cpp:918-945 | after k swaps the outer k pairs are mirrored and the rest kept |
| `Genomes.Inversion` | sumit/sumit_lib/GAProtection.cpp:918-945 | inverting a range keeps the genes (a permutation) |
| `Genomes.InversionReverses` | sumit/sumit_lib/GAProtection.cpp:918-945 | genes outside the range stay; an even-width range is reversed; an odd width reverses all but the middle pair; neighbours are left unchanged |
| `Genomes.InversionMutation` | sumit/sumit_lib/GAProtection.cpp:918-945 | inversion mutation keeps the genes (a permutation) |
| `Genomes.RotateMultiset` | sumit/sumit_lib/GAProtection.cpp:718-729 | a rotation keeps the genes (a permutation) |
| `Genomes.OutsideMember` | sumit/sumit_lib/GAProtection.cpp:718-729 | the genes collected from q are genes of q that S does not hold |
| `Genomes.OutsideMultiplicity` | sumit/sumit_lib/GAProtection.cpp:718-729 | a gene outside S keeps its multiplicity, one in S has none |
| `Genomes.OutsideSplits` | sumit/sumit_lib/GAProtection.cpp:718-729 | the genes outside S and those of S make up q |
| `Genomes.OrderStart` | sumit/sumit_lib/GAProtection.cpp:710-716 | the offspring starts with parent 1 between the cuts and -1 elsewhere |
| `Genomes.OrderFill` | sumit/sumit_lib/GAProtection.cpp:718-729 | the fill keeps the length and its write position in range |
| `Genomes.OrderCrossover` | sumit/sumit_lib/GAProtection.cpp:690-739 | order crossover keeps the length |
| `Genomes.OrderCrossoverTheorem` | sumit/sumit_lib/GAProtection.cpp:690-739 | for orderings of the same distinct genes, the offspring read from after the second cut is parent 2's genes not in the segment, in parent 2's order from there, then the segment; the segment is parent 1's, the genes are parent 1's, and nothing is left unfilled |
| `Genomes.Locate` | sumit/sumit_lib/GAProtection.cpp:479-493 | the last position of x, or -1 exactly when x is absent |
| `Genomes.MapGene` | sumit/sumit_lib/GAProtection.cpp:495-505 | a placed gene is written into a slot that held 0 and nowhere else |
| `Genomes.MapGeneNeedsZero` | sumit/sumit_lib/GAProtection.cpp:495-505 | with no 0 in the offspring, `map_gene` never writes: it fails or runs on |
| `Genomes.PmxMapping` | sumit/sumit_lib/GAProtection.cpp:535-545 | the mapping loop keeps the length |
| `Genomes.PmxTurn` | sumit/sumit_lib/GAProtection.cpp:536-544 | a turn keeps the length |
| `Genomes.PmxFill` | sumit/sumit_lib/GAProtection.cpp:547-551 | every unfilled slot takes parent 2's gene; the others stay |
| `Genomes.Pmx` | sumit/sumit_lib/GAProtection.cpp:507-555 | partially mapped crossover keeps the length |
| `Genomes.PmxClosedSegmentResult` | sumit/sumit_lib/GAProtection.cpp:507-555 | when parent 2's segment genes all lie in parent 1's segment, the offspring is parent 1 on the segment and parent 2 elsewhere |
| `Genomes.MapGeneRunsOn` | sumit/sumit_lib/GAProtection.cpp:495-505 | on parents [1, 2, 0] and [2, 0, 1] with offspring [1, 2, -1], `map_gene` never returns, however many steps are allowed |
| `Genomes.PmxRunsOn` | sumit/sumit_lib/GAProtection.cpp:507-555 | partially mapped crossover of [1, 2, 0] and [2, 0, 1] with cuts 0 and 1 never finishes |
| `Groups.MaxGroups` | sumit/sumit_lib/Groups.cpp:120-133 | the number of groups allowed is between 10 and 100 |
| `Groups.MaxGroupsNonIncreasing` | sumit/sumit_lib/Groups.cpp:120-133 | more primaries never allow more groups |
| `Groups.MaxGroupSize` | sumit/sumit_lib/Groups.cpp:135 | the group size is at least 1 and otherwise the integer quotient of the primaries by the number of groups |
| `Groups.GroupSlotsSuffice` | sumit/sumit_lib/Groups.cpp:134-143 | the 200 group slots of that size have room for every primary |
| `Groups.SortByRank` | sumit/sumit_lib/Groups.cpp:29-50 | the exchange sort yields a permutation of its input in non-decreasing rank |
| `Groups.SortRowByRank` | sumit/sumit_lib/Groups.cpp:29-50 | one row of the exchange sort |
| `Groups.PrimaryCellsOf` | sumit/sumit_lib/Groups.cpp:85-99 | the cells listed for an equation are in range and primary |
| `Groups.BuildMappings` | sumit/sumit_lib/Groups.cpp:53-100 | each equation lists exactly its primary cells in order, each cell the equations it is a primary of, in increasing order; the two mappings are transposes and hold the same number of entries |
| `Groups.AddOccurrence` | sumit/sumit_lib/Groups.cpp:88-97 | adding a cell to an equation and the equation to the cell keeps the mappings transposed |
| `Groups.HalfSums` | sumit/sumit_lib/Groups.cpp:103-118 | each equation's half sums are half the totals of its primaries' lower and upper protection levels |
| `Groups.SharedCells` | sumit/sumit_lib/Groups.cpp:173-181 | the group members that lie in the equation, in order |
| `Groups.CellInConstraint` | sumit/sumit_lib/Groups.cpp:251-261 | the result holds exactly when the cell is among the equation's primaries |
| `Groups.CellAlreadyInGroup` | sumit/sumit_lib/Groups.cpp:263-273 | the result holds exactly when the cell is in the group |
| `Groups.SharedLoad` | sumit/sumit_lib/Groups.cpp:170-181 | the loop counts the shared members and sums their lower and upper protection levels |
| `Groups.ConstraintBlocks` | sumit/sumit_lib/Groups.cpp:182-187 | an equation blocks the cell exactly when the group shares a member with it and adding the cell exceeds a half sum |
| `Groups.CommonConstraint` | sumit/sumit_lib/Groups.cpp:159-188 | the cell is refused exactly when it is already in the group or one of its equations blocks it |
| `Groups.AssignCells` | sumit/sumit_lib/Groups.cpp:146-197 | the groups stay within the size bound, hold no cell twice, hold only stored cells, and are packed to the front |
| `Groups.CountGroups` | sumit/sumit_lib/Groups.cpp:200-206 | the count is the number of non-empty groups, which come first |
| `Groups.OrderGroups` | sumit/sumit_lib/Groups.cpp:209-227 | each group's cells are permuted into non-decreasing nominal value; the groups past n are unchanged |
| `Groups.PermutedGroups` | sumit/sumit_lib/Groups.cpp:209-227 | reordering within groups keeps them well formed |
| `Groups.PrimariesOf` | sumit/sumit_lib/Groups.cpp:8-9 | the primaries are the indices of the primary cells, in increasing order |
| `Groups.HeaviestPrimaries` | sumit/sumit_lib/Groups.cpp:8-10 | the stored cells are the primaries, in non-increasing weight |
| `Groups.FormGroups` | sumit/sumit_lib/Groups.cpp:134-227 | 200 group slots, well formed, the non-empty ones first, each ordered by nominal value |
| `Groups.GroupCells` | sumit/sumit_lib/Groups.cpp:4-238 | the equations are permuted into non-decreasing size, the mappings are built over them, and the groups formed from the primaries are well formed, packed and ordered by nominal value |
| `Groups.Groups.constructor` | sumit/sumit_lib/Groups.cpp:4-238 | the table's equations are sorted by size in place (cells and ids unchanged); the mappings and the groups are those of `GroupCells` |
| `GroupedProtections.IntervalDistinct` | sumit/sumit_lib/GroupedGAProtection.cpp:23-28 | the group indices are distinct and none is -1 |
| `GroupedProtections.GroupedProtection.constructor` | sumit/sumit_lib/GroupedGAProtection.cpp:7-43 | the table's equations are sorted by size; there is one gene per group, at most 200, and genes only when there are primaries; with no groups nothing is searched; otherwise parents 0 and 1 hold the ascending and descending group order, pool_parent_size counted evaluations and at most one uncounted one were made, so with no default clone the evaluation cap is already reached, and the best parent's YMINUS key is cached |
| `GroupedProtections.GroupedProtection.Protect` | sumit/sumit_lib/GroupedGAProtection.cpp:45-66 | one generation under GROUP_PROTECTION: nothing with no groups; clone runs are YPLUS with the worst parent fitness as ceiling when costs are limited (0 otherwise); best-parent runs are YMINUS |
| `GroupedProtections.GroupedProtection.Fitness` | sumit/sumit_lib/GroupedGAProtection.cpp:68-74 | 0 with no groups; otherwise the cached YMINUS fitness of the best parent |
| `GroupedProtections.GroupsNeedPrimaries` | sumit/sumit_lib/GroupedGAProtection.cpp:9-18 | some group is formed only when the table has a primary cell |
| `GroupedProtections.Search` | sumit/sumit_lib/GroupedGAProtection.cpp:7-43 | the constructor's work: the search is configured with one gene per group and, once built, every parent orders the group indices and the counted evaluations equal pool_parent_size, which is the evaluation cap when there is no default clone |
| `IncrementalProtections.PrimariesDistinct` | sumit/sumit_lib/IncrementalGAProtection.cpp:9-13 | the stored primaries are distinct cell indices, none -1, one per primary |
| `IncrementalProtections.IncrementalProtection.constructor` | sumit/sumit_lib/IncrementalGAProtection.cpp:8-46 | one gene per primary cell, heaviest first; with none nothing is searched; otherwise parents 0 and 1 hold the heaviest-first and lightest-first orders, pool_parent_size counted evaluations and at most one uncounted one were made, so with no default clone the evaluation cap is already reached, and the best parent's YMINUS key is cached |
| `IncrementalProtections.IncrementalProtection.Protect` | sumit/sumit_lib/IncrementalGAProtection.cpp:48-69 | one generation under INDIVIDUAL_PROTECTION: nothing with no primaries; clone runs are YPLUS with the worst parent fitness as ceiling when costs are limited (0 otherwise); best-parent runs are YMINUS |
| `IncrementalProtections.IncrementalProtection.Fitness` | sumit/sumit_lib/IncrementalGAProtection.cpp:71-77 | 0 with no primaries; otherwise the cached YMINUS fitness of the best parent |
| `IncrementalProtections.Search` | sumit/sumit_lib/IncrementalGAProtection.cpp:8-46 | the constructor's work: the stored cells are the primaries heaviest first, the search is sized for them and, once built, every parent orders them and the counted evaluations equal pool_parent_size, which is the evaluation cap when there is no default clone |
| `Individuals.Fitnesses` | sumit/sumit_lib/GAProtection.cpp:284-308 | the fitness of each individual, in pool order |
| `Individuals.PoolKeys` | sumit/sumit_lib/GAProtection.cpp:1355-1361 | the cache key of each individual under the model |
| `Individuals.ShapedPermuted` | sumit/sumit_lib/GAProtection.cpp:284-308 | permuting the first n individuals keeps every genome's shape |
| `Individuals.SortedFittestFirst` | sumit/sumit_lib/GAProtection.cpp:284-308 | in a pool sorted by fitness, each individual is at least as fit as every later one |
| `JJData.Statuses` | uwesdc/src/sumit_lib/JJData.cpp:416-426 | the status letters, one per cell and in cell order |
| `JJData.ReadCell` | uwesdc/src/sumit_lib/JJData.cpp:57-62 | a read cell starts at level 0; a nominal value below FLOAT_PRECISION makes it protected ('z'), otherwise its status is kept; nothing else changes |
| `JJData.IdMap` | uwesdc/src/sumit_lib/JJData.cpp:58 | every id in the map points at a cell carrying that id, and at the last such cell |
| `JJData.IdMapHasId` | uwesdc/src/sumit_lib/JJData.cpp:58 | the id of every read cell is in the map |
| `JJData.CellIdToIndex` | uwesdc/src/sumit_lib/JJData.cpp:488-496 | succeeds exactly when the looked-up index lies in [0, ncells) and then returns it; otherwise error 218 |
| `JJData.CellIndexToId` | uwesdc/src/sumit_lib/JJData.cpp:498-504 | succeeds exactly for an index in range and returns that cell's id; otherwise error 219 |
| `JJData.IdIndexRoundTrip` | uwesdc/src/sumit_lib/JJData.cpp:488-504 | with distinct ids, index to id and id back to index is the identity |
| `JJData.UnknownIdReadsAsFirstCell` | uwesdc/src/sumit_lib/JJData.cpp:488-496 | an id no cell carries is looked up as index 0 (the map's default) whenever the table has cells |
| `JJData.NegativeCount` | uwesdc/src/sumit_lib/JJData.cpp:113-124 | the number of negative terms is at most the number of terms |
| `JJData.Resolved` | uwesdc/src/sumit_lib/JJData.cpp:111 | a resolved equation keeps the right-hand side, the length and each sign, and each term's cell is the looked-up index of its id |
| `JJData.ParseEquation` | uwesdc/src/sumit_lib/JJData.cpp:90-124 | accepted exactly when well formed, then resolved; fewer than two terms is error 211 and only that; an unresolvable id is 218, two negative terms 222, no negative term 223 |
| `JJData.EquationSum` | uwesdc/src/sumit_lib/JJData.cpp:141-145 | the loop computes the signed sum of the equation's nominal values |
| `JJData.CheckConsistency` | uwesdc/src/sumit_lib/JJData.cpp:132-158 | fails, with error 214, exactly when some equation misses its right-hand side by more than the tolerance |
| `JJData.FirstNegative` | uwesdc/src/sumit_lib/JJData.cpp:523-538 | the position found is a negative term with none before it; nothing is found exactly when there is no negative term |
| `JJData.SingleMarginal` | uwesdc/src/sumit_lib/JJData.cpp:113-124 | in an equation with exactly one negative term, that term is the one found |
| `JJData.FindMarginalIndexInEquation` | uwesdc/src/sumit_lib/JJData.cpp:523-538 | the first negative-sign position, or error 221 exactly when no term is negative |
| `JJData.FindMarginalId` | uwesdc/src/sumit_lib/JJData.cpp:506-521 | the id of the first negative term's cell, or error 220 exactly when no term is negative |
| `JJData.OthersMaxLevel` | uwesdc/src/sumit_lib/JJData.cpp:171-179 | an upper bound, at least 0, on the levels of the terms other than the marginal cell, attained by one of them unless it is 0 |
| `JJData.MaxLevel` | uwesdc/src/sumit_lib/JJData.cpp:189-198 | an upper bound, at least 0, on every cell's level, attained by some cell unless it is 0 |
| `JJData.TermsSumNominals` | uwesdc/src/sumit_lib/JJData.cpp:141-145 | the consistency sum depends only on the cells' nominal values, so inferring levels cannot change it |
| `JJData.RecombineAgreesOnIdentityIds` | uwesdc/src/sumit_lib/JJData.cpp:428-444 | when a table's ids are its indices, `recombine` as written marks exactly the table indices the corrected one marks, so the divergence needs ids that differ from indices |
| `JJData.RecombineMissesMarkedCell` | uwesdc/src/sumit_lib/JJData.cpp:438 | as written, with table ids [1, 0] and partition [id 0 'm', id 1 's'], table index 0 is left unmarked and table index 1 is marked |
| `JJData.IdTerms` | uwesdc/src/sumit_lib/JJData.cpp:456-465 | each term of a parent equation is restated by the id of its cell, with its sign |
| `JJData.KeptTerms` | uwesdc/src/sumit_lib/JJData.cpp:456-465 | the kept terms come from the equation, include the marginal and every term whose id the partition holds, and nothing else |
| `JJData.Reindexed` | uwesdc/src/sumit_lib/JJData.cpp:468-475 | each kept id becomes the partition index it looks up to, with its sign |
| `JJData.KeepTerms` | uwesdc/src/sumit_lib/JJData.cpp:456-465 | the loop collects exactly the kept terms of the parent equation by id |
| `JJData.KeptAllPresent` | uwesdc/src/sumit_lib/JJData.cpp:456-465 | a partition holding every id keeps the whole equation |
| `JJData.KeptNeedsPresent` | uwesdc/src/sumit_lib/JJData.cpp:456-484 | more than one kept term needs the partition to hold some id |
| `JJData.KeptAtMostMarginal` | uwesdc/src/sumit_lib/JJData.cpp:456-465 | a partition holding no id keeps at most the marginal |
| `JJData.JJTable.constructor` | uwesdc/src/sumit_lib/JJData.cpp:7-204 | a table holds the read cells, id map, equations and protected count, with no levels yet |
| `JJData.JJTable.MarginalLevel` | uwesdc/src/sumit_lib/JJData.cpp:171-179 | the candidate level is one above every other term's level, and at least 1 |
| `JJData.JJTable.LevelPass` | uwesdc/src/sumit_lib/JJData.cpp:165-185 | a pass only raises levels and changes nothing else; a pass that changes nothing leaves every marginal above its terms |
| `JJData.JJTable.MarginalIndexOf` | uwesdc/src/sumit_lib/JJData.cpp:168 | the marginal's cell index of an equation lies inside the table |
| `JJData.JJTable.InferLevels` | uwesdc/src/sumit_lib/JJData.cpp:163-187 | the passes only raise levels, and when they stop every marginal is one above the other terms of its equation |
| `JJData.JJTable.NumberOfLevels` | uwesdc/src/sumit_lib/JJData.cpp:189-198 | one more than the highest level when there are cells and 0 otherwise, so above every cell's level |
| `JJData.JJTable.Reset` | uwesdc/src/sumit_lib/JJData.cpp:404-410 | every 'm' becomes 's', every other cell is unchanged, no 'm' remains and the primary count is kept |
| `JJData.JJTable.GetNumberOfPrimaryCells` | uwesdc/src/sumit_lib/JJData.cpp:416-426 | the number of 'u' cells |
| `JJData.JJTable.Recombine` | uwesdc/src/sumit_lib/JJData.cpp:428-444 | error 217 exactly when some partition id is out of range; otherwise, testing partition cell i itself, table index `id` (the `cells[id]` write target) becomes 'm' for each partition cell marked 'm', and every other cell is unchanged |
| `JJData.JJTable.PartitionTerms` | uwesdc/src/sumit_lib/JJData.cpp:446-465 | the parent's marginal position and exactly the parent terms, by id, that the partition keeps |
| `JJData.JJTable.IndexKeptTerms` | uwesdc/src/sumit_lib/JJData.cpp:468-475 | each kept id is reindexed through the partition's map, which gains at most the marginal's id and keeps its other entries |
| `JJData.JJTable.GeneratePartitionConsistencyEquation` | uwesdc/src/sumit_lib/JJData.cpp:446-486 | keeps the equation exactly when more than one term remains; the kept equation has the parent's right-hand side and the kept terms in order, with their signs |
| `JJData.ParseEquations` | uwesdc/src/sumit_lib/JJData.cpp:83-125 | every equation is accepted and resolved in order exactly when all are well formed; otherwise one of errors 211, 218, 222, 223 |
| `JJData.ReadAll` | uwesdc/src/sumit_lib/JJData.cpp:42-67 | every scanned cell is read by ReadCell, in order |
| `JJData.ReadCells` | uwesdc/src/sumit_lib/JJData.cpp:42-67 | the loop reads every cell, builds the id map and counts the protected cells |
| `JJData.ReadOneCell` | uwesdc/src/sumit_lib/JJData.cpp:56-66 | one cell is read, entered in the map and counted when protected |
| `JJData.ResolvedEquations` | uwesdc/src/sumit_lib/JJData.cpp:90-124 | accepted equations name cells of the table and each has a marginal |
| `JJData.ResolvedConsistency` | uwesdc/src/sumit_lib/JJData.cpp:132-158 | the consistency check fails exactly when the table is not accepted |
| `JJData.ReadTable` | uwesdc/src/sumit_lib/JJData.cpp:7-204 | a table is read exactly when its equations are well formed and consistent (else 211/214/218/222/223); it holds the read cells, the map and the resolved equations, counts protected cells, and has one more level than its highest |
| `JavaText.DropTrailingEmpty` | sumit/sumit_server/Session.java:126 | the longest prefix that does not end with an empty string, all dropped strings being empty |
| `JavaText.Split` | sumit/sumit_server/UWECellSuppressionServer.java:114-117 | without the separator the string is its only piece; no piece contains the separator; a split string never ends with an empty piece |
| `JavaText.PiecesAround` | sumit/sumit_server/UWECellSuppressionServer.java:117 | one separator between two separator-free strings gives those two pieces |
| `JavaText.SplitTwo` | sumit/sumit_server/UWECellSuppressionServer.java:117-118 | `key=value` with a non-empty value splits into exactly two pieces |
| `JavaText.SplitTrailing` | sumit/sumit_server/Session.java:126-127 | a trailing separator after a non-empty string gives a single piece |
| `LegacyPartitioning.RequiredPartitionsBounds` | sumit/sumit_lib/LegacyTabularPartitioning.cpp:5-12 | the table is 6 by 6 and every entry lies between 4 and 27 |
| `LegacyPartitioning.PartitionIndex` | sumit/sumit_lib/LegacyTabularPartitioning.cpp:14-28 | the index is in 0..5: 0 exactly for at most 20 key values, 5 exactly for more than 500, otherwise the band (20, 50], (50, 100], (100, 200] or (200, 500] |
| `LegacyPartitioning.PartitionIndexMonotone` | sumit/sumit_lib/LegacyTabularPartitioning.cpp:14-28 | more key values never give a smaller index |
| `LegacyPartitioning.NumberOfRequiredPartitions` | sumit/sumit_lib/LegacyTabularPartitioning.cpp:30-39 | the minimum of the table entry for the two sizes and the size of the first parameter's highest level |
| `LegacyPartitioning.Partitioning.constructor` | sumit/sumit_lib/LegacyTabularPartitioning.cpp:111-113 | the number of partitions is the product of the two required counts, with one cell count and one primary count per partition |
| `LegacyPartitioning.Partitioning.RecordPartition` | sumit/sumit_lib/LegacyTabularPartitioning.cpp:124-145 | error 1 exactly for an index at or beyond the number of partitions, changing nothing; otherwise the partition's counts are recorded and no other |
| `LegacyPartitioning.Partitioning.GetNumberOfCells` | sumit/sumit_lib/LegacyTabularPartitioning.cpp:148-154 | error 1 exactly for an index at or beyond the number of partitions, otherwise the recorded cell count |
| `LegacyPartitioning.Partitioning.GetNumberOfPrimaryCells` | sumit/sumit_lib/LegacyTabularPartitioning.cpp:158-164 | error 1 exactly for an index at or beyond the number of partitions, otherwise the recorded primary count |
| `PoolGrowth.Shuffled` | sumit/sumit_lib/GAProtection.cpp:1270-1277 | the shuffle keeps the genome's length |
| `PoolGrowth.ShuffledKeeps` | sumit/sumit_lib/GAProtection.cpp:1270-1277 | the shuffle only reorders the genes (same multiset) |
| `PoolGrowth.Tried` | sumit/sumit_lib/GAProtection.cpp:1280-1284 | a candidate in the first free slot grows the pool by one exactly when the solver count rises by one; only that slot changes; the try looks up `used + 1` genomes and counts failed tries in a row |
| `PoolGrowth.TriedCounts` | sumit/sumit_lib/GAProtection.cpp:1280-1284 | the new count is the count over the first `used + 1` members of the new pool |
| `PoolGrowth.Begun` | sumit/sumit_lib/GAProtection.cpp:1264-1265 | the state after the first count tracks the pool with `used` members and no failed tries |
| `PoolGrowth.Randomised` | sumit/sumit_lib/GAProtection.cpp:838-840 | `randomise_clone` keeps the genome's length |
| `PoolGrowth.RandomisedKeeps` | sumit/sumit_lib/GAProtection.cpp:838-840 | `randomise_clone` only reorders the genes |
| `PoolGrowth.ParentsFilled` | sumit/sumit_lib/GAProtection.cpp:1262-1286 | filling keeps the pool tracked and its size, and every slot it adds brings one more solver |
| `PoolGrowth.ClonesGrown` | sumit/sumit_lib/GAProtection.cpp:1288-1318 | growing keeps the pool tracked and its size, and every slot it adds brings one more solver |
| `PoolGrowth.TriedKeeps` | sumit/sumit_lib/GAProtection.cpp:1270-1284 | a try with a reordering of the slot's genes leaves the earlier slots alone and every member an ordering of what it held |
| `PoolGrowth.ParentsFilledKeeps` | sumit/sumit_lib/GAProtection.cpp:1262-1286 | filling touches only the slots from `used` on, and each member is a shuffle of what was in its slot |
| `PoolGrowth.ParentsFilledStops` | sumit/sumit_lib/GAProtection.cpp:1268 | filling never asks for more than the target number of solvers, and stops short only when the draws run out |
| `PoolGrowth.ClonesGrownKeeps` | sumit/sumit_lib/GAProtection.cpp:1288-1318 | growing touches only the slots from `used` on and keeps every clone's genes up to order |
| `PoolGrowth.GrownOrderings` | sumit/sumit_lib/GAProtection.cpp:1288-1318 | a pool of orderings of the genes stays one after growing |
| `PoolGrowth.ClonesGrownStops` | sumit/sumit_lib/GAProtection.cpp:1302 | growing never asks for more than `max_solvers`, and stops short only after MAX_RANDOMISATION_ATTEMPTS failed tries in a row or when the draws run out |
| `PoolGrowth.FilledParentsDistinct` | sumit/sumit_lib/GAProtection.cpp:1262-1286 | when filling reaches its target, the first `target` parents are pairwise different genomes, none of them cached |
| `PoolGrowth.FilledDistinct` | sumit/sumit_lib/GAProtection.cpp:1207-1260 | the members counted one solver each are uncached and pairwise different |
| `Replacements.BestFitness` | sumit/sumit_lib/GAProtection.cpp:1100-1116 | a lower bound on the live parents' fitness that one of them attains |
| `Replacements.Cycle` | sumit/sumit_lib/GAProtection.cpp:1058-1063 | `replace_next` moved on stays among the live parents |
| `Replacements.FirstMaximum` | sumit/sumit_lib/GAProtection.cpp:1104-1109 | the scan settles on a least fit parent (largest fitness value), the first of them |
| `Replacements.Challenged` | sumit/sumit_lib/GAProtection.cpp:1090-1092 | the clone takes the slot only when strictly fitter than the parent there; every other slot is unchanged |
| `Replacements.ReplacedSound` | sumit/sumit_lib/GAProtection.cpp:1118-1143 | replacement keeps the pool sound; the live size grows by one until the pool is full and then stays |
| `Replacements.ReplacedChangesOneSlot` | sumit/sumit_lib/GAProtection.cpp:1042-1116 | growing appends the clone after the live parents and keeps them; every policy but `replace_worst` changes at most one slot |
| `Replacements.ReplacedOnlyAddsClone` | sumit/sumit_lib/GAProtection.cpp:1042-1143 | the new pool holds nothing but old parents and the clone, as a multiset |
| `Replacements.ReplacedLiveFrom` | sumit/sumit_lib/GAProtection.cpp:1042-1143 | every live parent afterwards is the clone or a live parent from before |
| `Replacements.ReplacementKeepsBest` | sumit/sumit_lib/GAProtection.cpp:1066-1116 | under every policy but `replace_oldest` the best live fitness never gets worse |
| `Replacements.OldestCanLoseBest` | sumit/sumit_lib/GAProtection.cpp:1052-1064 | `replace_oldest` can overwrite the fittest parent with a worse clone: the best fitness goes from 1.0 to 2.0 |
| `Scheduling.NextDelay` | sumit/sumit_lib/GAProtection.cpp:1192-1205 | a delay of 0 becomes 1, 128 stays, anything else doubles |
| `Scheduling.DelaySchedule` | sumit/sumit_lib/GAProtection.cpp:1192-1205 | from 0 the delays run 1, 2, 4, ..., 128 and then stay at 128 |
| `Scheduling.DelayBounded` | sumit/sumit_lib/GAProtection.cpp:1192-1205 | every delay reachable from 0 lies in [0, 128] |
| `Scheduling.Required` | sumit/sumit_lib/GAProtection.cpp:1207-1260 | never more solvers than individuals |
| `Scheduling.RequiredCountsDistinctMisses` | sumit/sumit_lib/GAProtection.cpp:1207-1260 | the solvers required are exactly the distinct genomes the cache does not hold |
| `Scheduling.RequiredGrowsByAtMostOne` | sumit/sumit_lib/GAProtection.cpp:1207-1260 | one more individual adds no solver or exactly one |
| `Scheduling.RequiredOfPrefix` | sumit/sumit_lib/GAProtection.cpp:1207-1260 | the count for a prefix is the count for the shorter prefix plus one exactly when the last genome is new and uncached |
| `Scheduling.Hits` | sumit/sumit_lib/GAProtection.cpp:1211-1217 | never more cache hits than individuals |
| `Scheduling.RequiredAtMostMisses` | sumit/sumit_lib/GAProtection.cpp:1207-1260 | solvers plus cache hits never exceed the individuals |
| `Scheduling.RequiredAllNeed` | sumit/sumit_lib/GAProtection.cpp:1207-1260 | when every individual needs a solver they are uncached and pairwise different |
| `Scheduling.FirstIndex` | sumit/sumit_lib/GAProtection.cpp:1363-1373 | the first position holding a genome, or -1 exactly when none does |
| `Scheduling.InitialStatus` | sumit/sumit_lib/GAProtection.cpp:1333-1373 | a slot is complete exactly when cached, unallocated exactly when it needs a solver, and a duplicate exactly when uncached and an earlier slot holds its genome |
| `Scheduling.UnallocatedCount` | sumit/sumit_lib/GAProtection.cpp:1207-1373 | the slots that wait for a solver are as many as `solvers_required` counts |
| `Scheduling.StartSlots` | sumit/sumit_lib/GAProtection.cpp:1333-1373 | the loop starts with the initial statuses and no delays |
| `Scheduling.OnBusy` | sumit/sumit_lib/GAProtection.cpp:1428-1436 | every slot waiting for a session takes the raised delay as its delay and countdown; the others are unchanged |
| `Scheduling.OnSession` | sumit/sumit_lib/GAProtection.cpp:1401-1403 | the slot is started with no delay; the others are unchanged |
| `Scheduling.OnStillRunning` | sumit/sumit_lib/GAProtection.cpp:1450-1457 | the slot takes the polled status and the raised delay as delay and countdown; the others are unchanged |
| `Scheduling.OnCompleted` | sumit/sumit_lib/GAProtection.cpp:1460-1535 | the slot is complete with no delay, every slot waiting for a session is reset to no delay, and the others are unchanged |
| `Scheduling.OnWait` | sumit/sumit_lib/GAProtection.cpp:1552-1555 | only the slot's countdown goes down by one |
| `Scheduling.OnBusyShares` | sumit/sumit_lib/GAProtection.cpp:1428-1436 | after a busy reply the waiting slots share one delay |
| `Scheduling.OnCompletedShares` | sumit/sumit_lib/GAProtection.cpp:1526-1532 | after a completion the waiting slots share one delay |
| `Scheduling.OnSessionShares` | sumit/sumit_lib/GAProtection.cpp:1401-1403 | starting a solver keeps the waiting slots sharing one delay |
| `Scheduling.OnStillRunningShares` | sumit/sumit_lib/GAProtection.cpp:1450-1457 | a poll that finds a solver running keeps the waiting slots sharing one delay |
| `Scheduling.OnWaitShares` | sumit/sumit_lib/GAProtection.cpp:1552-1555 | counting down keeps the waiting slots sharing one delay |
| `Selections.CoresToUse` | sumit/sumit_lib/GAProtection.cpp:38-94 | error 1 exactly when no session is available, the protocol is not 4, the server offers fewer than two cores or one core is asked for; otherwise the server's limit (request 0) or the smaller of request and limit, capped at POOL_PARENT_SIZE |
| `Selections.CoresInRange` | sumit/sumit_lib/GAProtection.cpp:54-94 | with a server limit of at least two and a request of 0 or at least two, between 2 and POOL_PARENT_SIZE cores are used |
| `Selections.SizesFor` | sumit/sumit_lib/GAProtection.cpp:195-215 | the evaluation cap is min(N!, MAX_EVALUATIONS); parents min(cores, cap); default clones min(cores, cap - parents); clone pool twice that |
| `Selections.SizesFit` | sumit/sumit_lib/GAProtection.cpp:195-215 | with 2 to 20 cores and a gene, the parents fit the parent pool and parents plus default clones never exceed the evaluation cap |
| `Selections.FewGenesNoClones` | sumit/sumit_lib/GAProtection.cpp:205-215 | there is no default clone exactly when the evaluation cap min(N!, MAX_EVALUATIONS) is at most the cores, and then the parents take the whole cap and the clone pool is empty; this holds for one or two genes on any cores and for three genes from six cores on |
| `Selections.TournamentIndex` | sumit/sumit_lib/GAProtection.cpp:380-393 | the drawn parent `(int)(n * r)` clamped into [0, n - 1]; -1 when there is no parent |
| `Selections.TournamentWinner` | sumit/sumit_lib/GAProtection.cpp:396-400 | the fitter of the two drawn parents, the second one when they are equally fit |
| `Selections.Cumulative` | sumit/sumit_lib/GAProtection.cpp:408-418 | none exactly when the total fitness is 0; otherwise position k holds the fitness of parents 0..k over the total |
| `Selections.Scan` | sumit/sumit_lib/GAProtection.cpp:423-427 | the pick is the starting parent or one of the scanned parents |
| `Selections.ScanPicksLastBelow` | sumit/sumit_lib/GAProtection.cpp:423-427 | the pick is the last parent whose fraction the draw exceeds, or the previous pick when it exceeds none |
| `Selections.ProportionatePicks` | sumit/sumit_lib/GAProtection.cpp:405-435 | both picks are parents (or parent 0 with a zero total), and the second starts from the first |
| `Selections.PickCarriesOver` | sumit/sumit_lib/GAProtection.cpp:406-427 | a second draw that exceeds no fraction repeats the first pick rather than choosing parent 0 |
| `Selections.FirstMinimum` | sumit/sumit_lib/GAProtection.cpp:1002-1009 | the first position of a least fitness among the first m |
| `Selections.FittestCloneIsFittest` | sumit/sumit_lib/GAProtection.cpp:1001-1040 | the clone returned has least fitness; the error 1 happens exactly when there are ties and the draw is 1.0 |
| `Selections.FittestCloneUnique` | sumit/sumit_lib/GAProtection.cpp:1018-1020 | a unique fittest clone is returned whatever the draw |
| `CellSuppressionServer.FirstSessionElement` | sumit/sumit_server/UWECellSuppressionServer.java:115-116 | the first element starting with `session=`, none exactly when no element does |
| `CellSuppressionServer.GetSession` | sumit/sumit_server/UWECellSuppressionServer.java:109-134 | no query finds nothing; a session found is one registered in the registry |
| `CellSuppressionServer.GetSessionOfId` | sumit/sumit_server/UWECellSuppressionServer.java:114-124 | the query `session=<id>` finds exactly the session registered under id, if any |
| `CellSuppressionServer.GetSessionFirstElementDecides` | sumit/sumit_server/UWECellSuppressionServer.java:115-128 | only the first `session=` element of a query decides the answer |
| `CellSuppressionServer.SessionRequest` | sumit/sumit_server/UWECellSuppressionServer.java:244-251 | the reply is the new session's id, or "0" exactly when the registry is full; the registry never grows past its limit |
| `ServerSession.StatusText` | sumit/sumit_server/Session.java:167-191 | "not started" exactly for -2, "running" exactly for -1, "completed" exactly for 0, "unknown" exactly below -2, "failed" exactly above 0 |
| `ServerSession.KeptResults` | sumit/sumit_server/Session.java:126-130 | the results are kept exactly when the output splits on ' ' into two parts, and are then those parts |
| `ServerSession.KeptResultsOfTwoWords` | sumit/sumit_server/Session.java:126-130 | output "cost time" is kept word for word |
| `ServerSession.Session.constructor` | sumit/sumit_server/Session.java:20-31 | a new session has status -2 ("not started"), no query, no process, no results and is kept alive now |
| `ServerSession.Session.Run` | sumit/sumit_server/Session.java:33-65 | the query is recorded and a process runs exactly when the launch succeeded; status, results and keep-alive are unchanged |
| `ServerSession.Session.Close` | sumit/sumit_server/Session.java:68-86 | no process runs afterwards; status, results, query and keep-alive are unchanged |
| `ServerSession.Session.Status` | sumit/sumit_server/Session.java:88-147 | without a process the status is returned unchanged; a running process gives -1; an exit 0 gives 0 and keeps the output's two words; any other exit code becomes the status and drops the results; an exit 0 whose output cannot be read gives 0 but keeps the process and the old results |
| `ServerSession.Session.StatusString` | sumit/sumit_server/Session.java:167-191 | the text of the current status |
| `ServerSession.Session.Result` | sumit/sumit_server/Session.java:149-157 | the first kept word, or "" without results |
| `ServerSession.Session.ElapsedTime` | sumit/sumit_server/Session.java:159-165 | the second kept word, or "" without results |
| `ServerSession.Session.KeepAlive` | sumit/sumit_server/Session.java:193-199 | the keep-alive time becomes now, so the session is not orphaned for the next hour; nothing else changes |
| `SessionRegistry.Sessions.constructor` | sumit/sumit_server/Sessions.java:26-28 | an empty registry with the given limit |
| `SessionRegistry.Sessions.Create` | sumit/sumit_server/Sessions.java:62-73 | no session exactly when the registry is full, which then is unchanged; otherwise a fresh not-started session under the new id; the size never passes the limit |
| `SessionRegistry.Sessions.Destroy` | sumit/sumit_server/Sessions.java:75-80 | exactly the session's id is removed and its process is stopped; its status, results, query and keepalive time are unchanged |
| `SessionRegistry.Sessions.Get` | sumit/sumit_server/Sessions.java:82-84 | a session exactly when the key is registered, and then the one registered under it |
| `SessionRegistry.Sessions.CheckForOrphans` | sumit/sumit_server/Sessions.java:43-60 | exactly the sessions orphaned now are removed, so none that remain is orphaned; every removed session is closed (no process runs); every session keeps its status, results, query and keep-alive, and a kept one keeps its process |
| `SessionRegistry.Sessions.Shutdown` | sumit/sumit_server/Sessions.java:31-41 | every session is closed and none is removed; each keeps its status, results, query and keepalive time |
| `Solvers.Mark` | sumit/cell_suppression_solver/Solver.cpp:78-90 | each cell is marked as the scan after one solve decides: an 's' cell with a positive LP value becomes 'm', every other cell stays |
| `Solvers.OnlyMarkedTransitive` | sumit/cell_suppression_solver/Solver.cpp:62-128 | two runs of steps that only turn 's' into 'm' make one such run |
| `Solvers.Step` | sumit/cell_suppression_solver/Solver.cpp:70-114 | a step only turns 's' cells into 'm'; a skipped step, or a model that solves neither side, changes nothing |
| `Solvers.Unmarked` | uwesdc/src/sumit_lib/JJData.cpp:404-410 | the reset keeps every cell and puts each 'm' back to 's' |
| `Solvers.After` | sumit/cell_suppression_solver/Solver.cpp:49-128 | the reset and the first k steps keep the number of cells |
| `Solvers.RunOnlyMarks` | sumit/cell_suppression_solver/Solver.cpp:62-128 | between any two points of the loop statuses only move from 's' to 'm' |
| `Solvers.CostMonotone` | sumit/cell_suppression_solver/Solver.cpp:241-250 | with non-negative weights, turning 's' cells into 'm' never lowers the cost |
| `Solvers.AfterKeepsWeights` | sumit/cell_suppression_solver/Solver.cpp:49-128 | the reset and the steps keep every weight |
| `Solvers.CostsNonDecreasing` | sumit/cell_suppression_solver/Solver.cpp:120-122 | with non-negative weights the recorded cost after i steps is at most the cost after k >= i steps |
| `Solvers.RecordedSnoc` | sumit/cell_suppression_solver/Solver.cpp:120-122 | recording the cost after one more step extends the record |
| `Solvers.AllActive` | sumit/cell_suppression_solver/Solver.cpp:62-128 | in individual protection every step solves |
| `Solvers.GroupActive` | sumit/cell_suppression_solver/Solver.cpp:156-158 | in group protection step i solves exactly when its group has cells |
| `Solvers.TermElements` | sumit/cell_suppression_solver/Solver.cpp:333-345 | two entries per term: the Y-minus column with the negated sign, then the Y-plus column with the sign, both in the equation's row |
| `Solvers.MatrixElements` | sumit/cell_suppression_solver/Solver.cpp:332-346 | two entries for every term of every equation |
| `Solvers.MatrixPrefix` | sumit/cell_suppression_solver/Solver.cpp:332-346 | the entries of a prefix of the equations are a prefix of the matrix |
| `Solvers.ElementsOfTerm` | sumit/cell_suppression_solver/Solver.cpp:336-344 | term j of equation i sits at twice the number of terms before it, Y-minus entry first |
| `Solvers.TermElementsSnoc` | sumit/cell_suppression_solver/Solver.cpp:333-345 | one more term appends its two entries |
| `Solvers.Solver.constructor` | sumit/cell_suppression_solver/Solver.cpp:9-34 | the cells are untouched; under group protection exactly the first `number_of_groups` groups have cells; otherwise there are no groups, one step per primary cell, and the equations are unchanged |
| `Solvers.Solver.GetCost` | sumit/cell_suppression_solver/Solver.cpp:241-250 | the total weight of the 'u' and 'm' cells |
| `Solvers.Solver.MarkPositive` | sumit/cell_suppression_solver/Solver.cpp:78-90 | the cells become the marking of the scan |
| `Solvers.Solver.SolveStep` | sumit/cell_suppression_solver/Solver.cpp:70-114 | the cells become those after the step |
| `Solvers.Solver.StepAndCost` | sumit/cell_suppression_solver/Solver.cpp:62-122 | after step i the cells are those after i + 1 steps and the cost is theirs |
| `Solvers.Solver.Protect` | sumit/cell_suppression_solver/Solver.cpp:62-128 | the recorded costs are those after each step; the loop stops after n steps or right after the first cost at or above a non-zero limit |
| `Solvers.Solver.ResetCells` | sumit/cell_suppression_solver/Solver.cpp:49 | the cells are reset |
| `Solvers.Solver.RunIndividualProtection` | sumit/cell_suppression_solver/Solver.cpp:46-135 | error 304, with nothing changed, exactly when the permutation does not have one entry per step; otherwise the cost trace of the run in which every step solves |
| `Solvers.Solver.RunGroupProtection` | sumit/cell_suppression_solver/Solver.cpp:137-235 | error 304, with nothing changed, exactly when the permutation does not have one entry per group; otherwise the cost trace of the run in which only the steps of non-empty groups solve |
| `Solvers.Solver.FillEquation` | sumit/cell_suppression_solver/Solver.cpp:333-345 | the entries of one equation are written from `element` on and the earlier ones are kept |
| `Solvers.Solver.FillMatrix` | sumit/cell_suppression_solver/Solver.cpp:330-346 | the matrix holds exactly the entries of the equations |
| `Solvers.Solver.FillColumns` | sumit/cell_suppression_solver/Solver.cpp:348-367 | lower bounds 0; upper bounds 0 for 'z' cells and the nominal value otherwise; cost 0 for 'u' and 'm' cells and the weight otherwise, on both columns |
| `Solvers.Solver.CountElements` | sumit/cell_suppression_solver/Solver.cpp:315-319 | two entries per term of every equation |
| `Solvers.Solver.AllocateCoinMemory` | sumit/cell_suppression_solver/Solver.cpp:314-381 | the matrix, column bounds, costs and row bounds (both the right-hand side) are those of the table |
| `SolverArguments.FileName` | sumit/cell_suppression_solver/UWESolver.cpp:27-35 | a file name is accepted exactly when non-empty and shorter than MAX_FILENAME_SIZE; an empty one is the "missing" error and a long one the "too long" error |
| `SolverArguments.SetKeyValue` | sumit/cell_suppression_solver/UWESolver.cpp:24-88 | an earlier error stays; error 109 exactly for an unknown key; `session` is ignored; protection must be individual or group (else 105), model full, yplus or yminus (else 106), maxcost a number (else 119); keys and names compared ignoring case |
| `SolverArguments.KeysDistinct` | sumit/cell_suppression_solver/UWESolver.cpp:24-88 | no key matches two of the names |
| `SolverArguments.SetKeyValueIgnoresCase` | sumit/cell_suppression_solver/UWESolver.cpp:24-88 | keys that differ only in case have the same effect |
| `SolverArguments.CString` | sumit/cell_suppression_solver/UWESolver.cpp:130-136 | a buffer read as a C string is its characters before the first NUL |
| `SolverArguments.CStringOf` | sumit/cell_suppression_solver/UWESolver.cpp:130-136 | a word followed by NUL reads back as the word, whatever follows |
| `SolverArguments.ScanChar` | sumit/cell_suppression_solver/UWESolver.cpp:128-148 | '&' applies the pair and starts a key; '=' starts the value and keeps the settings; any other character only extends the key or value |
| `SolverArguments.Scan` | sumit/cell_suppression_solver/UWESolver.cpp:127-151 | the walk keeps both buffers' sizes |
| `SolverArguments.Finish` | sumit/cell_suppression_solver/UWESolver.cpp:152-155 | outside a value the settings are those of the walk |
| `SolverArguments.ParseArguments` | sumit/cell_suppression_solver/UWESolver.cpp:114-155 | the loop over the command line gives the parse of its text (error 113 when too long) |
| `SolverArguments.Advance` | sumit/cell_suppression_solver/UWESolver.cpp:128-150 | one turn of the buffer loop is the character step |
| `SolverArguments.SetKeyValueIn` | sumit/cell_suppression_solver/UWESolver.cpp:139 | applying the buffers is applying the strings they hold |
| `SolverArguments.ReadCString` | sumit/cell_suppression_solver/UWESolver.cpp:130-136 | the loop reads the buffer as a C string |
| `SolverArguments.ScanAppend` | sumit/cell_suppression_solver/UWESolver.cpp:127-151 | the walk over a + b is the walk over a continued over b |
| `SolverArguments.StopsAtError` | sumit/cell_suppression_solver/UWESolver.cpp:139 | the first error reached is the outcome of the whole command line |
| `SolverArguments.ScanKeepsError` | sumit/cell_suppression_solver/UWESolver.cpp:139 | after an error the walk changes no setting |
| `SolverArguments.ScanPairs` | sumit/cell_suppression_solver/UWESolver.cpp:127-151 | `key=value&` pairs from the start apply in turn |
| `SolverArguments.ParsedPairs` | sumit/cell_suppression_solver/UWESolver.cpp:114-155 | a well-formed command line of `key=value&` pairs sets exactly what setKeyValue on the pairs in turn sets, whatever the buffers held |
| `SolverArguments.ParsedPairsUnterminated` | sumit/cell_suppression_solver/UWESolver.cpp:152-155 | a last pair with no '&' is applied by the finish |
| `SystemSleep.SleepInterval` | sumit/sumit_lib/System.cpp:56-62 | below one second everything goes into nanoseconds; for a non-negative delay the seconds and whole milliseconds add back up to it, with nanoseconds below a second |
| `SystemSleep.SleepIntervalRoundTrip` | sumit/sumit_lib/System.cpp:56-62 | the seconds are the delay divided by 1000 and the nanoseconds the remainder times 1000000 |
| `SystemSleep.SleepTimer.constructor` | sumit/sumit_lib/System.cpp:24-43 | the timer starts with 0 milliseconds and a zero interval |
| `SystemSleep.SleepTimer.InitialiseSleep` | sumit/sumit_lib/System.cpp:52-64 | the Windows build stores the delay, the POSIX build its interval; the other is unchanged |
| `TabularData.LeadingBlanks` | sumit/sumit_lib/TabularData.cpp:531-534 | the count of spaces and tabs that open the buffer, stopping at the first other character |
| `TabularData.AttributeMatchesExtension` | sumit/sumit_lib/TabularData.cpp:527-547 | only a prefix is compared: an attribute matches any word that extends it |
| `TabularData.AttributeMatchesShorter` | sumit/sumit_lib/TabularData.cpp:527-547 | a word matching a longer attribute also matches every attribute it extends |
| `TabularData.CompoundNumericUnreachable` | sumit/sumit_lib/TabularData.cpp:873-903 | as written, no one-word attribute line declares a shadow, cost, lower or upper protection level field |
| `TabularData.MismatchAt` | sumit/sumit_lib/TabularData.cpp:538-544 | a word that differs from the attribute at some position does not match it |
| `TabularData.NumericCostReadAsNumeric` | sumit/sumit_lib/TabularData.cpp:873-891 | as written, the line `<NUMERIC><COST>` declares a plain numeric field |
| `TabularData.ClassifyWord` | sumit/sumit_lib/TabularData.cpp:859-903 | corrected order: the compound numeric attributes are tried before `<NUMERIC>`, so a word that matches none of them is classified as before |
| `TabularData.NotKeyAttribute` | sumit/sumit_lib/TabularData.cpp:859-872 | no numeric attribute is taken for a key or hierarchy attribute |
| `TabularData.ShadowDeclared` | sumit/sumit_lib/TabularData.cpp:880-885 | with the corrected order `<NUMERIC><SHADOW>` declares a shadow field |
| `TabularData.CostDeclared` | sumit/sumit_lib/TabularData.cpp:886-891 | with the corrected order `<NUMERIC><COST>` declares a cost field |
| `TabularData.LowerPlDeclared` | sumit/sumit_lib/TabularData.cpp:892-897 | with the corrected order `<NUMERIC><LOWERPL>` declares a lower protection level field |
| `TabularData.UpperPlDeclared` | sumit/sumit_lib/TabularData.cpp:898-903 | with the corrected order `<NUMERIC><UPPERPL>` declares an upper protection level field |
| `TabularData.NumericDeclared` | sumit/sumit_lib/TabularData.cpp:873-879 | with the corrected order `<NUMERIC>` still declares a numeric field |
| `TabularData.StripQuotes` | sumit/sumit_lib/TabularData.cpp:549-565 | the copy without any '"', shorter by exactly the number of quotes |
| `TabularData.MapStatus` | sumit/sumit_lib/TabularData.cpp:1455-1508 | the status is one of u, z, s, m, Y, X; 'm' exactly for codes starting "11" or "12"; an empty word is unknown ('X') |
| `TabularData.MapStatusFixesJJLetters` | sumit/sumit_lib/TabularData.cpp:1455-1479 | the letters u, z and s map to themselves |
| `TabularData.MapStatusSecondaryUnknown` | sumit/sumit_lib/TabularData.cpp:1504-1506 | the letter m is an unknown code, so a secondary suppression is never read back as one |
| `TabularData.FindDotPosition` | sumit/sumit_lib/TabularData.cpp:4122-4140 | the index of the last '.', or 0 when there is none |
| `TabularData.FindEndPosition` | sumit/sumit_lib/TabularData.cpp:4142-4158 | the index of the last character, or 0 for an empty name |
| `TabularData.GetDirectory` | sumit/sumit_lib/TabularData.cpp:4632-4647 | the prefix of the path up to and including its last separator, empty when there is none |
| `TabularData.IndexedKeys` | sumit/sumit_lib/TabularData.cpp:436-441 | exactly the key indices of the indexed fields |
| `TabularData.SetupIndexingOffsets` | sumit/sumit_lib/TabularData.cpp:430-457 | error 1 exactly when an indexed key index is out of range; otherwise each key's offset is the product of the entry counts of the keys indexed after it, and unused keys are untouched |
| `TabularData.OffsetsStep` | sumit/sumit_lib/TabularData.cpp:436-450 | one more indexed key multiplies the running product by its entry count and keeps the earlier offsets |
| `TabularData.KeysInUse` | sumit/sumit_lib/TabularData.cpp:465-466 | key indices that are all flagged in use, in increasing order |
| `TabularData.GetCellNumber` | sumit/sumit_lib/TabularData.cpp:459-482 | the result is the sum, over the keys in use, of each current entry times its offset (the cell number in range and injective by the two lemmas below) |
| `TabularData.CellNumberInRange` | sumit/sumit_lib/TabularData.cpp:430-482 | every cell number lies below the product of the entry counts of the keys in use |
| `TabularData.CellNumberInjective` | sumit/sumit_lib/TabularData.cpp:430-482 | different key values give different cell numbers |
| `TabularData.KeyIndex.constructor` | sumit/sumit_lib/TabularData.cpp:966-999 | every key field starts with no entries |
| `TabularData.KeyIndex.AddKeyToIndex` | sumit/sumit_lib/TabularData.cpp:966-999 | fails exactly when the key is new and its field is full; a new key is stored once at the next entry and nothing else changes; a present key changes nothing |
| `Text.Pieces` | sumit/sumit_server/Session.java:126 | at least one piece, none containing the separator, and the whole string when it does not occur |
| `Text.PiecesSnoc` | sumit/sumit_server/Session.java:126 | one more character opens a new piece or extends the last |
| `Text.PiecesCons` | sumit/sumit_server/UWECellSuppressionServer.java:114 | the piece before the first separator is split off, whatever follows |
| `Text.PiecesAppend` | sumit/sumit_server/UWECellSuppressionServer.java:114 | a separator between a and b gives the pieces of a and then those of b |
| `Text.LastIndex` | sumit/sumit_lib/TabularData.cpp:4122-4140 | the last position holding the character, or -1 exactly when it does not occur |
| `Text.Without` | sumit/sumit_lib/TabularData.cpp:549-565 | the string without the character, no longer than before |
| `Tokenizer.Kept` | sumit/sumit_lib/TabularData.cpp:262-331 | a character is kept as itself when quotes are kept; no quote is kept when they are dropped |
| `Tokenizer.Value` | sumit/sumit_lib/TabularData.cpp:262-331 | a token has no dropped quotes, is no longer than its piece, and is empty when the piece starts none |
| `Tokenizer.TokenCount` | sumit/sumit_lib/TabularData.cpp:262-331 | never more tokens than characters |
| `Tokenizer.CountPieces` | sumit/sumit_lib/TabularData.cpp:262-331 | a line has no more separators, nor separators plus the length of its last piece, than characters |
| `Tokenizer.StartedPrefixBelowCount` | sumit/sumit_lib/TabularData.cpp:262-331 | a token started in the piece being read is counted in the line's total |
| `Tokenizer.ScannedLine` | sumit/sumit_lib/TabularData.cpp:262-331 | after the whole line the machine's count and tokens are the reference ones |
| `Tokenizer.StartToken` | sumit/sumit_lib/TabularData.cpp:262-331 | a significant character between tokens is stored as the next token |
| `Tokenizer.AppendToken` | sumit/sumit_lib/TabularData.cpp:262-331 | a character inside a token is appended to it |
| `Tokenizer.ScanChar` | sumit/sumit_lib/TabularData.cpp:262-331 | one turn of the loop keeps the machine in step with the pieces read so far |
| `Tokenizer.GetTokens` | sumit/sumit_lib/TabularData.cpp:262-331 | returns the number of tokens of the line and writes token j of every started piece into slot j; the other slots keep what they held |
| `Tokenizer.EmptyLineHasNoTokens` | sumit/sumit_lib/TabularData.cpp:262-331 | an empty line has no tokens |
| `Tokenizer.ConsecutiveSeparatorsCount` | sumit/sumit_lib/TabularData.cpp:262-331 | two separators in a row enclose an empty token |
| `Tokenizer.TrailingSeparatorAddsNone` | sumit/sumit_lib/TabularData.cpp:262-331 | a separator right after a token ends it without counting another |
| `Tokenizer.KeptText` | sumit/sumit_lib/TabularData.cpp:262-331 | all of a piece's characters, or all but its quotes |
| `Tokenizer.ValueOfPiece` | sumit/sumit_lib/TabularData.cpp:262-331 | a token is its piece from the first significant character on, with quotes dropped when asked |
| `Unpickers.InitialBounds` | sumit/Unpicker.cpp:13-22 | one bounds pair per cell |
| `Unpickers.InitialBoundsSound` | sumit/Unpicker.cpp:13-22 | every non-negative table that keeps the published values lies within the initial bounds, and a published cell is pinned at its value |
| `Unpickers.SuppressedTerms` | sumit/Unpicker.cpp:148-157 | exactly the terms over an in-range suppressed ('u' or 'm') cell |
| `Unpickers.NumberWithSuppressed` | sumit/Unpicker.cpp:143-165 | at most one per equation |
| `Unpickers.Reductions` | sumit/Unpicker.cpp:180-235 | as many equations as the first pass counted, each with at least one term and its cells in range |
| `Unpickers.Negated` | sumit/Unpicker.cpp:109-126 | the same cells with every sign flipped |
| `Unpickers.Tidy` | sumit/Unpicker.cpp:109-126 | a right-hand side of at least 0, over the same cells |
| `Unpickers.TidyAll` | sumit/Unpicker.cpp:109-126 | every equation tidied, in place |
| `Unpickers.Consolidation` | sumit/Unpicker.cpp:129-238 | tidied equations, none empty, over cells in range |
| `Unpickers.TidySound` | sumit/Unpicker.cpp:109-126 | tidying keeps the signs well formed and exactly the solutions of the equation |
| `Unpickers.SumSplits` | sumit/Unpicker.cpp:210-231 | an equation's sum is its suppressed part plus its published part |
| `Unpickers.ReducedSound` | sumit/Unpicker.cpp:210-231 | a table satisfies the reduced equation exactly when it satisfies the original |
| `Unpickers.ReductionsSound` | sumit/Unpicker.cpp:180-235 | every reduced equation is well formed and satisfied by the satisfying tables |
| `Unpickers.ConsolidationSound` | sumit/Unpicker.cpp:129-238 | consolidation keeps as many equations as the first pass counted, tidied and satisfied by every table that satisfies the originals |
| `Unpickers.SimplifyFrom` | sumit/Unpicker.cpp:267-295 | the terms kept plus the number removed is the original count; every kept term was in the equation |
| `Unpickers.SimplifyEquation` | sumit/Unpicker.cpp:252-297 | the same for one equation's case of the switch |
| `Unpickers.SimplifyEach` | sumit/Unpicker.cpp:251-298 | every equation simplified; terms kept plus terms removed is the original total |
| `Unpickers.Simplified` | sumit/Unpicker.cpp:241-301 | the equations are tidied, and the count returned is the number of terms removed |
| `Unpickers.SimplifyFromSound` | sumit/Unpicker.cpp:267-295 | with every known cell at its bound, removing known terms keeps the sum minus the right-hand side |
| `Unpickers.SimplifyEquationSound` | sumit/Unpicker.cpp:252-297 | a simplified equation stays satisfied when every known cell holds its bound |
| `Unpickers.SimplifySkipsShiftedTerm` | sumit/Unpicker.cpp:285-293 | the term shifted into a removed place is not looked at in the same pass |
| `Unpickers.SetInitialEquation` | sumit/Unpicker.cpp:317-361 | one bounds pair per cell |
| `Unpickers.SetInitialAll` | sumit/Unpicker.cpp:304-364 | one bounds pair per cell |
| `Unpickers.TermAtMostSum` | sumit/Unpicker.cpp:343-358 | with non-negative values and plus terms only, each value is at most the sum |
| `Unpickers.SetInitialSound` | sumit/Unpicker.cpp:304-364 | every non-negative satisfying table within the bounds stays within the bounds set |
| `Unpickers.LowerProcessing` | sumit/Unpicker.cpp:535-895 | the lower processing equation for a term is about its cell, starts from the right-hand side and adds only lower bounds and subtracts only upper bounds |
| `Unpickers.UpperProcessing` | sumit/Unpicker.cpp:535-895 | the upper processing equation adds only upper bounds and subtracts only lower bounds |
| `Unpickers.ProcessingSound` | sumit/Unpicker.cpp:535-895 | for a table within the bounds that satisfies the equation, the lower processing value is below the cell's value and the upper one above it |
| `Unpickers.RaiseLower` | sumit/Unpicker.cpp:535-895 | the bounds only get tighter |
| `Unpickers.LowerUpper` | sumit/Unpicker.cpp:535-895 | the bounds only get tighter |
| `Unpickers.LowerPassChanges` | sumit/Unpicker.cpp:535-895 | the lower pass only tightens, reports a change exactly when it tightened a bound, and otherwise leaves the bounds alone |
| `Unpickers.UpperPassChanges` | sumit/Unpicker.cpp:535-895 | the same for the upper pass |
| `Unpickers.ImproveEquation` | sumit/Unpicker.cpp:535-895 | the bounds only get tighter |
| `Unpickers.ImproveAll` | sumit/Unpicker.cpp:535-895 | the bounds only get tighter |
| `Unpickers.ImproveAllChanges` | sumit/Unpicker.cpp:535-895 | true means some bound got strictly tighter; false means nothing changed |
| `Unpickers.ImproveMonotone` | sumit/Unpicker.cpp:535-895 | improvement only tightens, and returns true exactly when the bounds changed |
| `Unpickers.LowerPassSound` | sumit/Unpicker.cpp:535-895 | a satisfying table within the bounds stays within the bounds of the lower pass |
| `Unpickers.UpperPassSound` | sumit/Unpicker.cpp:535-895 | the same for the upper pass |
| `Unpickers.ImproveSound` | sumit/Unpicker.cpp:535-895 | a table within the bounds that satisfies the consolidated equations stays within the improved bounds |
| `Unpickers.SimplifyLoop` | sumit/Unpicker.cpp:905-907 | the loop never adds terms and keeps cells in range |
| `Unpickers.ImproveLoop` | sumit/Unpicker.cpp:909-913 | the bounds only get tighter |
| `Unpickers.ImproveLoopStops` | sumit/Unpicker.cpp:909-913 | improvement is called between one and eleven times, and the last call changed nothing unless the cap stopped it |
| `Unpickers.Attacked` | sumit/Unpicker.cpp:898-917 | one bounds pair per cell, and the equations stay over cells in range |
| `Unpickers.TidyAllSound` | sumit/Unpicker.cpp:109-126 | tidied equations are well signed and keep their solutions |
| `Unpickers.SimplifiedSound` | sumit/Unpicker.cpp:241-301 | one pass of simplification keeps the equations well signed and satisfied when every known cell holds its bound |
| `Unpickers.SimplifyLoopSound` | sumit/Unpicker.cpp:905-907 | the simplification loop keeps a satisfying non-negative table within the bounds and satisfying the equations |
| `Unpickers.ImproveLoopSound` | sumit/Unpicker.cpp:909-913 | every call of the improvement loop keeps a satisfying table within the bounds |
| `Unpickers.AttackSound` | sumit/Unpicker.cpp:898-917 | every non-negative table that keeps the published values and satisfies the consistency equations lies within the bounds the attack computes, provided every bound pinned along the way is the cell's true value |
| `Unpickers.LowerLimit` | sumit/Unpicker.cpp:378-383 | the lower protection limit, or FLOAT_PRECISION when it is negative |
| `Unpickers.ExposureOf` | sumit/Unpicker.cpp:385-405 | exact exactly when the bounds meet and equal the true value; within protection exactly when they do not meet and one of the three tests holds |
| `Unpickers.ExactList` | sumit/Unpicker.cpp:413-438 | every listed cell is a primary whose value is known exactly |
| `Unpickers.PartialList` | sumit/Unpicker.cpp:441-478 | every listed cell is a primary passing one of the three protection tests |
| `Unpickers.TallyAgrees` | sumit/Unpicker.cpp:367-410 | the counters count the 'u' and 'm' cells; the exact list is as long as the exact count; exact and partial exposures together are at most the primaries |
| `Unpickers.TidyEquation` | sumit/Unpicker.cpp:109-126 | the loop computes the tidied equation |
| `Unpickers.RemoveAt` | sumit/Unpicker.cpp:285-292 | the terms without the one at place j |
| `Unpickers.SetUpProcessing` | sumit/Unpicker.cpp:535-895 | the loop builds both processing equations of the term |
| `Unpickers.Unpicker.constructor` | sumit/Unpicker.cpp:7-35 | suppressed cells in [0, DBL_MAX], published ones pinned; no consolidated equations; all counters 0 |
| `Unpickers.Unpicker.TidyUp` | sumit/Unpicker.cpp:109-126 | the consolidated equations are replaced by their tidied forms |
| `Unpickers.Unpicker.CountSuppressed` | sumit/Unpicker.cpp:148-157 | the number of suppressed terms of the equation |
| `Unpickers.Unpicker.ReduceEquation` | sumit/Unpicker.cpp:199-231 | the reduced equation |
| `Unpickers.Unpicker.CountKept` | sumit/Unpicker.cpp:141-165 | the number of equations with a suppressed cell |
| `Unpickers.Unpicker.FillKept` | sumit/Unpicker.cpp:169-235 | a new array holding the reduced equations |
| `Unpickers.Unpicker.Consolidate` | sumit/Unpicker.cpp:129-238 | the consolidated equations are the consolidation of the table's equations; the counters are unchanged |
| `Unpickers.Unpicker.SimplifyEquationIn` | sumit/Unpicker.cpp:252-297 | the simplified equation and the number of terms removed |
| `Unpickers.Unpicker.SimplifyEachIn` | sumit/Unpicker.cpp:251-298 | every equation simplified, and the total removed |
| `Unpickers.Unpicker.Simplify` | sumit/Unpicker.cpp:241-301 | the equations become their simplified forms and the terms removed are returned |
| `Unpickers.Unpicker.SetInitialFor` | sumit/Unpicker.cpp:317-361 | the bounds set from one equation |
| `Unpickers.Unpicker.SetInitial` | sumit/Unpicker.cpp:304-364 | the bounds set from every equation; false exactly when one has no terms |
| `Unpickers.Unpicker.Accumulate` | sumit/Unpicker.cpp:535-895 | the running result plus or minus the chosen bounds of the cells |
| `Unpickers.Unpicker.EvaluateIn` | sumit/Unpicker.cpp:535-895 | the value of a processing equation under the current bounds |
| `Unpickers.Unpicker.FillProcessing` | sumit/Unpicker.cpp:535-895 | new arrays with the lower and upper processing equation of every term |
| `Unpickers.Unpicker.RaiseLowerIn` | sumit/Unpicker.cpp:535-895 | the bounds after raising the cell's lower bound, and whether it rose |
| `Unpickers.Unpicker.LowerUpperIn` | sumit/Unpicker.cpp:535-895 | the bounds after lowering the cell's upper bound, and whether it fell |
| `Unpickers.Unpicker.LowerPassIn` | sumit/Unpicker.cpp:535-895 | the bounds after the lower pass, and whether it changed any |
| `Unpickers.Unpicker.UpperPassIn` | sumit/Unpicker.cpp:535-895 | the bounds after the upper pass, and whether it changed any |
| `Unpickers.Unpicker.ImproveEquationIn` | sumit/Unpicker.cpp:535-895 | the bounds after both passes over one equation |
| `Unpickers.Unpicker.Improve` | sumit/Unpicker.cpp:535-895 | the bounds after improving with every equation, and whether any changed |
| `Unpickers.Unpicker.EvaluateExposure` | sumit/Unpicker.cpp:367-410 | the counters become the tally of the cells under the current bounds |
| `Unpickers.Unpicker.SimplifyUntilStable` | sumit/Unpicker.cpp:905-907 | the equations and bounds the simplification loop ends with |
| `Unpickers.Unpicker.ImproveUntilStable` | sumit/Unpicker.cpp:909-913 | the bounds the improvement loop ends with |
| `Unpickers.Unpicker.Attack` | sumit/Unpicker.cpp:898-917 | the equations and bounds of the attack, and the counters as their tally |

## Left out

- Floating point: every C++ `double` is a Dafny `real`. Rounding, overflow and NaN are not modelled. FLOAT_PRECISION is 0.0001 and DBL_MAX is its exact value. Eliminate's scaling by 10000 truncates toward zero explicitly.
- Randomness: every MTRand `random()` draw is a parameter. The scramble-mutation draws are required to lie in [0, 1) (`Genomes.PairsIn`), and several other draws are given directly as the index they produce, with range preconditions. MTRand's `random()` can also return 1.0, which would produce index N; that case is excluded there. `Selections.TournamentIndex` does handle a draw of 1.0, as the source's clamp does.
- Clocks: `time()`, `System.currentTimeMillis` and TOTAL_EXECUTION_TIME (whose value is not in the available sources) are parameters. The sleeps between polling passes are not modelled.
- Remote solver service and LP: HTTP requests, sockets, temporary files and the COIN LP are not modelled. The service's replies (busy, started, still running, completed with costs and fitness, error) come from an `Oracle` parameter. The LP's answers come from the `lp` parameter of `Solvers`.
- Loops that need not end get fuel and report `FuelExhausted` when it runs out:
  - the PMX `map_gene` chase;
  - the `fill_parent_pool` and `grow_clones_pool` draws;
  - the `evaluate_fitness` polling rounds;
  - JJData's level inference and the Unpicker and Eliminate fixpoint loops.
  
  Behaviour beyond the fuel bound is not modelled.
- Genomes.MapGene: PMX is modelled as written, including the `== 0` empty-slot test against slots initialised to -1. No corrected version is given, and no permutation property is claimed for PMX. Non-termination on a concrete input is shown by MapGeneRunsOn and PmxRunsOn.
- Genomes.Pmx and DistancePreserving.Dpx: neither is claimed to preserve the permutation. DPX is stated by its fragments and their assembly.
- GAProtections.GAProtection.Protect: the operator choices (selection, crossover, mutation and replacement kinds) are fixed by the constructor's configuration. A fatal `logger->error` exit is modelled as an error outcome, not as process termination.
- GroupedProtections.GroupedProtection.constructor: the draws are given per genome length, because the length is known only after grouping.
- Groups.AssignCells: the contract states the group invariants (size bound, no duplicates, only stored cells, packed to the front). It does not state that each cell goes to the first group that admits it.
- Groups.Groups.constructor: with no primary cells the source leaves the group count and the group array uninitialised. The model uses 0 groups and an empty array.
- CellSuppressionTool.BaseName: only bounds the length of the result. The exact text is not stated.
- SessionRegistry.Sessions.Create: the new session's identifier is a parameter and is required to be unused. The source draws a random UUID.
- SessionRegistry.Sessions.CheckForOrphans: the orphans are removed together and then closed, where the source removes and closes each in one turn; the end state is the same.
- Sessions: the Java executor, `ConcurrentHashMap` locking, the orphan-handler thread and shutdown hooks are not modelled; the registry is sequential. ServerSession.Session.Close does not model deleting the session's files, and the process is a flag.
- EvaluationCache `remove` deletes a result's JJ file. When `Add` replaces an entry, the deletion is recorded in `removedFiles`; the file system is not touched.
- FitnessEvaluation.Answers: the solver service is taken to hand back between 1 and N costs for a completed run. The source relies on this without checking: `read_cost_file` fills a buffer of N costs, and the cross-check reads the last cost read.
- File I/O is not modelled:
  - JJ parsing (the fscanf loop is replaced by the parsed cells and equations) and `write_jj_file`;
  - `ReadMetaData`/`ReadCellData` line reading and the table writers;
  - `write_perm_file`, `read_cost_file`, `write_cost_file` and `read_permutation_file`;
  - the samples and progress logs and all logging.
- `get_outputjjfile` and the file naming of partitions are not part of this model.
- LegacyPartitioning.Partitioning.RecordPartition: the index is a `nat`. The source takes an `int` and checks only `index >= number_of_partitions`, so a negative index writes outside its arrays; that undefined behaviour is not modelled.
- LegacyPartitioning.Partitioning.GetNumberOfCells: the index is a `nat`, for the same reason; a negative index reads outside the array in the source.
- LegacyPartitioning.Partitioning.GetNumberOfPrimaryCells: the index is a `nat`, for the same reason; a negative index reads outside the array in the source.
- JJData recombination: a partition cell read through an index outside the partition counts as unmarked. The source reads out of bounds there.
- The d-dimensional total and equation generators in TabularData, `set_weights_and_lower_and_upper_bounds`, and the unused `suppress_marginals`/`suppress_large_cells` are not part of this model.

## Findings

| source | as written | input that shows it | evidently intended | confidence | as-written member | corrected member |
|---|---|---|---|---|---|---|
| uwesdc/src/sumit_lib/JJData.cpp:438 | `recombine` reads the partition cell at `cell_id_to_index(i)`, looking the loop index up as an id in the whole table's map | table ids [1, 0]; partition cells [id 0 'm', id 1 's']: at i = 0 the lookup reads partition cell 1, so table index 0 (the `cells[id]` target for id 0) is left unmarked; at i = 1 it reads partition cell 0, so table index 1 is marked. The divergence needs a table whose ids are not its indices | test partition cell `i` itself and mark `cells[id]` | not executed | `JJData.RecombineMissesMarkedCell` | `JJData.JJTable.Recombine` |
| sumit/sumit_lib/GAProtection.cpp:212 | `allocate_pools` gives `pool_parent_size = MIN(cores, max_evaluations)` and `default_number_of_clones = MIN(cores, max_evaluations - pool_parent_size)`, which is 0 whenever max_evaluations <= cores (one or two genes on any cores, three genes on six or more cores), yet mutation and replacement still use clone 0 | two genes and four cores: max_evaluations 2, pool_parent_size 2, no clones; likewise three genes and six cores: max_evaluations 6, pool_parent_size 6, no clones. A call of `protect` would then touch clone slot 0 of an empty pool. The defect is latent: with no default clone the constructors' counted evaluation of the pool_parent_size parents already reaches max_evaluations, so `time_to_terminate` stops the search before `protect` is first called | make `protect` itself safe by running no generation when there is no clone | not executed; latent, not reachable through the constructors and `time_to_terminate` | `Selections.FewGenesNoClones` | `GAProtections.GAProtection.Protect` |
| sumit/sumit_lib/TabularData.cpp:873 | the one-word attribute test for `<NUMERIC>` comes before the compound `<NUMERIC><SHADOW>`, `<NUMERIC><COST>`, `<NUMERIC><LOWERPL>` and `<NUMERIC><UPPERPL>` tests; matching is by prefix, so the compound branches are dead | the metadata word `<NUMERIC><COST>` is read as a plain numeric field | try the compound attributes first | not executed | `TabularData.NumericCostReadAsNumeric` | `TabularData.ClassifyWord` |
