# SynQTab data-corruption engine and experiment identities, in Dafny

SynQTab is a research framework that measures how synthetic tabular data generators behave
on clean ("perfect") and deliberately polluted ("imperfect", "semi-perfect") training data.
This project models its deterministic core:

- the seeded random facade `ReproducibleOperations`;
- the `DataError` corruption template and its nine concrete kinds;
- the legacy `Polluter` enum;
- the `DataCorruptor` of the motivating example, and its `clean_placeholder_rows`;
- the `#`-joined identities of multi-table experiments and of evaluations, and their `/`-joined storage prefixes;
- the skip state machine of `Evaluation.run`;
- the enum short names, the comma-separated seed parser, and the request validation and dispatch of `Dataset`.

A pandas DataFrame is a `Frames.Table`: a column list with kinds (numeric, categorical, other), an index of row labels, and one `map<ColName, Value>` per row. Where the code changes a frame in place with `.loc`, the model uses the class `Frames.Frame`, whose methods reassign its `rows` field. Every such method is proved equal to a specification function, and the properties are proved about those functions.

numpy's random generators are oracles:

- `Reproducibility.Numpy` stands for the global legacy generator, re-seeded before every draw;
- `Pollution.Rng` stands for the global generator used by `Polluter`, counting its draws;
- `Motivating.Generator` stands for `default_rng(seed)`, with a draw counter.

Each oracle carries a `Sound()` predicate that constrains it only by size and membership (a permutation of `0..n-1`, positions below `n`). A witness generator shows each predicate can be met. A draw is a function of the seed and of the draw's arguments, so every result is reproducible by construction.

Module by module:

| module | models |
|---|---|
| `Reproducibility` | `ReproducibleOperations` |
| `DataError` | the template |
| `CategoricalShift`, `LabelError`, `Placeholder`, `ExplicitMissingValue`, `OrphanedForeignKey`, `SkewedForeignKey`, `NearDuplicateRow`, `DuplicateRows`, `RepresentationalInconsistencies` | the kinds |
| `Pollution` | `Polluter` |
| `MultiExperiments`, `Evaluations`, `Minio` | the identity codec |
| `Enums`, `Environment`, `Datasets` | the helpers |
| `Motivating` | the motivating example |

Shared helpers:

| module | holds |
|---|---|
| `Frames` | the frame model |
| `Text` | split, join, strip, integer printing and parsing |
| `Wrappers` | `Option`, `Result`, error names |

`sample_from` without replacement hands the request to `numpy.random.choice`, which raises ValueError when asked for more items than the list holds; `Reproducibility.SampleFrom` fails with ValueError there.

## Model

| member | source | states |
|---|---|---|
| Reproducibility.SeedState.EnsureReproducibility | synqtab/reproducibility/ReproducibleOperations.py:20-30 | an unset seed and seed 0 (falsy) raise ReproducibilityError; success only for a stored seed numpy accepts |
| Reproducibility.ReproducibleOperations.constructor | synqtab/reproducibility/ReproducibleOperations.py:13-14 | the facade starts with no seed, so no draw is allowed yet |
| Reproducibility.ReproducibleOperations.SetRandomSeed | synqtab/reproducibility/ReproducibleOperations.py:32-34 | the stored seed is overwritten with the new one; draws become possible exactly for a truthy seed numpy accepts |
| Reproducibility.ReproducibleOperations.GetCurrentRandomSeed | synqtab/reproducibility/ReproducibleOperations.py:36-38 | returns the last seed set |
| Reproducibility.PyInt | synqtab/reproducibility/ReproducibleOperations.py:68 | `int(x)` truncates toward zero |
| Reproducibility.SampleFrom | synqtab/reproducibility/ReproducibleOperations.py:40-70 | an empty list gives [] without touching the seed; otherwise the seed check, then exactly max(int(how_many), at_least) items drawn from the list, a sub-multiset without replacement, ValueError when too many are asked for |
| Reproducibility.Permutation | synqtab/reproducibility/ReproducibleOperations.py:94-102 | fails exactly when unseeded; otherwise a rearrangement with the same multiset, duplicate-free when the input is |
| Reproducibility.ShuffleReindexDataframe | synqtab/reproducibility/ReproducibleOperations.py:104-116 | fails exactly when unseeded; otherwise the same columns, the same multiset of rows, and index 0..n-1 |
| Reproducibility.ApplyPermutation | synqtab/reproducibility/ReproducibleOperations.py:101-102 | reordering by a permutation of positions keeps the multiset of elements |
| Reproducibility.ApplySameMultiset | synqtab/reproducibility/ReproducibleOperations.py:101-102 | two position lists with the same multiset select the same multiset of elements |
| Reproducibility.PrefixSubMultiset | synqtab/reproducibility/ReproducibleOperations.py:66-70 | the first k draws of a permutation are a sub-multiset of the list, which is what choice without replacement returns |
| Reproducibility.IdentityNumpySound | synqtab/reproducibility/ReproducibleOperations.py:25 | the generator assumption can be met: the identity generator satisfies it |
| DataError.CheckFractions | synqtab/errors/DataError.py:57-67 | passes exactly when both fractions lie in [0, 1]; otherwise ValueError |
| DataError.DataError.Create | synqtab/errors/DataError.py:11-23 | construction succeeds exactly for valid fractions, raising ValueError otherwise, and starts with empty column and row lists and no corrupted data |
| DataError.DataError.constructor | synqtab/errors/DataError.py:43-49 | a new template holds its kind and fractions and empty work lists |
| DataError.RowCount | synqtab/errors/DataError.py:84-87 | int(max(row_fraction * n, 1)) lies between 1 and n for a non-empty index |
| DataError.RowsToCorrupt | synqtab/errors/DataError.py:84-87 | an empty index gives []; otherwise fails exactly when unseeded, else RowCount labels taken from the index, distinct when the index is |
| DataError.Pool | synqtab/errors/DataError.py:93-110 | the pool for the applicability tag holds only numeric or categorical columns; CATEGORICAL_ONLY is the categorical list |
| DataError.ColumnsToCorrupt | synqtab/errors/DataError.py:89-110 | an empty pool gives []; otherwise the seed check, then columns from the pool, counted from the numeric plus categorical total, ValueError when that count exceeds the pool |
| DataError.ColumnCountFromTotal | synqtab/errors/DataError.py:90-91 | with 4 numeric and 1 categorical column and fraction 0.5, a categorical-only kind asks for 2 of 1 columns and fails with ValueError |
| DataError.ApplyKind | synqtab/errors/DataError.py:128-133 | the kind keeps the table's columns; a label error reports exactly [target], every other kind the drawn columns |
| DataError.Corrupted | synqtab/errors/DataError.py:118-136 | a successful corruption keeps the table shape and columns; the kind runs only when the drawn columns test true |
| DataError.CorruptedIntended | synqtab/errors/DataError.py:124-133 | `corrupt` as its comment intends, skipping the kind only when no column was drawn; a success keeps the table shape and columns |
| DataError.CorruptedApplied | synqtab/errors/DataError.py:118-136 | once rows are drawn and the drawn columns test true, the result is the kind applied to exactly those rows and columns, which exist in every row |
| DataError.IntendedApplied | synqtab/errors/DataError.py:124-133 | as intended, any non-empty column draw leads to the kind applied to exactly the drawn rows and columns |
| DataError.SeveralColumnsRejected | synqtab/errors/DataError.py:118-136 | with two or more columns drawn, `corrupt` raises ValueError at the truth test, where the intended `corrupt` applies the kind to all of them |
| DataError.IntendedAgrees | synqtab/errors/DataError.py:124-133 | when no column or one non-empty column name is drawn, `corrupt` as written and as intended give the same result |
| DataError.TwoColumnsRejected | synqtab/errors/DataError.py:118-136 | explicit missing values on a table with two numeric columns at column fraction 1.0: ValueError as written, both columns filled as intended |
| DataError.CorruptedReports | synqtab/errors/DataError.py:118-136 | the reported rows are the row draw; a success drew at most one column; when the drawn columns test false the table comes back unchanged with them; a label error that ran reports [target], every other kind the drawn columns |
| DataError.PoolColumnsShaped | synqtab/errors/DataError.py:72-82 | pool columns are columns of the table, so every row carries them |
| DataError.EmptyPoolLeavesData | synqtab/errors/DataError.py:125-133 | with an empty pool the returned table equals the input and no column is reported |
| DataError.ReportedRows | synqtab/errors/DataError.py:84-87 | the reported rows number RowCount, come from the index, and are distinct when the index is |
| DataError.ReportedColumns | synqtab/errors/DataError.py:89-136 | at most one column is reported, from the kind's pool or [target] for a label error; a non-label kind that reports a column was asked for exactly int(max(column_fraction * total, 1)) = 1 |
| DataError.UnseededFails | synqtab/errors/DataError.py:84-87 | on a non-empty table without a usable seed, corrupting fails with the seed check's error (ReproducibilityError for an unset or zero seed) before anything is drawn |
| DataError.DataError.Corrupt | synqtab/errors/DataError.py:118-136 | works on a deep copy: the caller's frame is unchanged and the result is the specification `Corrupted` |
| DataError.DataError.CorruptCopy | synqtab/errors/DataError.py:121-136 | draws rows then columns on the copy and returns `Corrupted` |
| DataError.DataError.CorruptDrawn | synqtab/errors/DataError.py:124-136 | with the draws stored: ValueError for two or more drawn columns (numpy's ambiguous truth), the kind applied on the copy when the one drawn column name is non-empty, the copy untouched otherwise; the result is `Corrupted` |
| DataError.DataError.ApplyDrawn | synqtab/errors/DataError.py:127-136 | `_apply_corruption` on the copy: the kind's failure, or the kind's table and reported columns with the drawn rows, which the fields then hold |
| DataError.DataError.ApplyCorruption | synqtab/errors/DataError.py:128-133 | the in-place dispatch on the copy equals `ApplyKind` |
| CategoricalShift.Permuted | synqtab/errors/CategoricalShift.py:23-24 | the permuted distinct values are the same multiset, still duplicate-free |
| CategoricalShift.ShiftColumn | synqtab/errors/CategoricalShift.py:22-27 | one column's shift keeps the row count and each row's columns |
| CategoricalShift.Shift | synqtab/errors/CategoricalShift.py:22-27 | the loop over columns keeps the row count and each row's columns |
| CategoricalShift.ApplyCorruption | synqtab/errors/CategoricalShift.py:19-29 | the in-place `.loc` loop leaves the frame equal to `Shift` of the old rows |
| CategoricalShift.ShiftPointwise | synqtab/errors/CategoricalShift.py:22-27 | each selected cell is replaced through the column's value-to-value map, and every other cell is kept |
| CategoricalShift.ShiftUntouched | synqtab/errors/CategoricalShift.py:25-27 | cells outside the selected rows and columns are unchanged |
| CategoricalShift.ShiftStaysInColumn | synqtab/errors/CategoricalShift.py:23-27 | after the shift, every value of a shifted column was a value of that column before |
| CategoricalShift.ShiftIsBijection | synqtab/errors/CategoricalShift.py:23-26 | two selected cells are equal after the shift exactly when they were equal before |
| CategoricalShift.ShiftMayKeepValues | synqtab/errors/CategoricalShift.py:24 | a plain permutation is not a derangement: under the identity permutation the shift changes nothing |
| LabelError.ApplyCorruption | synqtab/errors/LabelError.py:17-28 | a missing target raises KeyError and changes nothing; otherwise the categorical shift is applied to the target column only |
| LabelError.OnlyTargetChanges | synqtab/errors/LabelError.py:21-28 | only target cells of selected rows can change; every other cell keeps its value |
| Placeholder.ApplyCorruption | synqtab/errors/Placeholder.py:26-35 | the per-column `.loc` writes leave the frame equal to the sentinel fill of the selected cells |
| Placeholder.PlaceholderCells | synqtab/errors/Placeholder.py:6-7 | a selected categorical cell becomes "UNKNOWN", any other selected cell -1, and unselected cells are kept |
| Placeholder.PlaceholderIdempotent | synqtab/errors/Placeholder.py:26-35 | applying the placeholders twice gives the same rows as once |
| ExplicitMissingValue.ApplyCorruption | synqtab/errors/ExplicitMissingValue.py:21-23 | the single `.loc` write leaves the frame equal to NaN filled into the selected cells |
| ExplicitMissingValue.MissingCells | synqtab/errors/ExplicitMissingValue.py:8 | every selected cell becomes NaN and every other cell is kept |
| ExplicitMissingValue.MissingIdempotent | synqtab/errors/ExplicitMissingValue.py:21-23 | writing NaN twice is writing it once |
| OrphanedForeignKey.ApplyCorruption | synqtab/errors/OrphanedForeignKey.py:23-30 | the per-column writes leave the frame equal to NA filled into the selected cells |
| OrphanedForeignKey.OrphanedCells | synqtab/errors/OrphanedForeignKey.py:26-28 | the row count is kept, selected cells become NA and nothing else changes; no new value is invented, whatever the docstring says |
| SkewedForeignKey.SkewSize | synqtab/errors/SkewedForeignKey.py:43-49 | max(int((1 - row_fraction) * n), 1) lies between 1 and n |
| SkewedForeignKey.SkewRows | synqtab/errors/SkewedForeignKey.py:47-50 | the rows to make equal are resampled from the whole index, SkewSize of them, distinct when the index is |
| SkewedForeignKey.SkewColumn | synqtab/errors/SkewedForeignKey.py:31-53 | one column's skew keeps the row count and each row's columns |
| SkewedForeignKey.Skew | synqtab/errors/SkewedForeignKey.py:30-55 | the loop over columns keeps the row count and each row's columns |
| SkewedForeignKey.ApplyCorruption | synqtab/errors/SkewedForeignKey.py:26-55 | the in-place loop leaves the frame equal to `Skew`, whichever rows were passed in |
| SkewedForeignKey.SkewStep | synqtab/errors/SkewedForeignKey.py:30-53 | one more loop iteration is one more column skewed |
| SkewedForeignKey.SkewPointwise | synqtab/errors/SkewedForeignKey.py:37-53 | a cell of a skewed column in a resampled row holds the most frequent non-null value, and every other cell is kept |
| SkewedForeignKey.SkewUntouched | synqtab/errors/SkewedForeignKey.py:31-35 | an all-null column, and any column not listed, keeps its values |
| SkewedForeignKey.SkewSpreadsMostFrequent | synqtab/errors/SkewedForeignKey.py:37-53 | resampled rows hold the column's most frequent value; the other rows keep theirs |
| SkewedForeignKey.SkewAtLeast | synqtab/errors/SkewedForeignKey.py:43-53 | with a duplicate-free index, at least SkewSize rows hold the most frequent value afterwards |
| SkewedForeignKey.LabelPositions | synqtab/errors/SkewedForeignKey.py:53 | k distinct labels of the index occupy at least k positions |
| NearDuplicateRow.EditColumn | synqtab/errors/NearDuplicateRow.py:39-50 | one column's edit (typos or -1) keeps the row count and each row's columns |
| NearDuplicateRow.Edits | synqtab/errors/NearDuplicateRow.py:39-50 | the loop over columns keeps the row count and each row's columns |
| NearDuplicateRow.NearDuplicates | synqtab/errors/NearDuplicateRow.py:29-55 | after the edits, the output has n + (selected rows) rows, index 0..n+k-1 and the multiset of the edited rows plus the held-out originals; it fails past the edits exactly when unseeded |
| NearDuplicateRow.ApplyCorruption | synqtab/errors/NearDuplicateRow.py:29-55 | the in-place edits then concat-and-shuffle equal `NearDuplicates`, with the frame holding the edited rows |
| NearDuplicateRow.FailureExtends | synqtab/errors/NearDuplicateRow.py:39-50 | a failing column stops the loop: editing more columns fails with the same error |
| NearDuplicateRow.EditsPointwise | synqtab/errors/NearDuplicateRow.py:24-50 | the edits succeed exactly when every selected categorical cell admits its typo; a selected categorical cell then holds the typo of its value |
| NearDuplicateRow.EditsNumericAndUntouched | synqtab/errors/NearDuplicateRow.py:24-50 | selected non-categorical cells become -1 and unselected cells are kept |
| NearDuplicateRow.NearDuplicateCounts | synqtab/errors/NearDuplicateRow.py:36-53 | with a duplicate-free index, the output has n + k rows, and each held-out copy equals the selected row as it was before any edit |
| DuplicateRows.ApplyCorruption | synqtab/pollution/DuplicateRows.py:13-16 | fails exactly when unseeded; otherwise n + (selected rows) rows, index 0..n+k-1, the original rows plus copies of the selected ones as a multiset, the columns argument unused |
| DuplicateRows.DuplicatesOfSelected | synqtab/pollution/DuplicateRows.py:14-15 | with a duplicate-free index and seeded, the output has n + k rows: the originals plus one copy of each selected row |
| RepresentationalInconsistencies.DoubleAt | synqtab/pollution/RepresentationalInconsistencies.py:43-50 | the extra-letter edit doubles the character at the position, lengthening by one |
| RepresentationalInconsistencies.DropAt | synqtab/pollution/RepresentationalInconsistencies.py:62-68 | the missing-letter edit removes the character at the position, shortening by one |
| RepresentationalInconsistencies.SwapAt | synqtab/pollution/RepresentationalInconsistencies.py:80-89 | the swapped-letter edit exchanges positions i and i+1 and keeps every other character |
| RepresentationalInconsistencies.DropAfterDouble | synqtab/pollution/RepresentationalInconsistencies.py:43-68 | removing a doubled character undoes the extra letter |
| RepresentationalInconsistencies.SwapTwice | synqtab/pollution/RepresentationalInconsistencies.py:80-89 | swapping twice at the same position restores the string |
| RepresentationalInconsistencies.DoubleMultiset | synqtab/pollution/RepresentationalInconsistencies.py:43-50 | the extra letter adds one copy of an existing character |
| RepresentationalInconsistencies.DropMultiset | synqtab/pollution/RepresentationalInconsistencies.py:62-68 | the missing letter removes one character and nothing else |
| RepresentationalInconsistencies.SwapMultiset | synqtab/pollution/RepresentationalInconsistencies.py:80-89 | the swap keeps the character multiset |
| RepresentationalInconsistencies.PyRange | synqtab/pollution/RepresentationalInconsistencies.py:44 | `range(n)` is 0..n-1, and empty for n <= 0 |
| RepresentationalInconsistencies.DrawPosition | synqtab/pollution/RepresentationalInconsistencies.py:44-82 | drawing from an empty range raises IndexError; otherwise the seed check, then a position below n |
| RepresentationalInconsistencies.ApplyExtraLetter | synqtab/pollution/RepresentationalInconsistencies.py:33-50 | the empty string raises IndexError; otherwise the result doubles some existing position |
| RepresentationalInconsistencies.ApplyMissingLetter | synqtab/pollution/RepresentationalInconsistencies.py:52-68 | the empty string raises IndexError; otherwise the result drops some existing position |
| RepresentationalInconsistencies.ApplySwappedLetter | synqtab/pollution/RepresentationalInconsistencies.py:70-89 | strings shorter than 2 raise IndexError; otherwise the result swaps some adjacent pair |
| RepresentationalInconsistencies.ApplyTypo | synqtab/pollution/RepresentationalInconsistencies.py:11-31 | exactly one of the three typos, chosen by the seeded draw, applied to a string, with its length change; non-strings raise TypeError and short strings IndexError |
| RepresentationalInconsistencies.SameKindEverywhere | synqtab/pollution/RepresentationalInconsistencies.py:24-31 | under one seed every value gets the same kind of typo, so the same length change |
| RepresentationalInconsistencies.TyposOf | synqtab/pollution/RepresentationalInconsistencies.py:104-110 | one typo per distinct value, keeping the count |
| RepresentationalInconsistencies.TyposOfEach | synqtab/pollution/RepresentationalInconsistencies.py:104-110 | the per-value typos succeed exactly when each value's typo does, and then hold each value's typo; otherwise the first failure is reported |
| RepresentationalInconsistencies.TypoColumn | synqtab/pollution/RepresentationalInconsistencies.py:104-116 | one column's typos keep the row count and each row's columns |
| RepresentationalInconsistencies.Typos | synqtab/pollution/RepresentationalInconsistencies.py:118-124 | the loop over columns keeps the row count and each row's columns |
| RepresentationalInconsistencies.ApplyCorruptionToCategoricalColumn | synqtab/pollution/RepresentationalInconsistencies.py:91-116 | the in-place column write equals `TypoColumn`, or raises its error leaving the frame unchanged |
| RepresentationalInconsistencies.ApplyCorruption | synqtab/pollution/RepresentationalInconsistencies.py:118-124 | the column loop equals `Typos`, or raises its error |
| RepresentationalInconsistencies.FailureExtends | synqtab/pollution/RepresentationalInconsistencies.py:118-124 | a failing column stops the loop: more columns fail with the same error |
| RepresentationalInconsistencies.TyposPointwise | synqtab/pollution/RepresentationalInconsistencies.py:104-116 | succeeds exactly when every selected non-null cell admits its typo; then each such cell holds the typo of its own value and the rest is kept |
| RepresentationalInconsistencies.TypoCells | synqtab/pollution/RepresentationalInconsistencies.py:104-116 | selected non-null cells become typos of their values; null or unselected cells are kept |
| Pollution.InRangePercents | synqtab/pollution/Polluter.py:37 | keeps exactly the candidates with 0 < p <= 100 |
| Pollution.CompatiblePercents | synqtab/pollution/Polluter.py:25-37 | NONE gives [0]; every other polluter keeps exactly the candidates in (0, 100] |
| Pollution.InRangeAppend | synqtab/pollution/Polluter.py:37 | the filter distributes over concatenation |
| Pollution.CompatibleAppend | synqtab/pollution/Polluter.py:37 | the filter keeps the candidates' order: filtering a concatenation filters each part |
| Pollution.InRangeIdempotent | synqtab/pollution/Polluter.py:37 | filtering twice is filtering once |
| Pollution.CompatibleIdempotent | synqtab/pollution/Polluter.py:33-37 | for every polluter, the compatible percents of the compatible percents are the same list |
| Pollution.CompatibleKeepsValid | synqtab/pollution/Polluter.py:37 | a list already in (0, 100] is returned unchanged |
| Pollution.IdentityRngSound | synqtab/pollution/Polluter.py:59 | the generator assumption can be met |
| Pollution.Choice | synqtab/pollution/Polluter.py:64-81 | `choice(pool, size, replace=False)` returns `size` items, a sub-multiset of the pool |
| Pollution.SampleCount | synqtab/pollution/Polluter.py:64-80 | max(int(percent * n / 100), 1) lies between 1 and n |
| Pollution.Draw | synqtab/pollution/Polluter.py:61-81 | the drawn rows and generic, categorical and numeric columns have SampleCount sizes and come from the index and the matching pools; an empty pool gives [] |
| Pollution.BlockColumn | synqtab/pollution/Polluter.py:92-114 | the block column read by the transform is the column's values in the block |
| Pollution.WriteBack | synqtab/pollution/Polluter.py:129 | writing the block back keeps the row count and each row's columns |
| Pollution.WriteBackPointwise | synqtab/pollution/Polluter.py:129 | a written cell holds its transformed value and every other cell is kept |
| Pollution.WriteBackStep | synqtab/pollution/Polluter.py:93-120 | one more column of the loop is one more column written |
| Pollution.FlaggedLabels | synqtab/pollution/Polluter.py:123 | the mask selection returns exactly the labels of flagged block rows |
| Pollution.ReportedAsWritten | synqtab/pollution/Polluter.py:123 | with `ne` as written, any block row holding a missing value (NaN or NA) in a shifted column is reported |
| Pollution.Reported | synqtab/pollution/Polluter.py:122-123 | a label is reported exactly when some shifted cell of its row changed value |
| Pollution.ChangedReportedAsWritten | synqtab/pollution/Polluter.py:122-123 | every row whose shifted cells changed value is also reported by `ne` as written |
| Pollution.Early | synqtab/pollution/Polluter.py:43-54 | out-of-range percents and empty tables raise ValueError; a zero percent or NONE returns (data, [], []); otherwise the run continues |
| Pollution.Corrupted | synqtab/pollution/Polluter.py:40-138 | every failure is ValueError: out-of-range percents and empty tables fail; a zero percent or NONE returns the table untouched; otherwise it succeeds exactly for a seed numpy accepts, and a success keeps the shape, columns and index |
| Pollution.Pollute | synqtab/pollution/Polluter.py:87-138 | after the draws, the result keeps the shape, columns and index; for CSCAR the rows reported and written back are those `ne` flags |
| Pollution.Corrupt | synqtab/pollution/Polluter.py:40-138 | the method on a frame returns `Corrupted` and leaves the caller's frame unchanged |
| Pollution.PolluteFresh | synqtab/pollution/Polluter.py:56-129 | deep-copies the frame and pollutes the copy: the result is `Pollute` of the frame's contents |
| Pollution.PolluteCopy | synqtab/pollution/Polluter.py:87-129 | the block loop and write-back on the deep copy return `Pollute` |
| Pollution.TargetsShaped | synqtab/pollution/Polluter.py:91-113 | the drawn columns are columns of the table, carried by every row |
| Pollution.Proceeds | synqtab/pollution/Polluter.py:43-59 | past the early returns the polluter is not NONE, the percents are valid, the table is non-empty, and the result is the drawn block polluted |
| Pollution.ReportedCounts | synqtab/pollution/Polluter.py:64-106 | MCAR and SCAR report SampleCount distinct-position rows from the index, and columns of the matching pool |
| Pollution.PolluteReports | synqtab/pollution/Polluter.py:89-131 | MCAR and SCAR report the drawn rows and the drawn columns |
| Pollution.DrawnMembers | synqtab/pollution/Polluter.py:64-81 | drawn rows come from the index, distinct when it is, and drawn columns from the kind's pool |
| Pollution.NoEligibleColumns | synqtab/pollution/Polluter.py:98-111 | SCAR with no numeric column, or CSCAR with no categorical column, returns the table untouched with nothing reported |
| Pollution.CorruptedCells | synqtab/pollution/Polluter.py:92-129 | with distinct column names, each reported cell holds its transformed value and every other cell is kept |
| Pollution.TargetsDistinct | synqtab/pollution/Polluter.py:64-81 | columns drawn without replacement from distinct names are distinct |
| Pollution.SubMultisetColumns | synqtab/pollution/Polluter.py:61-62 | the kind pools are sub-multisets of the table's columns |
| Pollution.CategoricalSubMultiset | synqtab/pollution/Polluter.py:61 | the categorical list is drawn from the column names |
| Pollution.NumericSubMultiset | synqtab/pollution/Polluter.py:62 | the numeric list is drawn from the column names |
| Pollution.ReportedRowsSuffice | synqtab/pollution/Polluter.py:123-129 | writing back only the changed rows gives the same table as writing back the whole drawn block |
| Pollution.AsWrittenWriteBack | synqtab/pollution/Polluter.py:123-129 | writing back the rows CSCAR reports with `ne` as written gives the same table as writing back the whole drawn block, so only the report carries the extra rows with missing values |
| Pollution.UnreportedUnchanged | synqtab/pollution/Polluter.py:122-123 | a drawn row that is not reported keeps every shifted cell |
| Pollution.MissingRowReported | synqtab/pollution/Polluter.py:123 | a one-row block holding NaN, or one holding NA, that the shift leaves as it was is reported as written, and not by `Reported` |
| Pollution.IdleJenga | synqtab/pollution/Polluter.py:94-120 | the idle transform returns every cell unchanged, the witness for the missing-value finding |
| Enums.DataPerfectness.ShortName | synqtab/enums/data.py:20-29 | three letters for IMPERFECT, four for the rest, a prefix of the upper-cased name |
| Enums.PerfectnessFromShortName | synqtab/enums/data.py:15-29 | decoding a short name yields a member with that short name |
| Enums.PerfectnessShortNames | synqtab/enums/data.py:27-29 | the short names are PERF, IMP and SEMI |
| Enums.PerfectnessShortNameRoundTrip | synqtab/enums/data.py:20-29 | every member decodes back from its short name |
| Enums.PerfectnessShortNamesDistinct | synqtab/enums/data.py:15-29 | different members have different short names |
| Enums.ExperimentType.ShortName | synqtab/enums/experiments.py:10-16 | three letters, a prefix of the upper-cased value |
| Enums.ExperimentTypeFromShortName | synqtab/enums/experiments.py:4-16 | decoding a short name yields a member with that short name |
| Enums.ExperimentShortNames | synqtab/enums/experiments.py:4-16 | the short names are NOR, PRI, AUG and REB |
| Enums.ExperimentShortNameRoundTrip | synqtab/enums/experiments.py:10-16 | every member decodes back from its short name |
| Enums.ExperimentShortNamesDistinct | synqtab/enums/experiments.py:4-16 | different members have different short names |
| Environment.ParseToken | synqtab/environment/experiment.py:14 | a stripped token parses exactly when it is an integer literal; otherwise ValueError |
| Environment.Tokens | synqtab/environment/experiment.py:14 | splitting on ',' always yields at least one piece |
| Environment.ParseCommaSeparatedIntegers | synqtab/environment/experiment.py:7-14 | blank input gives []; otherwise one integer per comma-separated piece, or ValueError |
| Environment.ParseTokens | synqtab/environment/experiment.py:14 | the parse succeeds exactly when every piece parses, and then each item is its piece's integer |
| Environment.EmptyTokenFails | synqtab/environment/experiment.py:14 | "1,,2" raises ValueError |
| Environment.ParseRender | synqtab/environment/experiment.py:12-14 | parsing the comma-joined decimal renderings of any list of integers gives the list back |
| Environment.DefaultSeeds | synqtab/environment/experiment.py:16-20 | without RANDOM_SEEDS the seeds are [100, 200, 300] |
| Environment.DefaultRendered | synqtab/environment/experiment.py:17 | the default string "100,200,300" is the comma-joined rendering of 100, 200 and 300, so it parses back to them |
| Minio.Strs | synqtab/enums/minio.py:23 | each item renders as its string, the member's value for enum members |
| Minio.Without | synqtab/enums/minio.py:22 | filtering never lengthens the list |
| Minio.WithoutMembers | synqtab/enums/minio.py:22 | filtering drops exactly the items equal to `ignore` |
| Minio.WithoutAppend | synqtab/enums/minio.py:22 | filtering keeps order: it distributes over concatenation |
| Minio.CreatePrefix | synqtab/enums/minio.py:19-23 | one kept item gives its string with no '/', and no kept item gives "" |
| Minio.CreatePrefixParts | synqtab/enums/minio.py:19-23 | with '/'-free items the prefix splits back into the kept items' strings; a truthy `ignore` drops exactly the items equal to it, a falsy one drops nothing |
| Minio.CreatePrefixSeparators | synqtab/enums/minio.py:23 | k kept '/'-free items give k - 1 separators |
| Minio.KeptNoSlash | synqtab/enums/minio.py:21-22 | kept items are given items, so they stay '/'-free |
| Minio.CreatePath | synqtab/configs/MinioSettings.py:17-20 | a single item gives its own string (verbatim, or the member's value) |
| Minio.CreatePathParts | synqtab/configs/MinioSettings.py:17-20 | the path splits back into every item's string in argument order, has |items| - 1 separators, and agrees with `create_prefix` without `ignore` |
| Minio.PerfectDataPath | synqtab/configs/MinioSettings.py:12-20 | PERFECT, DATA gives "perfect/data" |
| MultiExperiments.PerfectnessStr | synqtab/experiments/MultiExperiment.py:39 | `str` of the perfectness member holds no '#' or '/' |
| MultiExperiments.SeedStr | synqtab/experiments/MultiExperiment.py:38 | the rendered seed holds no '#' or '/' |
| MultiExperiments.RateStr | synqtab/experiments/MultiExperiment.py:41 | a falsy rate renders as NULL; a truthy one as a decimal that parses back to int(rate * 100) |
| MultiExperiments.ExperimentIdParts | synqtab/experiments/MultiExperiment.py:33-43 | seven parts in order: kind, dataset, seed, perfectness, error or NULL, rate part, generator |
| MultiExperiments.NonNull | synqtab/experiments/MultiExperiment.py:53-55 | keeps exactly the parts other than NULL |
| MultiExperiments.ExperimentIdSplits | synqtab/experiments/MultiExperiment.py:45-47 | when no setting contains '#', splitting the id on '#' gives back the seven parts |
| MultiExperiments.MinioPathParts | synqtab/experiments/MultiExperiment.py:49-55 | when no setting contains '/', the storage prefix splits into "data" followed by the non-NULL parts, with one '/' per non-NULL part |
| MultiExperiments.DataPrefixParts | synqtab/experiments/MultiExperiment.py:53-55 | the DATA folder followed by '/'-free parts, with NULL ignored, splits into "data" and the non-NULL parts |
| MultiExperiments.DataPrefixKept | synqtab/experiments/MultiExperiment.py:53-55 | the prefix keeps "data" and the non-NULL parts in order |
| MultiExperiments.DataPrefixNoSlash | synqtab/experiments/MultiExperiment.py:53-55 | the DATA folder and '/'-free parts render '/'-free |
| MultiExperiments.IdPartsFreeOf | synqtab/experiments/MultiExperiment.py:33-43 | each part is free of a separator the settings are free of |
| MultiExperiments.WithoutPlains | synqtab/experiments/MultiExperiment.py:54 | ignoring NULL among plain strings drops exactly the NULL strings |
| Evaluations.EvaluationMethod.Value | synqtab/enums/evaluators.py:4-15 | every method's value has three letters and no '#' |
| Evaluations.MethodFromValue | synqtab/enums/evaluators.py:4-15 | `EvaluationMethod(s)` finds the member with value s whenever one exists |
| Evaluations.Find | synqtab/enums/evaluators.py:4-15 | the lookup finds a member with the value whenever the list holds one |
| Evaluations.MethodValueRoundTrip | synqtab/enums/evaluators.py:4-15 | every method is found again from its value |
| Evaluations.MethodValueInjective | synqtab/enums/evaluators.py:4-15 | different methods have different values |
| Evaluations.IdPartsAsWritten | synqtab/evaluators/Evaluation.py:71-77 | as written, the first part is `str` of the method, "EvaluationMethod.<NAME>"; there must be a first target |
| Evaluations.IdParts | synqtab/evaluators/Evaluation.py:71-77 | three parts: a method code that decodes to the method, the first target, the second target or NULL |
| Evaluations.FromStr | synqtab/evaluators/Evaluation.py:80-94 | a decoded id has one or two targets |
| Evaluations.FromStrAsWritten | synqtab/evaluators/Evaluation.py:80-94 | as written, decoding never succeeds, and it fails as the corrected decoder does wherever that one fails |
| Evaluations.AsWrittenNeverDecodes | synqtab/evaluators/Evaluation.py:74-92 | an id produced as written is rejected with ValueError by its own decoder |
| Evaluations.IdRoundTrip | synqtab/evaluators/Evaluation.py:71-98 | for one or two '#'-free targets, the second not NULL, decoding the id gives back the method and the targets |
| Evaluations.Evaluation.constructor | synqtab/evaluators/Evaluation.py:22-37 | a new evaluation should compute exactly when its result does not exist yet, with no skip record and no run |
| Evaluations.NewEvaluation | synqtab/evaluators/Evaluation.py:22-37 | construction raises IndexError exactly when there is no target; otherwise a fresh evaluation that computes exactly when its result does not exist yet, with no skip record and no run |
| Evaluations.Evaluation.Run | synqtab/evaluators/Evaluation.py:100-132 | an existing result without force writes one "already exists" skip record under `str(self)` as written + '/' + the experiment id; a redundant baseline writes one skip naming the first rate; otherwise `_run` is called exactly once |
| Evaluations.ExistingIsSkipped | synqtab/evaluators/Evaluation.py:100-108 | an existing result with force=False is always skipped |
| Evaluations.ForceBypassesExistence | synqtab/evaluators/Evaluation.py:100-129 | force=True decides as a not-yet-existing result would, so it bypasses the existence check but not the baseline rule |
| Evaluations.PerfectNeverBaselineSkipped | synqtab/evaluators/Evaluation.py:115 | an experiment without a data error is never baseline-skipped |
| Evaluations.BaselineRule | synqtab/evaluators/Evaluation.py:113-129 | a computable evaluation is baseline-skipped exactly when there is an error, every target is R or S, and the rate is not ERROR_RATES[0] |
| Evaluations.MixedTargetsComputed | synqtab/evaluators/Evaluation.py:116-120 | a target other than R and S rules the baseline skip out |
| Datasets.ExperimentTypeFunctions | synqtab/data/Dataset.py:44-62 | the experiment-type map holds only experiment types, each with its own split and pollute functions |
| Datasets.PerfectnessFunctions | synqtab/data/Dataset.py:64-69 | the perfectness map holds only perfectness levels; only SEMIPERFECT is post-processed |
| Datasets.MappingsComplete | synqtab/data/Dataset.py:44-69 | every experiment type and perfectness is in its own map, and no perfectness is in the experiment-type map |
| Datasets.Validate | synqtab/data/Dataset.py:170-184 | a missing perfectness means PERFECT; the request passes exactly when a data error comes with IMPERFECT or SEMIPERFECT, or no data error comes with PERFECT or no perfectness, and then yields that perfectness; every other combination raises ValueError |
| Datasets.PrepareAsWritten | synqtab/data/Dataset.py:101-133 | an unknown experiment type raises NotImplementedError |
| Datasets.Prepare | synqtab/data/Dataset.py:101-133 | an unknown experiment type raises NotImplementedError |
| Datasets.UnknownTypeRejected | synqtab/data/Dataset.py:111-114 | a valid request naming no experiment type raises NotImplementedError |
| Datasets.PerfectRequestsUnpolluted | synqtab/data/Dataset.py:120-171 | without a data error the split result is returned unpolluted |
| Datasets.PollutedRequestsRejectedAsWritten | synqtab/data/Dataset.py:126-130 | as written, every valid polluted request raises NotImplementedError |
| Datasets.PollutedRequestsPrepared | synqtab/data/Dataset.py:124-133 | with the perfectness map, a polluted request splits, pollutes and post-processes, reconstructing only SEMIPERFECT |
| Motivating.FirstsGeneratorSound | motivating_example/motivating_example.py:59 | the generator assumption can be met |
| Motivating.Group | motivating_example/motivating_example.py:79-85 | each error type's group number is one of the five groups 0 to 4 |
| Motivating.FeatureColumns | motivating_example/motivating_example.py:61-64 | the numeric (or other) feature columns are exactly the columns of that kind other than the target |
| Motivating.LexAsymmetric | motivating_example/motivating_example.py:91 | string order is asymmetric |
| Motivating.LexTotal | motivating_example/motivating_example.py:91 | any two different strings are ordered |
| Motivating.Insert | motivating_example/motivating_example.py:91 | inserting into a sorted list gives a sorted list with one more element |
| Motivating.SortNames | motivating_example/motivating_example.py:91 | `sorted` gives a sorted permutation of the candidates |
| Motivating.PickCols | motivating_example/motivating_example.py:87-92 | no candidates gives [] and no draw; otherwise min(len, 3) columns drawn from the candidates, distinct when they are, with one draw |
| Motivating.PickedFrom | motivating_example/motivating_example.py:91-92 | choice without replacement from sorted candidates yields candidates, distinct when they are |
| Motivating.ErrorCount | motivating_example/motivating_example.py:76 | five groups of int(n * 0.1) rows fit into n rows |
| Motivating.Slice | motivating_example/motivating_example.py:80-84 | group g is shuffled[g*m .. (g+1)*m) |
| Motivating.IndexGroups | motivating_example/motivating_example.py:79-85 | the five groups are the five consecutive slices |
| Motivating.SlicesDisjoint | motivating_example/motivating_example.py:79-85 | slices of different groups of a duplicate-free sequence share no label |
| Motivating.IndexGroupsSized | motivating_example/motivating_example.py:76-85 | each group has int(n * 0.1) labels, all taken from the index |
| Motivating.IndexGroupsDisjoint | motivating_example/motivating_example.py:76-85 | with a duplicate-free index, the five groups are pairwise disjoint |
| Motivating.PickChain | motivating_example/motivating_example.py:68-73 | each pick in the chain returns min(len, 3) of its candidates |
| Motivating.TargetCols | motivating_example/motivating_example.py:68-73 | scale, shift, missing and noise each have picked columns; label flipping has none |
| Motivating.PlanFrom | motivating_example/motivating_example.py:76-85 | the row groups are the slices of the permutation drawn after the column picks |
| Motivating.MakePlan | motivating_example/motivating_example.py:67-85 | the plan is the column picks, then the permutation |
| Motivating.PlanColumns | motivating_example/motivating_example.py:68-92 | each error type's columns are min(len, 3) of its candidates |
| Motivating.PlanRows | motivating_example/motivating_example.py:76-85 | each error type's rows are int(n * 0.1) labels of the index |
| Motivating.PlanRowsDisjoint | motivating_example/motivating_example.py:76-85 | different error types get disjoint rows |
| Motivating.PlanFits | motivating_example/motivating_example.py:62-85 | the planned columns are feature columns of the table (never the target), and the planned rows are labels of the index |
| Motivating.PlanAvoidsTarget | motivating_example/motivating_example.py:62 | no planned column is the target |
| Motivating.Scaled | motivating_example/motivating_example.py:94-99 | scaling keeps the row count and each row's columns |
| Motivating.ScalingMultiplies | motivating_example/motivating_example.py:98 | a selected numeric cell is multiplied by 100, not by 10 as the docstring says; other cells are kept |
| Motivating.Unique | motivating_example/motivating_example.py:110 | `unique()` holds each value of the column exactly once |
| Motivating.ShiftChanges | motivating_example/motivating_example.py:120-124 | with at least two distinct values and an offset in [1, k), the shifted value differs and stays in the column |
| Motivating.Wrap | motivating_example/motivating_example.py:122 | the modulo wraps an index of at most 2k - 2 once |
| Motivating.ShiftColumn | motivating_example/motivating_example.py:109-124 | one column's shift keeps the shape and uses at most one draw (none below two distinct values) |
| Motivating.Shifted | motivating_example/motivating_example.py:101-125 | the loop keeps the shape and uses at most one draw per column |
| Motivating.ShiftedKeeps | motivating_example/motivating_example.py:101-125 | cells outside the selected rows and shifted columns are kept |
| Motivating.ShiftedSnoc | motivating_example/motivating_example.py:109-124 | one more loop iteration shifts one more column |
| Motivating.ShiftedCellsDiffer | motivating_example/motivating_example.py:109-124 | every selected cell of a shifted column with at least two distinct values differs from its old value |
| Motivating.MissingWritten | motivating_example/motivating_example.py:127-135 | a selected cell becomes -1 in a numeric column and "?" otherwise; other cells are kept |
| Motivating.AddNoise | motivating_example/motivating_example.py:144 | noise is added to numbers only |
| Motivating.Noised | motivating_example/motivating_example.py:137-145 | adding noise keeps the row count and each row's columns |
| Motivating.NoiseKeeps | motivating_example/motivating_example.py:137-145 | cells outside the selected rows and noise columns are kept |
| Motivating.NoisedSnoc | motivating_example/motivating_example.py:140-144 | one more loop iteration adds noise to one more column |
| Motivating.NoiseAdds | motivating_example/motivating_example.py:140-144 | a selected numeric cell gains the noise drawn for its column and row |
| Motivating.Others | motivating_example/motivating_example.py:154 | the options are exactly the labels that compare unequal to the value |
| Motivating.OthersCount | motivating_example/motivating_example.py:154 | at most one label is excluded, and none for NaN |
| Motivating.OthersAll | motivating_example/motivating_example.py:154 | a value that is not a label excludes nothing |
| Motivating.FlipOther | motivating_example/motivating_example.py:153-155 | `choice` turns the options into an array first: when they do not mix text with numbers or NaN, the new label is one of the labels and differs from a non-NaN old label; when they do, the new label is the text of one of the options |
| Motivating.FlipWritesNanText | motivating_example/motivating_example.py:153-155 | with labels NaN, "a" and "b", flipping "a" can write the text "nan", which is no label |
| Motivating.FlipKeepsNanText | motivating_example/motivating_example.py:153-155 | with labels "nan", NaN and "b", flipping "nan" can write "nan" back, so the label does not change |
| Motivating.FlipFromAt | motivating_example/motivating_example.py:156 | the selected row at position j of the labels takes draw k + j |
| Motivating.FlipFromColumn | motivating_example/motivating_example.py:149-156 | a selected row's new label is what `FlipOther` allows among the column's distinct labels |
| Motivating.Flipped | motivating_example/motivating_example.py:147-157 | flipping keeps the row count and each row's columns |
| Motivating.FlippedLabelsDiffer | motivating_example/motivating_example.py:147-157 | with at least two labels, each selected label is flipped as `FlipOther` says: to another existing label (any label, for NaN) when the other labels do not mix text with numbers or NaN, otherwise to the text of one of them; other cells are kept |
| Motivating.FlippedCell | motivating_example/motivating_example.py:147-157 | a cell after flipping is its row's flip when the row is selected, the column is the target and there are two labels or more, and is kept otherwise |
| Motivating.Inject | motivating_example/motivating_example.py:94-157 | each injection keeps the table's shape and only adds draws |
| Motivating.Step | motivating_example/motivating_example.py:161-165 | an injection runs only when its error type is active |
| Motivating.Corrupt | motivating_example/motivating_example.py:159-166 | the five injections in order keep the shape |
| Motivating.InjectKeeps | motivating_example/motivating_example.py:94-157 | an injection only touches its own rows and columns |
| Motivating.StepKeeps | motivating_example/motivating_example.py:161-165 | a step only touches its own rows and columns |
| Motivating.CorruptKeeps | motivating_example/motivating_example.py:159-166 | a cell that no active injection targets keeps its original value |
| Motivating.TargetKeptBeforeFlip | motivating_example/motivating_example.py:159-165 | the four feature injections never touch the target column |
| Motivating.NoiseInjected | motivating_example/motivating_example.py:137-145 | the noise injection adds the drawn noise and uses two draws per column |
| Motivating.MissingInjected | motivating_example/motivating_example.py:127-135 | the missing injection writes the sentinels and draws nothing |
| Motivating.FlipInjected | motivating_example/motivating_example.py:147-157 | the label injection is the label flip of its rows |
| Motivating.CorruptFlipsLabels | motivating_example/motivating_example.py:147-166 | with label flipping active and at least two labels, a selected label in the corrupted data is flipped from the original as `FlippedLabelsDiffer` says, numpy's text coercion included |
| Motivating.CorruptMarksMissing | motivating_example/motivating_example.py:127-166 | with missing active, its cells end up -1 or "?", since only label flipping runs after it and never touches features |
| Motivating.CorruptNothing | motivating_example/motivating_example.py:159-166 | `get_corrupted_data([])` equals the original |
| Motivating.DataCorruptor.constructor | motivating_example/motivating_example.py:54-85 | keeps a copy of the frame and makes the plan; the draws used are those of the plan |
| Motivating.NewDataCorruptor | motivating_example/motivating_example.py:54-85 | a missing target column raises KeyError; otherwise a planned corruptor over a copy of the frame |
| Motivating.DataCorruptor.InjectScaling | motivating_example/motivating_example.py:94-99 | the frame becomes the scaling injection of its old rows |
| Motivating.DataCorruptor.InjectShifting | motivating_example/motivating_example.py:101-125 | the frame becomes the shifting injection, with the draws it uses |
| Motivating.DataCorruptor.ShiftOne | motivating_example/motivating_example.py:110-124 | one column of the shifting loop, as `ShiftColumn` |
| Motivating.DataCorruptor.InjectMissing | motivating_example/motivating_example.py:127-135 | the frame becomes the missing injection |
| Motivating.DataCorruptor.InjectNoise | motivating_example/motivating_example.py:137-145 | the frame becomes the noise injection, with two draws per column |
| Motivating.DataCorruptor.InjectLabelFlipping | motivating_example/motivating_example.py:147-157 | the frame becomes the label-flip injection |
| Motivating.DataCorruptor.InjectIfActive | motivating_example/motivating_example.py:161-165 | one guarded line of `get_corrupted_data` |
| Motivating.DataCorruptor.GetCorruptedData | motivating_example/motivating_example.py:159-166 | returns a fresh frame holding `Corrupt` of the original, which is left unchanged |
| Motivating.CleanPositions | motivating_example/motivating_example.py:169-171 | keeps, in increasing order, exactly the positions of rows with no placeholder |
| Motivating.CleanPlaceholderRows | motivating_example/motivating_example.py:168-172 | the result keeps the columns and exactly the rows without a placeholder, with their labels, in order |
| Motivating.CleanKeepsExactly | motivating_example/motivating_example.py:168-172 | every kept row is placeholder-free, and every placeholder-free row is kept |
| Motivating.CleanPositionsAll | motivating_example/motivating_example.py:169-171 | with no placeholder present, every row is kept |
| Motivating.CleanIdempotent | motivating_example/motivating_example.py:168-172 | cleaning twice is cleaning once |

## Left out

- The `Singleton` metaclass and the class-level seed: a single `ReproducibleOperations` object stands for them. Concurrency between workers is not modelled.
- Float seeds: seeds are integers.
- `uniform`, `normal` and `train_test_split` of `ReproducibleOperations`: none of the modelled operations calls them.
- numpy's generators are oracles constrained by size and membership only, not the Mersenne Twister.
- `choice(replace=False)` is modelled as the first k positions of a permutation, which is how numpy's legacy generator draws it.
- `df.sample(frac=1)` is modelled as one permutation.
- Python's `int()` on strings also accepts underscores and unicode digits. Only ASCII digits with an optional '-' or '+' are parsed.
- The percents, fractions and the error rate are real numbers, not IEEE doubles. `int(rate * 100)` is an exact truncation.
- PyInt (Reproducibility.PyInt): rounding of the float product is not modelled.
- `DataError.options` and `validate_options`: they are a no-op and are left out.
- `full_name` and `short_name` of the kinds: they are labels used only in logs.
- pandas dtypes: a column's kind (numeric, categorical, other) is fixed in the column list.
- pandas NA propagation and duplicate column names are not modelled.
- `value_counts`: its order by frequency is modelled as first-occurrence order of the non-null values. The most frequent value is the first one with maximal count. Ties are not broken the way pandas breaks them.
- `replace(distinct, permuted)` in the categorical shift matches NaN only structurally.
- The Jenga transforms inside `Polluter` (MissingValues, Scaling, CategoricalShift): they are one oracle `Jenga`, a function of the column's block values.
- Corrupt (Pollution.Corrupt): the per-column `corrupted_subset[column] = ...` updates are modelled as one transform per column over the original block.
- `GaussianNoise`: the floating-point noise values are not modelled.
- Python's `str` of a number label is an oracle field of the motivating example's generator (`numberText`). The model does not tell integer labels from float labels.
- In the motivating example, noise values come from an oracle indexed by draw and row. `std()` and `uniform(0.1, 2.0)` are folded into it, and each column counts two draws.
- The motivating example's `default_rng(seed)` is a parameter.
- `MakePlan` and the sampling done by the constructor are modelled as functions of the generator, not as separate methods.
- FlippedLabelsDiffer (Motivating.FlippedLabelsDiffer): a NaN label is not promised to change, because `x != nan` keeps every option and may draw NaN again. Nor is a text label when the other labels mix text with numbers or NaN: the text of a number or of NaN can equal it (`Motivating.FlipKeepsNanText`).
- `ExperimentType.MULTI`: it does not exist in the shown enum. The multi-table experiment's kind short name is a parameter.
- `MultiExperiment._run` and `compute_training_size` are not modelled: they are I/O through Postgres, MinIO and the generators.
- `EvaluationTarget` is not part of this model. Targets are their string codes.
- `publish_task_if_valid` and `_is_valid` are not modelled: they are MinIO upload and evaluator compatibility.
- The existence check of `Evaluation` is a constructor argument. Postgres skip writes are a ledger field (`skipped`), and `_run` is a counter (`runs`).
- `Dataset`: the fetched frame, the metadata and the split and pollute functions are stubs in the source. The model records which functions are applied, in order.
- The seed environment variable is a parameter; `load_dotenv` is not modelled.
- Column names are strings. A numpy array holding the one integer column name 0 would also test false in `corrupt`; the model has no integer column names.
- ParseToken (Environment.ParseToken): strips only ASCII whitespace (space, tab, newline, carriage return, vertical tab, form feed); Python's `str.strip()` also strips other Unicode whitespace such as '\x1c'-'\x1f', U+0085 and U+00A0, so a token padded with those parses in Python and fails here.
- ParseCommaSeparatedIntegers (Environment.ParseCommaSeparatedIntegers): the same ASCII-only stripping, both for the blank-input test and for each piece.
- Run (Evaluations.Evaluation.Run): takes the first error rate as an argument. Evaluation.py:113 imports `ERROR_RATES` from `synqtab.environment.experiment`, which defines only `RANDOM_SEEDS`, so a run that gets past the existence check raises ImportError there; the model does not capture that ImportError.
- constructor (Evaluations.Evaluation.constructor): requires a target. Without one, `__init__` raises IndexError when its existence check renders `str(self)` (Evaluation.py:37); `Evaluations.NewEvaluation` models that error.
- `errors/Inconsistency.py` is not part of this model. `NearDuplicateRow` edits a categorical column through it; the model uses the typo routine of `RepresentationalInconsistencies` (one letter doubled, dropped or swapped per distinct value) in its place.
- `synqtab.pollution.DataError`, the base class of `DuplicateRows` and `RepresentationalInconsistencies`, is not part of this model. Both are run through the template of `errors/DataError.py` (`DataError.Corrupted`).
- Categorical dtype: a categorical column is modelled as a column of plain values. pandas keeps a fixed category set for it; the model does not, so it misses two behaviours. First, writing a value outside the categories raises TypeError in pandas and succeeds in the model (the lines below). Second, `value_counts().index` lists unused categories too, and the model's distinct values are only those present (the lines after).
- ApplyCorruption (Placeholder.ApplyCorruption): writes the categorical sentinel into a categorical column and succeeds, where pandas raises TypeError unless the sentinel is already a category.
- PlaceholderCells (Placeholder.PlaceholderCells): states the sentinel cells of a write that pandas rejects with TypeError for a categorical column without that category.
- TypoColumn (RepresentationalInconsistencies.TypoColumn): the misspelt values are written back and succeed, where pandas raises TypeError for a value that is not a category of the column. It also draws typos only for values present in the column, while `value_counts().index` of a categorical column includes unused categories, which take part in the draws.
- Typos (RepresentationalInconsistencies.Typos): the same write into categorical columns succeeds here and raises TypeError in pandas.
- ApplyCorruptionToCategoricalColumn (RepresentationalInconsistencies.ApplyCorruptionToCategoricalColumn): the same write succeeds here and raises TypeError in pandas.
- ApplyCorruption (RepresentationalInconsistencies.ApplyCorruption): the same write succeeds here and raises TypeError in pandas.
- TyposPointwise (RepresentationalInconsistencies.TyposPointwise): states the misspelt cells of a write that pandas rejects with TypeError.
- TypoCells (RepresentationalInconsistencies.TypoCells): states the misspelt cells of a write that pandas rejects with TypeError.
- EditColumn (NearDuplicateRow.EditColumn): the categorical edit is written back and succeeds, where pandas raises TypeError for a value that is not a category.
- Edits (NearDuplicateRow.Edits): the same categorical write succeeds here and raises TypeError in pandas.
- NearDuplicates (NearDuplicateRow.NearDuplicates): the same categorical write succeeds here and raises TypeError in pandas.
- ApplyCorruption (NearDuplicateRow.ApplyCorruption): the same categorical write succeeds here and raises TypeError in pandas.
- EditsPointwise (NearDuplicateRow.EditsPointwise): states the edited cells of a categorical write that pandas rejects with TypeError.
- ApplyKind (DataError.ApplyKind): for Placeholders, Typos and NearDuplicate on categorical columns it succeeds where pandas raises TypeError on a new category.
- ApplyCorruption (DataError.DataError.ApplyCorruption): the same; the in-place dispatch does not raise the TypeError of a new category.
- ShiftColumn (CategoricalShift.ShiftColumn): permutes the values present in the column. For a categorical column `value_counts().index` also lists unused categories, so the permutation can send a present value to an unused category; the model does not capture that.
- ShiftStaysInColumn (CategoricalShift.ShiftStaysInColumn): holds for the model's distinct values; with unused categories in the permutation, a shifted cell can take a value that was not in the column.
- ShiftIsBijection (CategoricalShift.ShiftIsBijection): a bijection on the values present; pandas permutes the full category list.

## Findings

| source | as written | input that shows it | evidently intended | confidence | as-written member | corrected member |
|---|---|---|---|---|---|---|
| synqtab/pollution/Polluter.py:123 | CSCAR finds "actually corrupted" rows with `DataFrame.ne`, which is True wherever a cell is missing (NaN or NA) | a drawn block row whose shifted cell is NaN (or NA) and stays so | report only the rows whose values changed | not executed | Pollution.MissingRowReported | Pollution.ReportedRowsSuffice |
| synqtab/errors/DataError.py:126 | `if self.columns_to_corrupt:` tests a numpy array, whose truth is ambiguous for more than one element | two numeric columns drawn at column fraction 1.0: ValueError before any corruption | skip the corruption only when no column is drawn | not executed | DataError.TwoColumnsRejected | DataError.IntendedApplied |
| synqtab/data/Dataset.py:126-130 | the perfectness is looked up in the experiment-type map, which never holds it | `fetch_split_data_for_experiment(NORMAL, IMPERFECT, some_error)` raises NotImplementedError | look the perfectness up in `_get_perfectness_to_functions_mapping` | not executed | Datasets.PollutedRequestsRejectedAsWritten | Datasets.PollutedRequestsPrepared |
| synqtab/evaluators/Evaluation.py:74-92 | the id's first part is `str(EvaluationMethod.IFO)`, which is "EvaluationMethod.IFO" for a plain Enum, and decoding calls `EvaluationMethod("EvaluationMethod.IFO")` | an IFO evaluation of target R: its id "EvaluationMethod.IFO#R#NULL" raises ValueError when decoded | write the member's value ("IFO"), so the id decodes back | not executed | Evaluations.AsWrittenNeverDecodes | Evaluations.IdRoundTrip |
