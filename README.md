# Patch statistics of gridded monthly data — a Dafny model

The script `software/scripts/main.py` turns monthly gridded files (one 2-D
array per file, one variable category per directory) into a table of
per-patch statistics. Its core, modelled here, does the following:

- **Patch partitioner** (`mount_patches`): cuts a `R x C` grid into
  `d * d` patches, where `d = floor(sqrt(N))` and `N = 180` by default. The
  patches are the row bands of height `R div d` crossed with the column
  bands of width `C div d`, in row-major order.
- **Clamp and difference** (`subtract_vars`, and the clamp of line 100):
  the grid is changed in place so that every value `<= 0` becomes 0. In lag
  mode the current grid minus the previous grid is then taken, with numpy's
  broadcasting of unit dimensions.
- **Statistic reducer** (`calc_stat`): one row per patch. Each row holds
  the columns `"<prefix>_mean"`, `"<prefix>_min"` and `"<prefix>_max"` and
  the patch's block index.
- **Period and category of a path** (`get_fname_date`, `parse_date`,
  `variable_name`):
  - The period is the file stem parsed as `"%B_%Y"`, with the locale's
    month names as a parameter.
  - The category is the second-to-last segment of the file's directory.
- **Series loader** (`load_data`):
  - It keys every path by (category, period) and sorts the paths stably.
  - It processes each file in that order, or in lag mode the difference
    between it and the file before it (Python's index `-1` for the first
    file).
  - It tags each row with the file's period.
- **Table merger** (`read_folders`): an outer join of the feature table and
  the target table on (date, block).

The modules, in dependency order:

| file | module | contents |
|---|---|---|
| errors.dfy | `Errors` | the failures the script can raise, `Result`, `Option` |
| grids.dfy | `Grids` | the `Grid` value, the in-place clamp on `array2<int>`, the broadcasting difference |
| patches.dfy | `Patches` | `FloorSqrt`, the partition as a value, the `MountPatches` loop |
| stats.dfy | `Stats` | statistics over patch cells, the `ReducePatch` / `CalcStat` loops |
| periods.dfy | `Periods` | `strptime("%B_%Y")`, `str.split`, `os.path.basename` / `dirname` |
| ordering.dfy | `Ordering` | string and key order, stable sort, the sort keys of a path list |
| series.dfy | `Series` | the loader as specification functions and as the methods that run its loops |
| merge.dfy | `Merge` | the outer join and `ReadFolders` |

Points where the code behaves in a way its comments or names do not
suggest, and which the model follows:

- **The remainder is dropped.** The comment on line 13 assumes the grid
  divides evenly. When `R` or `C` is not a multiple of `d`, the `min(...)`
  clamp on lines 22-23 never binds, because `i < d` gives
  `(i + 1) * (R div d) <= R`. Every patch is exactly `(R div d) x (C div d)`,
  and the cells beyond row `d * (R div d)` or column `d * (C div d)` are in
  no patch (`Patches.PatchShape`, `Patches.RemainderDropped`).
- **Broadcasting.** `actual_var - past_var` on line 47 is numpy
  subtraction. It fails only when a dimension differs and neither side is
  1; otherwise it broadcasts (`Grids.Diff`).
- **The first file in lag mode.** The loop on line 81 starts at position 0,
  and line 83 reads `sorted_files[i-1]`, which for `i = 0` is the last
  file. So the first file yields rows whenever the first and last files
  share a category. After sorting, that happens only when every file has
  that one category (`Series.LagFirstWraps`). A lone file is then diffed
  against itself, and every statistic is 0 (`Series.LagSingleFile`).
- **Month names ignore case.** Python's `strptime` matches `%B` without
  regard to case (`Periods.GetFnameDate`).
- **How a bad patch count fails.** A negative count fails in `math.sqrt`
  on line 14 (`MathDomainError`). A count of 0 gives zero bands and fails
  in the division on line 15 (`ZeroDivisionError`).
- **Small grids fail.** A grid smaller than `d` in either dimension has
  empty patches. `np.min` of an empty patch raises, so the file fails
  (`EmptyReduction`, `Series.GridRowsMeaning`).
- **An empty path list cannot be merged.** `load_data` of no paths returns
  the empty `pd.DataFrame()` of line 67, which has no `date` column, so the
  merge on lines 59-62 fails (`MissingJoinColumn`, `Merge.ReadFolders`).

## Model

| member | source | states |
|---|---|---|
| Patches.FloorSqrt | software/scripts/main.py:14 | `d * d <= n < (d + 1) * (d + 1)`: the floor of the square root |
| Patches.FloorSqrtUnique | software/scripts/main.py:14 | any d with that bracket is the floor of the square root |
| Patches.Partition | software/scripts/main.py:19-29 | the partition has exactly `d * d` patches |
| Patches.Mount | software/scripts/main.py:11-31 | fails exactly when N < 1; otherwise the partition has `d * d` patches for `d = floor(sqrt(N))` |
| Patches.MountPatches | software/scripts/main.py:11-31 | fails exactly when N < 1 (negative: math domain error, 0: zero division); otherwise `d * d` patches, patch k being row band `k div d` and column band `k mod d`; equals the partition value |
| Patches.PatchShape | software/scripts/main.py:15-16 | every patch is exactly `(R div d) x (C div d)` and inside the grid: the clamp of lines 22-23 never binds |
| Patches.PatchCell | software/scripts/main.py:19-28 | cell (r, c) is in patch k exactly when the bands are non-empty, `r div h = k div d` and `c div w = k mod d` |
| Patches.PatchesDisjoint | software/scripts/main.py:19-28 | two different patches share no cell |
| Patches.RemainderDropped | software/scripts/main.py:15-16 | the cells beyond row `d * (R div d)` or column `d * (C div d)` are in no patch |
| Patches.CellCovered | software/scripts/main.py:19-28 | every other cell is in patch `(r div h) * d + c div w` |
| Patches.DefaultCountExample | software/scripts/main.py:11-16 | 180 patches requested on 100 x 100: 169 patches of 7 x 7, the first at [0, 7), the last ending at 91 |
| Grids.Cells | software/scripts/main.py:12 | the value view of an array keeps its shape and every cell |
| Grids.ClampGrid | software/scripts/main.py:45 | the clamped grid keeps its shape |
| Grids.ClampGridCells | software/scripts/main.py:45 | every clamped cell is `max(x, 0)`; the clamped grid is non-negative |
| Grids.ClampGridFixes | software/scripts/main.py:45-46 | clamping is idempotent and leaves a non-negative grid unchanged |
| Grids.ClampInPlace | software/scripts/main.py:100 | after the in-place update each cell is the clamp of its old value |
| Grids.Diff | software/scripts/main.py:47 | fails with ShapeMismatch exactly when some dimension pair does not broadcast (unequal and neither is 1) |
| Grids.DiffSameShape | software/scripts/main.py:47 | on equal shapes the difference succeeds, keeps the shape and subtracts cell by cell |
| Grids.ClampedDiffCells | software/scripts/main.py:44-47 | cell (i, j) of the result is `max(a, 0) - max(b, 0)` |
| Grids.DiffSelf | software/scripts/main.py:47 | a grid minus itself is all zeros |
| Grids.Subtract | software/scripts/main.py:47 | `actual - past` into a fresh array holding exactly `Diff`, or ShapeMismatch |
| Grids.SubtractVars | software/scripts/main.py:44-47 | both arguments are clamped in place, even when the subtraction then fails; the result is the difference of the clamped grids (also when both are one array) |
| Grids.SubtractExample | software/scripts/main.py:44-47 | [[-1, 5]] minus [[3, -2]] gives [[-3, 5]] |
| Stats.Columns | software/scripts/main.py:121-122 | one column name per statistic of the configuration |
| Stats.ColumnsDistinct | software/scripts/main.py:121-122 | distinct statistics give distinct `"{prefix}_{name}"` columns |
| Stats.SeqMin | software/scripts/main.py:118 | the minimum is an element and below every element |
| Stats.SeqMax | software/scripts/main.py:119 | the maximum is an element and above every element |
| Stats.Reduce | software/scripts/main.py:126-127 | min and max of no values fail with EmptyReduction; the mean of no values is NaN and of some values a number |
| Stats.ReduceAll | software/scripts/main.py:126-128 | one value per statistic, in configuration order, each the reduction of the patch; every failure is EmptyReduction |
| Stats.MeanBetweenMinAndMax | software/scripts/main.py:115-119 | over non-empty values, min <= mean <= max |
| Stats.ConstantStatistics | software/scripts/main.py:115-119 | over constant values k every statistic is k |
| Stats.PatchCells | software/scripts/main.py:124 | the flattened patch has (rows x cols of the patch) values |
| Stats.PatchCellAt | software/scripts/main.py:124 | cell (r, c) of the patch is value number `(r - top) * width + (c - left)` of the flattened patch: with the length, every cell occurs exactly once, in row-major order |
| Stats.PatchCellsMembers | software/scripts/main.py:124 | a value is flattened exactly when some cell of the patch holds it |
| Stats.PatchExtremes | software/scripts/main.py:118-124 | min and max bound every cell of the patch and are values of cells of it |
| Stats.PartitionFits | software/scripts/main.py:25-28 | every patch of the partition lies inside the grid |
| Stats.ReduceAllOutcome | software/scripts/main.py:126-128 | a row fails exactly when the patch is empty and min or max is asked (mean of nothing is NaN) |
| Stats.ConstantPatch | software/scripts/main.py:113-128 | a constant patch gives mean = min = max = k |
| Stats.DefaultRowOrdered | software/scripts/main.py:113-128 | the default row of a non-empty patch is min <= mean <= max, all cells between min and max, both attained |
| Stats.CalcStatSpec | software/scripts/main.py:113-131 | the table has the columns `"{prefix}_{name}"` and one row per patch; every failure is EmptyReduction |
| Stats.CalcStatRowsMeaning | software/scripts/main.py:121-131 | one row per patch in order, row i has block i and the column `"{prefix}_{name}"` holding each statistic over patch i; fails only with EmptyReduction |
| Stats.ReducePatch | software/scripts/main.py:126-128 | the inner loop computes every statistic of the configuration over the patch |
| Stats.CalcStat | software/scripts/main.py:113-131 | the loop over the patches builds exactly the reducer's table |
| Stats.CalcStatRows | software/scripts/main.py:123-130 | rows appended patch by patch are the rows of the table |
| Periods.Lower | software/scripts/main.py:110 | case folding keeps the length |
| Periods.FindMonth | software/scripts/main.py:110 | the first month whose name equals the text ignoring case, or none |
| Periods.GetFnameDate | software/scripts/main.py:109-110 | success gives month 1..12 and year 1..9999; every failure is a parse error |
| Periods.ParsedIsFormatted | software/scripts/main.py:109-110 | a stem that parses is `"<name>_<YYYY>"` with the year's four digits, `<name>` equal to the month's name ignoring case and to no earlier month's; so it equals the formatted period ignoring case |
| Periods.FourDigitsOfValue | software/scripts/main.py:110 | four digits read as a year (at most 9999) and written back give the same digits |
| Periods.ParseFormatted | software/scripts/main.py:109-110 | parsing `"<MonthName>_<YYYY>"` gives that month and year back |
| Periods.EnglishExample | software/scripts/main.py:110 | "January_2020" is January 2020 |
| Periods.MissingSeparatorFails | software/scripts/main.py:110 | "Jan2020" fails in every locale |
| Periods.Split | software/scripts/main.py:71 | `str.split` gives at least one field |
| Periods.SplitJoin | software/scripts/main.py:71 | joining the fields gives the string back; no field holds the separator |
| Periods.JoinSplit | software/scripts/main.py:74 | splitting a join of separator-free fields gives the fields back |
| Periods.SplitAppend | software/scripts/main.py:74 | splitting `a + sep + b` appends the fields of a and of b |
| Periods.RStripSlashes | software/scripts/main.py:74 | the directory without its trailing slashes, as `os.path.dirname` leaves it: a prefix ending in no slash, followed only by slashes |
| Periods.Basename | software/scripts/main.py:71 | `os.path.basename`: the suffix after the last "/", holding no "/" |
| Periods.Dirname | software/scripts/main.py:74 | `os.path.dirname`: a prefix of the path, non-empty exactly when the path holds a "/" |
| Periods.ParseDate | software/scripts/main.py:69-71 | the period of the stem before the first "." of the basename; success gives month 1..12 and year 1..9999; every failure is a parse error |
| Periods.VariableName | software/scripts/main.py:73-74 | every failure is an index error |
| Periods.VariableNameOutcome | software/scripts/main.py:73-74 | the category exists exactly when the directory holds a "/" |
| Periods.VariableNameOfLayout | software/scripts/main.py:73-74 | the category of `".../<category>/<sub>/<file>"` is `<category>` |
| Periods.DirnameOfLayout | software/scripts/main.py:74 | `os.path.dirname` of `"<dir>/<file>"` is `<dir>` when `<dir>` does not end in "/" |
| Periods.DirectoryFields | software/scripts/main.py:74 | the "/"-fields of `"<root>/<category>/<sub>"` end with `<category>` and `<sub>` |
| Periods.ParseDateOfLayout | software/scripts/main.py:69-71 | the period of `"<dir>/<stem>.<ext>"` is the period of `<stem>` |
| Ordering.StrLt | software/scripts/main.py:77-79 | Python string order by code point; a string never sorts before itself |
| Ordering.StrLtIrreflexive | software/scripts/main.py:77-79 | no string sorts before itself |
| Ordering.StrLtTransitive | software/scripts/main.py:77-79 | string order is transitive |
| Ordering.StrLtTotal | software/scripts/main.py:77-79 | two different strings are ordered one way or the other |
| Ordering.KeyLt | software/scripts/main.py:77-79 | tuple order on (category, period); keys in that order differ |
| Ordering.KeyTrichotomy | software/scripts/main.py:77-79 | two (category, period) keys are equal or strictly ordered one way, never both |
| Ordering.SortedPairwise | software/scripts/main.py:77-79 | in the sorted list no later entry has a smaller key |
| Ordering.CategoryRun | software/scripts/main.py:77-79 | each category forms one contiguous run of the sorted list |
| Ordering.Insert | software/scripts/main.py:77-79 | inserting adds exactly that entry |
| Ordering.SortByKey | software/scripts/main.py:77-79 | the sorted list is a permutation of the input |
| Ordering.SortByKeySorted | software/scripts/main.py:77-79 | the sorted list is in non-decreasing key order |
| Ordering.SortByKeyStable | software/scripts/main.py:77-79 | entries with equal keys keep their input order |
| Ordering.Keys | software/scripts/main.py:77-79 | one key per path, in path order; every failure is an index error or a parse error |
| Ordering.KeysOutcome | software/scripts/main.py:69-79 | the keys exist exactly when every path has a category and a period |
| Ordering.KeysTotal | software/scripts/main.py:69-79 | a path list whose every path has a category and a period has keys |
| Ordering.KeysValues | software/scripts/main.py:69-79 | key t holds the category and the period of path t |
| Ordering.KeysMeaning | software/scripts/main.py:69-79 | the keys exist exactly when every path has a category and a period, and they are those |
| Series.PrevIndex | software/scripts/main.py:83 | Python's `i-1` index: a valid index equal to `(i - 1) mod n`, so 0 gives the last file |
| Series.GridRows | software/scripts/main.py:92-94 | a grid's table has 169 rows; every failure is EmptyReduction |
| Series.FileRows | software/scripts/main.py:81-104 | every failure is a read, shape or empty-reduction failure; a lag-mode file whose predecessor has another category yields no row, any other file 169 rows |
| Series.SeriesFrom | software/scripts/main.py:81-105 | the files from i on yield at most 169 rows each, exactly 169 each in non-lag mode; every failure is a file failure |
| Series.GroupRows | software/scripts/main.py:77-105 | a group yields at most 169 rows per path, exactly 169 per path in non-lag mode; every failure is a key or file failure |
| Series.LoadFrom | software/scripts/main.py:76-106 | the groups from g on yield at most 169 rows per path, exactly 169 per path in non-lag mode |
| Series.SingleGroupRows | software/scripts/main.py:56-57 | one group loaded in non-lag mode has 169 rows per path, so it is empty exactly when it has no path |
| Series.GridRowsMeaning | software/scripts/main.py:92-93 | a grid yields rows exactly when it is at least 13 x 13 (else EmptyReduction); then 169 rows, row t being block t, with the file's date and the three column names |
| Series.DefaultPatchesReduce | software/scripts/main.py:14-16 | every one of the 169 default patches can be reduced exactly when the grid is at least 13 x 13 |
| Series.GridRowValues | software/scripts/main.py:92-94 | row t holds the mean, min and max of patch t |
| Series.GridRowStats | software/scripts/main.py:92-94 | row t has min <= mean <= max, bounding every cell of patch t |
| Series.NonLagFileRows | software/scripts/main.py:96-104 | a file yields rows exactly when it is readable and large enough (else ReadError or EmptyReduction); 169 rows, dated, block t |
| Series.NonLagFileValues | software/scripts/main.py:99-103 | since the grid is clamped first, every statistic is a number >= 0 |
| Series.NonLagSeriesLength | software/scripts/main.py:96-104 | non-lag mode on readable, large-enough files yields 169 rows per file |
| Series.LagBoundary | software/scripts/main.py:82-84 | a file whose predecessor has another category yields no row |
| Series.LagFileRows | software/scripts/main.py:81-95 | same category, readable, same shape of at least 13 x 13: 169 rows, dated, block t |
| Series.LagFileValues | software/scripts/main.py:86-93 | every cell of patch t contributes `max(current, 0) - max(previous, 0)`, which lies between the row's min and max |
| Series.LagFirstWraps | software/scripts/main.py:81-84 | the first file yields rows in lag mode only if every file has one category |
| Series.LagSingleFile | software/scripts/main.py:81-95 | a lone file in lag mode yields 169 rows of zeros |
| Series.ZeroGridRows | software/scripts/main.py:92-93 | the table of an all-zero grid of at least 13 x 13 holds only zeros |
| Series.NonLagSeriesLayout | software/scripts/main.py:76-106 | non-lag mode on good files: 169 rows per file, file after file; row `169 * m + t` is block t of file m with its date |
| Series.LoadVar | software/scripts/main.py:97-99 | a fresh array holding the file's grid, or ReadError |
| Series.PatchRows | software/scripts/main.py:92-95 | mount, reduce and date an array: equals the specification's rows |
| Series.ProcessFile | software/scripts/main.py:81-104 | one iteration of the file loop yields the specification's rows of that file |
| Series.LoadSorted | software/scripts/main.py:81-105 | the file loop appends the rows of every file in sorted order, stopping at the first failure |
| Series.LoadGroup | software/scripts/main.py:76-105 | key, sort and load one group |
| Series.LoadData | software/scripts/main.py:66-106 | the rows of every group, group after group |
| Merge.Matching | software/scripts/main.py:59-62 | the rows with a given key are exactly the table's rows with that key |
| Merge.OuterJoin | software/scripts/main.py:59-62 | the outer join has at least one row per feature row and no row null on both sides (which rows appear: `Merge.JoinBoth` and the lemmas after it) |
| Merge.JoinBoth | software/scripts/main.py:59-62 | (d, b, x, y) is merged exactly when the features hold (d, b, x) and the targets (d, b, y) |
| Merge.JoinLeftAlone | software/scripts/main.py:59-62 | a feature row survives with null targets exactly when no target row has its key |
| Merge.JoinRightAlone | software/scripts/main.py:59-62 | a target row survives with null features exactly when no feature row has its key |
| Merge.JoinNeverEmpty | software/scripts/main.py:59-62 | no merged row is null on both sides |
| Merge.JoinKeepsEveryRow | software/scripts/main.py:59-62 | every row of either table appears in the merged table |
| Merge.MergeExample | software/scripts/main.py:59-62 | features {(Jan 2020, 0): a}, targets {(Jan 2020, 0): b, (Feb 2020, 0): c} give (Jan 2020, 0, a, b) and (Feb 2020, 0, null, c) |
| Merge.ReadFolders | software/scripts/main.py:50-63 | both tables loaded in non-lag mode and outer-joined; fails when either load fails, the feature load first, and with MissingJoinColumn when either path list is empty |

## Left out

- `load_var` and the netCDF reader (software/scripts/main.py:34-41) are a foreign library. The reader is a map from path to grid. A missing path is `ReadError`.
- The reader map also absorbs how the variable is chosen: the file's first variable, read under that name from both files in lag mode. It also absorbs `np.ma.filled` and any array that is not 2-D.
- Grid values are integers and the mean is an exact rational. Floating-point data, rounding and NaN cells read from files are not modelled.
- The `glob` discovery of files (software/scripts/main.py:51-54) is file-system I/O. The path lists are parameters.
- `np.median` and `np.std` (software/scripts/main.py:116-117) are not modelled: float and square-root numerics. The configuration keeps mean, min and max in their order.
- pandas column alignment and NaN filling when tables with different columns are appended are not modelled. A row is its date, its block and its named cells.
- Merge.ReadFolders: the merged rows are in feature order, then the target-only rows. pandas orders an outer join by key and suffixes clashing column names with `_x` / `_y`. The join lemmas are about which rows appear, not their order.
- `print` (software/scripts/main.py:80, 139) is output only.
- `main`'s `interpolate`, `dropna` and `to_csv` (software/scripts/main.py:134-140) are float numerics and file output.
- The locale setup, the hard-coded paths (software/scripts/main.py:143-149) and the matplotlib import are not modelled. The month names are a parameter; `Periods.EnglishMonths` is the C locale's table.
- Patches.FloorSqrt is exact. `math.floor(math.sqrt(n))` in floating point can differ for counts beyond 2^52, which the script never uses.
- Periods.GetFnameDate folds case for A to Z only and accepts only ASCII digits for `%Y`. Python also folds other letters and accepts other Unicode decimal digits.
- Ordering.StrLt compares characters by code point, as Python does. Locale collation plays no part in `sorted`.
