/** The series loader (`load_data`): the files of each group are keyed by
    (category, period) and sorted; each file, or in lag mode the difference
    between it and the file before it in sorted order, is cut into patches,
    reduced to one statistic row per patch and tagged with the file's period. */
module Series {
  import opened Errors
  import opened Grids
  import opened Patches
  import opened Stats
  import opened Periods
  import opened Ordering

  /** The patch count `mount_patches` is called with. */
  const NumPatches: int := 180

  /** The number of bands per side the default count gives: floor(sqrt(180)). */
  const Bands: nat := 13

  /** The grid reader: the grid the data variable of each readable path holds. */
  type Reader = map<string, Grid>

  predicate ValidReader(files: Reader)
  {
    forall p | p in files :: files[p].Valid()
  }

  /** One row of the loader's table: a patch's statistics, its block index and
      the period of the file it comes from. */
  datatype Row = Row(date: Period, block: nat, cells: seq<Cell>)

  /** A grid from which every one of the 13 x 13 default patches holds cells. */
  predicate LargeEnough(g: Grid)
  {
    Bands <= g.rows && Bands <= g.cols
  }

  lemma DefaultBands()
    ensures FloorSqrt(NumPatches) == Bands
  {
    FloorSqrtUnique(180, 13);
  }

  /** `load_var(feat, path)`: the grid at path, or ReadError when there is none. */
  function Read(files: Reader, path: string): Result<Grid>
  {
    if path in files then Ok(files[path]) else Err(ReadError)
  }

  /** `data["date"] = date` on the reducer's table. */
  function Dated(t: StatTable, date: Period): seq<Row>
  {
    seq(|t.rows|, i requires 0 <= i < |t.rows| => Row(date, t.rows[i].block, t.rows[i].cells))
  }

  /** `calc_stat(mount_patches(g), prefix=category)` tagged with the period. */
  function GridRows(g: Grid, category: string, date: Period): (r: Result<seq<Row>>)
    requires g.Valid()
    ensures r.Err? ==> r.error == EmptyReduction
    ensures r.Ok? ==> |r.value| == Bands * Bands
  {
    DefaultBands();
    var ps := Mount(g.rows, g.cols, NumPatches).value;
    PartitionFits(g.rows, g.cols, FloorSqrt(NumPatches));
    var t :- CalcStatSpec(g, ps, DefaultCmd, category);
    Ok(Dated(t, date))
  }

  /** Python's `sorted_files[i - 1]`: index -1 is the last file. */
  function PrevIndex(i: nat, n: nat): (k: nat)
    requires i < n
    ensures k < n
    ensures k == (i + n - 1) % n
  {
    if i == 0 then
      ModOfRemainder(i + n - 1, n, 0, n - 1);
      n - 1
    else
      ModOfRemainder(i + n - 1, n, 1, i - 1);
      i - 1
  }

  /** a = q * n + c with 0 <= c < n makes c the remainder of a by n. */
  lemma ModOfRemainder(a: int, n: int, q: int, c: int)
    requires n > 0 && 0 <= c < n && a == q * n + c
    ensures a % n == c
  {
    var d := q - a / n;
    assert d * n == a % n - c;
  }

  /** The rows file i of a sorted series contributes. */
  function FileRows(files: Reader, es: seq<Entry>, i: nat, lag: bool): (r: Result<seq<Row>>)
    requires ValidReader(files) && i < |es|
    ensures r.Err? ==> FileFailure(r.error)
    ensures r.Ok? ==>
      if lag && es[i].category != es[PrevIndex(i, |es|)].category then r.value == []
      else |r.value| == Bands * Bands
  {
    var day := es[i];
    if !lag then
      var g :- Read(files, day.path);
      GridRows(ClampGrid(g), day.category, day.period)
    else
      var prev := es[PrevIndex(i, |es|)];
      if day.category != prev.category then Ok([])
      else
        var a :- Read(files, day.path);
        var b :- Read(files, prev.path);
        var diff :- Diff(ClampGrid(a), ClampGrid(b));
        GridRows(diff, day.category, day.period)
  }

  /** The ways processing one file can fail: a path the reader cannot open,
      grids that do not broadcast, or a patch without cells. */
  predicate FileFailure(e: Error)
  {
    e == ReadError || e == ShapeMismatch || e == EmptyReduction
  }

  /** The ways loading a group can fail: a path without a category or a
      period, or a file that fails. */
  predicate LoadFailure(e: Error)
  {
    e == PathIndexError || e == ParseError || FileFailure(e)
  }

  /** The number of paths in the groups from g on. */
  function PathCount(groups: seq<seq<string>>, g: nat): nat
    requires g <= |groups|
    decreases |groups| - g
  {
    if g == |groups| then 0 else |groups[g]| + PathCount(groups, g + 1)
  }

  /** Puts rows in front of a result, keeping a failure. */
  function Prepend(rows: seq<Row>, r: Result<seq<Row>>): Result<seq<Row>>
  {
    if r.Ok? then Ok(rows + r.value) else r
  }

  lemma PrependTwice(a: seq<Row>, b: seq<Row>, r: Result<seq<Row>>)
    ensures Prepend(a, Prepend(b, r)) == Prepend(a + b, r)
  {
    if r.Ok? {
      assert a + (b + r.value) == (a + b) + r.value;
    }
  }

  lemma PrependNothing(r: Result<seq<Row>>)
    ensures Prepend([], r) == r
  {
    if r.Ok? {
      assert [] + r.value == r.value;
    }
  }

  /** The rows of files i, i + 1, ... of a sorted series, in file order; the
      first file that fails makes the whole series fail. */
  function SeriesFrom(files: Reader, es: seq<Entry>, lag: bool, i: nat): (r: Result<seq<Row>>)
    requires ValidReader(files) && i <= |es|
    ensures r.Err? ==> FileFailure(r.error)
    ensures r.Ok? ==> |r.value| <= Bands * Bands * (|es| - i)
    ensures r.Ok? && !lag ==> |r.value| == Bands * Bands * (|es| - i)
    decreases |es| - i
  {
    if i == |es| then Ok([])
    else
      var here :- FileRows(files, es, i, lag);
      Prepend(here, SeriesFrom(files, es, lag, i + 1))
  }

  /** The rows of one group of paths: keyed, sorted, then loaded file by file. */
  function GroupRows(files: Reader, paths: seq<string>, lag: bool, months: seq<string>): (r: Result<seq<Row>>)
    requires ValidReader(files) && ValidMonthTable(months)
    ensures r.Err? ==> LoadFailure(r.error)
    ensures r.Ok? ==> |r.value| <= Bands * Bands * |paths|
    ensures r.Ok? && !lag ==> |r.value| == Bands * Bands * |paths|
  {
    var es :- Keys(paths, months);
    SortByKeySorted(es);
    assert |SortByKey(es)| - 0 == |paths|;
    SeriesFrom(files, SortByKey(es), lag, 0)
  }

  /** `load_data(list_files, lag)` on the groups from g on, in dictionary order. */
  function LoadFrom(files: Reader, groups: seq<seq<string>>, lag: bool, months: seq<string>, g: nat): (r: Result<seq<Row>>)
    requires ValidReader(files) && ValidMonthTable(months) && g <= |groups|
    ensures r.Err? ==> LoadFailure(r.error)
    ensures r.Ok? ==> |r.value| <= Bands * Bands * PathCount(groups, g)
    ensures r.Ok? && !lag ==> |r.value| == Bands * Bands * PathCount(groups, g)
    decreases |groups| - g
  {
    if g == |groups| then Ok([])
    else
      var here :- GroupRows(files, groups[g], lag, months);
      Prepend(here, LoadFrom(files, groups, lag, months, g + 1))
  }

  /** A single group loaded in non-lag mode has 169 rows per path, so its
      table is empty exactly when its path list is. */
  lemma SingleGroupRows(files: Reader, paths: seq<string>, months: seq<string>)
    requires ValidReader(files) && ValidMonthTable(months)
    ensures LoadFrom(files, [paths], false, months, 0).Ok? ==>
      |LoadFrom(files, [paths], false, months, 0).value| == Bands * Bands * |paths|
    ensures LoadFrom(files, [paths], false, months, 0).Ok? ==>
      (LoadFrom(files, [paths], false, months, 0).value == [] <==> paths == [])
  {
    assert PathCount([paths], 1) == 0;
    assert PathCount([paths], 0) == |paths|;
  }

  /** The table of a grid: it exists exactly when the grid is at least 13 x 13
      (otherwise a patch is empty and its min fails); it then has 169 rows,
      row t being block t, dated with the file's period, with the columns
      "<category>_mean", "<category>_min" and "<category>_max". */
  lemma GridRowsMeaning(g: Grid, category: string, date: Period)
    requires g.Valid()
    ensures GridRows(g, category, date).Ok? <==> LargeEnough(g)
    ensures GridRows(g, category, date).Err? ==> GridRows(g, category, date).error == EmptyReduction
    ensures GridRows(g, category, date).Ok? ==>
      var rows := GridRows(g, category, date).value;
      |rows| == Bands * Bands &&
      forall t | 0 <= t < |rows| ::
        rows[t].date == date && rows[t].block == t && |rows[t].cells| == 3 &&
        forall k | 0 <= k < 3 :: rows[t].cells[k].name == ColumnName(category, DefaultCmd[k])
  {
    DefaultBands();
    var ps := Partition(g.rows, g.cols, Bands);
    PartitionFits(g.rows, g.cols, Bands);
    CalcStatRowsMeaning(g, ps, DefaultCmd, category);
    DefaultPatchesReduce(g);
  }

  /** Every default patch can be reduced exactly when the grid is at least
      13 x 13: otherwise the bands are empty and so is every patch. */
  lemma DefaultPatchesReduce(g: Grid)
    requires g.Valid()
    ensures forall k | 0 <= k < |Partition(g.rows, g.cols, Bands)| ::
      Fits(Partition(g.rows, g.cols, Bands)[k], g.rows, g.cols)
    ensures (forall k | 0 <= k < |Partition(g.rows, g.cols, Bands)| ::
      ReduceAll(DefaultCmd, PatchCells(g, Partition(g.rows, g.cols, Bands)[k])).Ok?) <==> LargeEnough(g)
  {
    var ps := Partition(g.rows, g.cols, Bands);
    PartitionFits(g.rows, g.cols, Bands);
    if LargeEnough(g) {
      forall k | 0 <= k < |ps| ensures ReduceAll(DefaultCmd, PatchCells(g, ps[k])).Ok? {
        PatchShape(g.rows, g.cols, Bands, k);
        MulMono(1, g.rows / Bands, g.cols / Bands);
        ReduceAllOutcome(DefaultCmd, PatchCells(g, ps[k]));
      }
    } else {
      PatchShape(g.rows, g.cols, Bands, 0);
      ReduceAllOutcome(DefaultCmd, PatchCells(g, ps[0]));
      assert DefaultCmd[1] != Mean;
    }
  }

  /** On a large enough grid the table is the reducer's table of the default
      partition, dated. */
  lemma GridRowsTable(g: Grid, category: string, date: Period)
    requires g.Valid() && LargeEnough(g)
    ensures forall k | 0 <= k < |Partition(g.rows, g.cols, Bands)| ::
      Fits(Partition(g.rows, g.cols, Bands)[k], g.rows, g.cols)
    ensures CalcStatSpec(g, Partition(g.rows, g.cols, Bands), DefaultCmd, category).Ok?
    ensures GridRows(g, category, date)
      == Ok(Dated(CalcStatSpec(g, Partition(g.rows, g.cols, Bands), DefaultCmd, category).value, date))
  {
    GridRowsMeaning(g, category, date);
    DefaultBands();
    PartitionFits(g.rows, g.cols, Bands);
  }

  /** Row t of a grid's table holds the mean, min and max of patch t. */
  lemma GridRowValues(g: Grid, category: string, date: Period, t: nat)
    requires g.Valid() && LargeEnough(g) && t < Bands * Bands
    ensures GridRows(g, category, date).Ok? && t < |GridRows(g, category, date).value|
    ensures var cells := GridRows(g, category, date).value[t].cells;
      var p := Partition(g.rows, g.cols, Bands)[t];
      Fits(p, g.rows, g.cols) && |cells| == 3 &&
      Reduce(Mean, PatchCells(g, p)) == Ok(cells[0].value) &&
      Reduce(Min, PatchCells(g, p)) == Ok(cells[1].value) &&
      Reduce(Max, PatchCells(g, p)) == Ok(cells[2].value)
  {
    GridRowsTable(g, category, date);
    var ps := Partition(g.rows, g.cols, Bands);
    CalcStatRowsMeaning(g, ps, DefaultCmd, category);
    var table := CalcStatSpec(g, ps, DefaultCmd, category).value;
    assert GridRows(g, category, date).value[t].cells == table.rows[t].cells;
  }

  /** Row t of a grid's table holds numbers, its min <= mean <= max, and every
      cell of patch t lies between its min and max, the min being the value
      of a cell of the patch. */
  lemma GridRowStats(g: Grid, category: string, date: Period, t: nat)
    requires g.Valid() && LargeEnough(g) && t < Bands * Bands
    ensures Fits(Partition(g.rows, g.cols, Bands)[t], g.rows, g.cols)
    ensures GridRows(g, category, date).Ok? && t < |GridRows(g, category, date).value|
    ensures var cells := GridRows(g, category, date).value[t].cells;
      var p := Partition(g.rows, g.cols, Bands)[t];
      |cells| == 3 && cells[0].value.Num? && cells[1].value.Num? && cells[2].value.Num? &&
      cells[1].value.x <= cells[0].value.x <= cells[2].value.x &&
      (forall r: nat, c: nat | InRect(p, r, c) :: cells[1].value.x <= g.cells[r][c] as real <= cells[2].value.x) &&
      (exists r: nat, c: nat | InRect(p, r, c) :: g.cells[r][c] as real == cells[1].value.x)
  {
    GridRowValues(g, category, date, t);
    var p := Partition(g.rows, g.cols, Bands)[t];
    PatchShape(g.rows, g.cols, Bands, t);
    var cells := GridRows(g, category, date).value[t].cells;
    ReducedPatch(g, p, cells[0].value, cells[1].value, cells[2].value);
  }

  /** The mean, min and max of a non-empty patch are numbers in that order,
      bounding every cell of the patch, the min being a cell's value. */
  lemma ReducedPatch(g: Grid, p: Rect, mean: Value, min: Value, max: Value)
    requires g.Valid() && Fits(p, g.rows, g.cols)
    requires p.rowStart < p.rowEnd && p.colStart < p.colEnd
    requires Reduce(Mean, PatchCells(g, p)) == Ok(mean)
    requires Reduce(Min, PatchCells(g, p)) == Ok(min)
    requires Reduce(Max, PatchCells(g, p)) == Ok(max)
    ensures mean.Num? && min.Num? && max.Num? && min.x <= mean.x <= max.x
    ensures forall r: nat, c: nat | InRect(p, r, c) :: min.x <= g.cells[r][c] as real <= max.x
    ensures exists r: nat, c: nat | InRect(p, r, c) :: g.cells[r][c] as real == min.x
  {
    var xs := PatchCells(g, p);
    PatchExtremes(g, p);
    MeanBetweenMinAndMax(xs);
    var r: nat, c: nat :| InRect(p, r, c) && g.cells[r][c] == SeqMin(xs);
    assert g.cells[r][c] as real == min.x;
  }

  /** Non-lag mode: a file yields rows exactly when it can be read and its
      grid is at least 13 x 13; it then yields 169 rows dated with its
      period, row t being block t. */
  lemma NonLagFileRows(files: Reader, es: seq<Entry>, i: nat)
    requires ValidReader(files) && i < |es|
    ensures FileRows(files, es, i, false).Ok? <==> es[i].path in files && LargeEnough(files[es[i].path])
    ensures FileRows(files, es, i, false).Err? ==>
      FileRows(files, es, i, false).error == (if es[i].path in files then EmptyReduction else ReadError)
    ensures FileRows(files, es, i, false).Ok? ==>
      var rows := FileRows(files, es, i, false).value;
      |rows| == Bands * Bands &&
      forall t | 0 <= t < |rows| :: rows[t].date == es[i].period && rows[t].block == t
  {
    var e := es[i];
    if e.path in files {
      GridRowsMeaning(ClampGrid(files[e.path]), e.category, e.period);
    }
  }

  /** Non-lag mode clamps before reducing: every statistic of a file's rows is
      a number no smaller than 0. */
  lemma NonLagFileValues(files: Reader, es: seq<Entry>, i: nat, t: nat, k: nat)
    requires ValidReader(files) && i < |es|
    requires es[i].path in files && LargeEnough(files[es[i].path])
    requires t < Bands * Bands && k < 3
    ensures FileRows(files, es, i, false).Ok? && t < |FileRows(files, es, i, false).value|
    ensures var cells := FileRows(files, es, i, false).value[t].cells;
      |cells| == 3 && cells[k].value.Num? && cells[k].value.x >= 0.0
  {
    var g := ClampGrid(files[es[i].path]);
    GridRowStats(g, es[i].category, es[i].period, t);
    ClampGridCells(files[es[i].path]);
  }

  /** Lag mode never diffs across categories: file i yields rows only when
      the file before it in sorted order (the last file, for i = 0) has the
      same category. */
  lemma LagBoundary(files: Reader, es: seq<Entry>, i: nat)
    requires ValidReader(files) && i < |es|
    ensures es[i].category != es[PrevIndex(i, |es|)].category ==> FileRows(files, es, i, true) == Ok([])
  {
  }

  /** Lag mode on two readable files of one category and one shape of at least
      13 x 13: the file yields 169 rows dated with its period, row t being
      block t. */
  lemma LagFileRows(files: Reader, es: seq<Entry>, i: nat)
    requires ValidReader(files) && i < |es|
    requires var prev := es[PrevIndex(i, |es|)];
      es[i].category == prev.category && es[i].path in files && prev.path in files &&
      files[es[i].path].rows == files[prev.path].rows && files[es[i].path].cols == files[prev.path].cols &&
      LargeEnough(files[es[i].path])
    ensures FileRows(files, es, i, true).Ok?
    ensures var rows := FileRows(files, es, i, true).value;
      |rows| == Bands * Bands &&
      forall t | 0 <= t < |rows| :: rows[t].date == es[i].period && rows[t].block == t
  {
    var a, b := files[es[i].path], files[es[PrevIndex(i, |es|)].path];
    DiffSameShape(ClampGrid(a), ClampGrid(b));
    GridRowsMeaning(Diff(ClampGrid(a), ClampGrid(b)).value, es[i].category, es[i].period);
  }

  /** Lag mode aggregates current minus previous: every cell (r, c) of patch t
      contributes max(current, 0) - max(previous, 0) to row t, which lies
      between the row's min and max. */
  lemma LagFileValues(files: Reader, es: seq<Entry>, i: nat, t: nat, r: nat, c: nat)
    requires ValidReader(files) && i < |es|
    requires var prev := es[PrevIndex(i, |es|)];
      es[i].category == prev.category && es[i].path in files && prev.path in files &&
      files[es[i].path].rows == files[prev.path].rows && files[es[i].path].cols == files[prev.path].cols &&
      LargeEnough(files[es[i].path])
    requires t < Bands * Bands
    requires InRect(Partition(files[es[i].path].rows, files[es[i].path].cols, Bands)[t], r, c)
    ensures FileRows(files, es, i, true).Ok? && t < |FileRows(files, es, i, true).value|
    ensures var cells := FileRows(files, es, i, true).value[t].cells;
      var a, b := files[es[i].path], files[es[PrevIndex(i, |es|)].path];
      r < a.rows && c < a.cols && |cells| == 3 && cells[1].value.Num? && cells[2].value.Num? &&
      cells[1].value.x <= (Clamp(a.cells[r][c]) - Clamp(b.cells[r][c])) as real <= cells[2].value.x
  {
    var a, b := files[es[i].path], files[es[PrevIndex(i, |es|)].path];
    ClampedDiffCells(a, b);
    DiffSameShape(ClampGrid(a), ClampGrid(b));
    var d := Diff(ClampGrid(a), ClampGrid(b)).value;
    GridRowStats(d, es[i].category, es[i].period, t);
    PatchShape(a.rows, a.cols, Bands, t);
  }

  /** Python's index -1 makes file 0 of a lag series be diffed against the
      last file; that yields rows only when every file of the sorted series
      has one category. */
  lemma LagFirstWraps(files: Reader, es: seq<Entry>)
    requires ValidReader(files) && Sorted(es) && |es| > 0
    requires FileRows(files, es, 0, true) != Ok([])
    ensures forall m | 0 <= m < |es| :: es[m].category == es[0].category
  {
    forall m | 0 <= m < |es| ensures es[m].category == es[0].category {
      CategoryRun(es, 0, m, |es| - 1);
    }
  }

  /** A lag series of a single readable file of at least 13 x 13 diffs the
      file against itself: 169 rows whose every statistic is 0. */
  lemma LagSingleFile(files: Reader, e: Entry, t: nat, k: nat)
    requires ValidReader(files) && e.path in files && LargeEnough(files[e.path])
    requires t < Bands * Bands && k < 3
    ensures FileRows(files, [e], 0, true).Ok?
    ensures |FileRows(files, [e], 0, true).value| == Bands * Bands
    ensures FileRows(files, [e], 0, true).value[t].cells[k].value == Num(0.0)
  {
    var g := ClampGrid(files[e.path]);
    DiffSelf(g);
    var d := Diff(g, g).value;
    assert FileRows(files, [e], 0, true) == GridRows(d, e.category, e.period);
    ZeroGridRows(d, e.category, e.period, t, k);
  }

  /** The table of an all-zero grid of at least 13 x 13 holds only zeros. */
  lemma ZeroGridRows(d: Grid, category: string, date: Period, t: nat, k: nat)
    requires d.Valid() && LargeEnough(d) && t < Bands * Bands && k < 3
    requires forall i, j | 0 <= i < d.rows && 0 <= j < d.cols :: d.cells[i][j] == 0
    ensures GridRows(d, category, date).Ok?
    ensures |GridRows(d, category, date).value| == Bands * Bands
    ensures GridRows(d, category, date).value[t].cells[k].value == Num(0.0)
  {
    DefaultBands();
    GridRowsMeaning(d, category, date);
    GridRowValues(d, category, date, t);
    var p := Partition(d.rows, d.cols, Bands)[t];
    PatchShape(d.rows, d.cols, Bands, t);
    forall r: nat, c: nat | InRect(p, r, c) ensures d.cells[r][c] == 0 { }
    ConstantPatch(d, p, 0);
    var xs := PatchCells(d, p);
    assert ReduceAll(DefaultCmd, xs).value[k] == Reduce(DefaultCmd[k], xs).value;
    assert Reduce(DefaultCmd[k], xs) == Ok(Num(0.0));
  }

  /** Non-lag mode on files that are all readable and at least 13 x 13: the
      series has 169 rows per file, file after file in sorted order; row
      169 * (m - i) + t is block t of file m, dated with its period. */
  lemma {:induction false} NonLagSeriesLayout(files: Reader, es: seq<Entry>, i: nat, m: nat, t: nat)
    requires ValidReader(files) && i <= m < |es| && t < Bands * Bands
    requires forall n | i <= n < |es| :: es[n].path in files && LargeEnough(files[es[n].path])
    ensures SeriesFrom(files, es, false, i).Ok?
    ensures var rows := SeriesFrom(files, es, false, i).value;
      |rows| == Bands * Bands * (|es| - i) && Bands * Bands * (m - i) + t < |rows| &&
      rows[Bands * Bands * (m - i) + t].date == es[m].period &&
      rows[Bands * Bands * (m - i) + t].block == t
    decreases |es| - i
  {
    NonLagSeriesLength(files, es, i);
    NonLagFileRows(files, es, i);
    SeriesFromStep(files, es, false, i);
    var here := FileRows(files, es, i, false).value;
    var rest := SeriesFrom(files, es, false, i + 1).value;
    assert SeriesFrom(files, es, false, i) == Ok(here + rest);
    if m == i {
      LayoutStep(here, rest, 0, t, es[m].period);
    } else {
      NonLagSeriesLayout(files, es, i + 1, m, t);
      assert m - i - 1 == m - (i + 1);
      LayoutStep(here, rest, m - i, t, es[m].period);
    }
  }

  /** Non-lag mode on good files yields 169 rows per file. */
  lemma {:induction false} NonLagSeriesLength(files: Reader, es: seq<Entry>, i: nat)
    requires ValidReader(files) && i <= |es|
    requires forall n | i <= n < |es| :: es[n].path in files && LargeEnough(files[es[n].path])
    ensures SeriesFrom(files, es, false, i).Ok?
    ensures |SeriesFrom(files, es, false, i).value| == Bands * Bands * (|es| - i)
    decreases |es| - i
  {
    if i < |es| {
      NonLagSeriesLength(files, es, i + 1);
      NonLagFileRows(files, es, i);
      SeriesFromStep(files, es, false, i);
      var here, rest := FileRows(files, es, i, false).value, SeriesFrom(files, es, false, i + 1).value;
      assert SeriesFrom(files, es, false, i) == Ok(here + rest);
      assert Bands * Bands * (|es| - i) == Bands * Bands + Bands * Bands * (|es| - (i + 1));
    }
  }

  /** Prepending a file's 169 rows shifts the rows of the later files by 169. */
  lemma LayoutStep(here: seq<Row>, rest: seq<Row>, n: nat, t: nat, date: Period)
    requires |here| == Bands * Bands && t < Bands * Bands
    requires n == 0 ==> here[t].date == date && here[t].block == t
    requires n > 0 ==> Bands * Bands * (n - 1) + t < |rest| && rest[Bands * Bands * (n - 1) + t].date == date && rest[Bands * Bands * (n - 1) + t].block == t
    ensures Bands * Bands * n + t < |here + rest|
    ensures (here + rest)[Bands * Bands * n + t].date == date && (here + rest)[Bands * Bands * n + t].block == t
  {
    if n > 0 {
      assert Bands * Bands * n + t == Bands * Bands + (Bands * Bands * (n - 1) + t);
    }
  }

  /** `load_var(feat, path)` into a fresh array. */
  method LoadVar(files: Reader, path: string) returns (r: Result<array2<int>>)
    requires ValidReader(files)
    ensures r.Err? <==> path !in files
    ensures r.Err? ==> r.error == ReadError
    ensures r.Ok? ==> fresh(r.value) && Cells(r.value) == files[path]
  {
    if path !in files {
      return Err(ReadError);
    }
    var g := files[path];
    var a := new int[g.rows, g.cols];
    forall i, j | 0 <= i < g.rows && 0 <= j < g.cols {
      a[i, j] := g.cells[i][j];
    }
    ArrayHoldsGrid(a, g);
    r := Ok(a);
  }

  lemma ArrayHoldsGrid(a: array2<int>, g: Grid)
    requires g.Valid() && a.Length0 == g.rows && a.Length1 == g.cols
    requires forall i, j | 0 <= i < g.rows && 0 <= j < g.cols :: a[i, j] == g.cells[i][j]
    ensures Cells(a) == g
  {
    forall i | 0 <= i < g.rows ensures Cells(a).cells[i] == g.cells[i] { }
  }

  /** `mount_patches(data)`, `calc_stat(..., prefix=category)` and
      `data["date"] = date` on an array. */
  method PatchRows(data: array2<int>, category: string, date: Period) returns (r: Result<seq<Row>>)
    ensures r == GridRows(Cells(data), category, date)
  {
    var mounted := MountPatches(data, NumPatches);
    var ps := mounted.value;
    PartitionFits(data.Length0, data.Length1, FloorSqrt(NumPatches));
    var t :- CalcStat(data, ps, DefaultCmd, category);
    r := Ok(Dated(t, date));
  }

  /** One iteration of `load_data`'s loop over the sorted files. */
  method ProcessFile(files: Reader, es: seq<Entry>, i: nat, lag: bool) returns (r: Result<seq<Row>>)
    requires ValidReader(files) && i < |es|
    ensures r == FileRows(files, es, i, lag)
  {
    var day := es[i];
    if lag {
      var prev := es[PrevIndex(i, |es|)];
      if day.category != prev.category {
        return Ok([]);
      }
      var actual :- LoadVar(files, day.path);
      var past :- LoadVar(files, prev.path);
      var diff :- SubtractVars(actual, past);
      r := PatchRows(diff, day.category, day.period);
    } else {
      var actual :- LoadVar(files, day.path);
      ClampInPlace(actual);
      r := PatchRows(actual, day.category, day.period);
    }
  }

  /** The rows of one group: key the paths, sort them, and load the files in
      sorted order. */
  method LoadGroup(files: Reader, paths: seq<string>, lag: bool, months: seq<string>) returns (r: Result<seq<Row>>)
    requires ValidReader(files) && ValidMonthTable(months)
    ensures r == GroupRows(files, paths, lag, months)
  {
    var keys := Keys(paths, months);
    if keys.Err? {
      return Err(keys.error);
    }
    var sorted := SortByKey(keys.value);
    r := LoadSorted(files, sorted, lag);
  }

  /** `load_data`'s loop over the sorted files of one group, appending the
      rows of each file in turn. */
  method LoadSorted(files: Reader, sorted: seq<Entry>, lag: bool) returns (r: Result<seq<Row>>)
    requires ValidReader(files)
    ensures r == SeriesFrom(files, sorted, lag, 0)
  {
    var rows: seq<Row> := [];
    PrependNothing(SeriesFrom(files, sorted, lag, 0));
    for i := 0 to |sorted|
      invariant SeriesFrom(files, sorted, lag, 0) == Prepend(rows, SeriesFrom(files, sorted, lag, i))
    {
      var here := ProcessFile(files, sorted, i, lag);
      SeriesLoopStep(files, sorted, lag, i, rows);
      if here.Err? {
        return Err(here.error);
      }
      rows := rows + here.value;
    }
    assert SeriesFrom(files, sorted, lag, |sorted|) == Ok([]);
    assert rows + [] == rows;
    r := Ok(rows);
  }

  /** One turn of the loop of `LoadSorted`: a failing file ends the series
      with its error, a good one moves its rows to the front. */
  lemma SeriesLoopStep(files: Reader, es: seq<Entry>, lag: bool, i: nat, rows: seq<Row>)
    requires ValidReader(files) && i < |es|
    ensures var here := FileRows(files, es, i, lag);
      if here.Ok? then Prepend(rows, SeriesFrom(files, es, lag, i)) == Prepend(rows + here.value, SeriesFrom(files, es, lag, i + 1))
      else Prepend(rows, SeriesFrom(files, es, lag, i)) == Err(here.error)
  {
    SeriesFromStep(files, es, lag, i);
    if FileRows(files, es, i, lag).Ok? {
      PrependTwice(rows, FileRows(files, es, i, lag).value, SeriesFrom(files, es, lag, i + 1));
    }
  }

  lemma SeriesFromStep(files: Reader, es: seq<Entry>, lag: bool, i: nat)
    requires ValidReader(files) && i < |es|
    ensures SeriesFrom(files, es, lag, i) ==
      if FileRows(files, es, i, lag).Ok? then Prepend(FileRows(files, es, i, lag).value, SeriesFrom(files, es, lag, i + 1))
      else Err(FileRows(files, es, i, lag).error)
  {
  }

  /** `load_data(list_files, lag)`: the rows of every group, group after group. */
  method LoadData(files: Reader, groups: seq<seq<string>>, lag: bool, months: seq<string>) returns (r: Result<seq<Row>>)
    requires ValidReader(files) && ValidMonthTable(months)
    ensures r == LoadFrom(files, groups, lag, months, 0)
  {
    var rows: seq<Row> := [];
    PrependNothing(LoadFrom(files, groups, lag, months, 0));
    for g := 0 to |groups|
      invariant LoadFrom(files, groups, lag, months, 0) == Prepend(rows, LoadFrom(files, groups, lag, months, g))
    {
      var here := LoadGroup(files, groups[g], lag, months);
      LoadFromStep(files, groups, lag, months, g);
      if here.Err? {
        return Err(here.error);
      }
      PrependTwice(rows, here.value, LoadFrom(files, groups, lag, months, g + 1));
      rows := rows + here.value;
    }
    assert LoadFrom(files, groups, lag, months, |groups|) == Ok([]);
    assert rows + [] == rows;
    r := Ok(rows);
  }

  lemma LoadFromStep(files: Reader, groups: seq<seq<string>>, lag: bool, months: seq<string>, g: nat)
    requires ValidReader(files) && ValidMonthTable(months) && g < |groups|
    ensures LoadFrom(files, groups, lag, months, g) ==
      if GroupRows(files, groups[g], lag, months).Ok?
      then Prepend(GroupRows(files, groups[g], lag, months).value, LoadFrom(files, groups, lag, months, g + 1))
      else Err(GroupRows(files, groups[g], lag, months).error)
  {
  }
}
