/** The statistic reducer: one row per patch holding, for every configured
    statistic, its value over all cells of the patch, plus the patch's block index. */
module Stats {
  import opened Errors
  import opened Grids
  import opened Patches

  /** The statistics kept from the default configuration (median and standard
      deviation are not part of this model). */
  datatype Stat = Mean | Min | Max

  function StatName(s: Stat): string
  {
    match s
    case Mean => "mean"
    case Min => "min"
    case Max => "max"
  }

  /** A statistic value: `np.mean` of no cells is NaN rather than an error. */
  datatype Value = Num(x: real) | NaN

  datatype Cell = Cell(name: string, value: Value)

  /** One row of the reducer's table: the named statistic values and the block index. */
  datatype StatRow = StatRow(cells: seq<Cell>, block: nat)

  /** The reducer's table: its header and its rows. */
  datatype StatTable = StatTable(columns: seq<string>, rows: seq<StatRow>)

  /** The default statistic configuration, in its key order. */
  const DefaultCmd: seq<Stat> := [Mean, Min, Max]

  /** The statistic keys of a configuration dictionary are distinct. */
  predicate DistinctStats(cmd: seq<Stat>)
  {
    forall a, b | 0 <= a < b < |cmd| :: cmd[a] != cmd[b]
  }

  /** `"{0}_{1}".format(prefix, name)`. */
  function ColumnName(prefix: string, s: Stat): string
  {
    prefix + "_" + StatName(s)
  }

  function Columns(prefix: string, cmd: seq<Stat>): (names: seq<string>)
    ensures |names| == |cmd|
  {
    seq(|cmd|, k requires 0 <= k < |cmd| => ColumnName(prefix, cmd[k]))
  }

  /** Distinct statistics give distinct column names under any prefix. */
  lemma ColumnsDistinct(prefix: string, cmd: seq<Stat>)
    requires DistinctStats(cmd)
    ensures forall a, b | 0 <= a < b < |cmd| :: Columns(prefix, cmd)[a] != Columns(prefix, cmd)[b]
  {
    forall a, b | 0 <= a < b < |cmd| ensures Columns(prefix, cmd)[a] != Columns(prefix, cmd)[b] {
      var na, nb := Columns(prefix, cmd)[a], Columns(prefix, cmd)[b];
      var n := |prefix| + 1;
      assert na[n..] == StatName(cmd[a]);
      assert nb[n..] == StatName(cmd[b]);
      assert StatName(cmd[a]) != StatName(cmd[b]);
    }
  }

  function Sum(xs: seq<int>): int
  {
    if xs == [] then 0 else xs[0] + Sum(xs[1..])
  }

  function SeqMin(xs: seq<int>): (m: int)
    requires |xs| > 0
    ensures m in xs && forall x | x in xs :: m <= x
  {
    if |xs| == 1 then xs[0]
    else
      var rest := SeqMin(xs[1..]);
      assert xs == [xs[0]] + xs[1..];
      if xs[0] <= rest then xs[0] else rest
  }

  function SeqMax(xs: seq<int>): (m: int)
    requires |xs| > 0
    ensures m in xs && forall x | x in xs :: x <= m
  {
    if |xs| == 1 then xs[0]
    else
      var rest := SeqMax(xs[1..]);
      assert xs == [xs[0]] + xs[1..];
      if xs[0] >= rest then xs[0] else rest
  }

  /** `v(aux)` for one statistic over the flattened cells of a patch. */
  function Reduce(s: Stat, xs: seq<int>): (r: Result<Value>)
    ensures r.Err? <==> s != Mean && |xs| == 0
    ensures r.Err? ==> r.error == EmptyReduction
    ensures r.Ok? ==> (r.value.NaN? <==> |xs| == 0)
  {
    match s
    case Mean => if |xs| == 0 then Ok(NaN) else Ok(Num(Sum(xs) as real / |xs| as real))
    case Min => if |xs| == 0 then Err(EmptyReduction) else Ok(Num(SeqMin(xs) as real))
    case Max => if |xs| == 0 then Err(EmptyReduction) else Ok(Num(SeqMax(xs) as real))
  }

  /** A sum of n values that are all at least lo is at least n * lo. */
  lemma {:induction false} SumAtLeast(xs: seq<int>, lo: int)
    requires forall t | 0 <= t < |xs| :: lo <= xs[t]
    ensures |xs| * lo <= Sum(xs)
  {
    if xs != [] {
      SumAtLeast(xs[1..], lo);
      assert |xs| * lo == (|xs| - 1) * lo + lo;
    }
  }

  /** A sum of n values that are all at most hi is at most n * hi. */
  lemma {:induction false} SumAtMost(xs: seq<int>, hi: int)
    requires forall t | 0 <= t < |xs| :: xs[t] <= hi
    ensures Sum(xs) <= |xs| * hi
  {
    if xs != [] {
      SumAtMost(xs[1..], hi);
      assert |xs| * hi == (|xs| - 1) * hi + hi;
    }
  }

  /** Dividing n * lo <= sum <= n * hi by n > 0, in the reals. */
  lemma QuotientBounds(lo: int, sum: int, hi: int, n: int)
    requires n > 0 && n * lo <= sum <= n * hi
    ensures lo as real <= sum as real / n as real <= hi as real
  {
    CastProduct(n, lo);
    CastProduct(n, hi);
    var m := sum as real / n as real;
    assert m * n as real == sum as real;
  }

  /** Every element lies between the minimum and the maximum. */
  lemma WithinExtremes(xs: seq<int>)
    requires |xs| > 0
    ensures forall t | 0 <= t < |xs| :: SeqMin(xs) <= xs[t] <= SeqMax(xs)
  {
    forall t | 0 <= t < |xs| ensures SeqMin(xs) <= xs[t] <= SeqMax(xs) {
      assert xs[t] in xs;
    }
  }

  /** The average of a non-empty sequence lies between its minimum and maximum. */
  lemma AverageBounds(xs: seq<int>)
    requires |xs| > 0
    ensures SeqMin(xs) as real <= Sum(xs) as real / |xs| as real <= SeqMax(xs) as real
  {
    var lo, hi, sum, n := SeqMin(xs), SeqMax(xs), Sum(xs), |xs|;
    WithinExtremes(xs);
    SumAtLeast(xs, lo);
    SumAtMost(xs, hi);
    QuotientBounds(lo, sum, hi, n);
  }

  /** On a non-empty patch every statistic is defined and min <= mean <= max. */
  lemma MeanBetweenMinAndMax(xs: seq<int>)
    requires |xs| > 0
    ensures Reduce(Min, xs).Ok? && Reduce(Mean, xs).Ok? && Reduce(Max, xs).Ok?
    ensures Reduce(Mean, xs).value.Num? && Reduce(Min, xs).value.Num? && Reduce(Max, xs).value.Num?
    ensures Reduce(Min, xs).value.x <= Reduce(Mean, xs).value.x <= Reduce(Max, xs).value.x
  {
    AverageBounds(xs);
  }

  lemma CastProduct(a: int, b: int)
    ensures (a * b) as real == a as real * b as real
  {
  }

  /** A sequence of n copies of k sums to n * k. */
  lemma {:induction false} SumConstant(xs: seq<int>, k: int)
    requires forall t | 0 <= t < |xs| :: xs[t] == k
    ensures Sum(xs) == |xs| * k
  {
    if xs != [] {
      SumConstant(xs[1..], k);
      assert |xs| * k == (|xs| - 1) * k + k;
    }
  }

  /** On a constant patch every statistic equals the constant. */
  lemma ConstantStatistics(xs: seq<int>, k: int, s: Stat)
    requires |xs| > 0 && forall t | 0 <= t < |xs| :: xs[t] == k
    ensures Reduce(s, xs) == Ok(Num(k as real))
  {
    match s
    case Mean =>
      SumConstant(xs, k);
      MeanOfConstant(|xs|, k);
    case Min =>
      assert SeqMin(xs) == k;
    case Max =>
      assert SeqMax(xs) == k;
  }

  /** n copies of k average to k. */
  lemma MeanOfConstant(n: nat, k: int)
    requires n > 0
    ensures (n * k) as real / n as real == k as real
  {
    var m := n as real;
    assert (n * k) as real == m * k as real;
    assert m * k as real / m == k as real;
  }

  /** A patch lies inside a grid of the given shape. */
  predicate Fits(p: Rect, rows: nat, cols: nat)
  {
    p.rowStart <= p.rowEnd <= rows && p.colStart <= p.colEnd <= cols
  }

  /** Every patch of a partition fits the grid it was cut from. */
  lemma PartitionFits(rows: nat, cols: nat, d: nat)
    requires 0 < d
    ensures forall k | 0 <= k < |Partition(rows, cols, d)| :: Fits(Partition(rows, cols, d)[k], rows, cols)
  {
    forall k | 0 <= k < d * d ensures Fits(Partition(rows, cols, d)[k], rows, cols) {
      PatchShape(rows, cols, d, k);
    }
  }

  /** `sub_df.values` flattened row by row: the cells of patch p of grid g. */
  function PatchCells(g: Grid, p: Rect): (xs: seq<int>)
    requires g.Valid() && Fits(p, g.rows, g.cols)
    ensures |xs| == (p.rowEnd - p.rowStart) * (p.colEnd - p.colStart)
    decreases p.rowEnd - p.rowStart
  {
    if p.rowStart == p.rowEnd then []
    else g.cells[p.rowStart][p.colStart..p.colEnd] + PatchCells(g, p.(rowStart := p.rowStart + 1))
  }

  /** Cell (r, c) of the patch sits at its row-major position in the
      flattened values, so each cell occurs once, in order. */
  lemma {:induction false} PatchCellAt(g: Grid, p: Rect, r: nat, c: nat)
    requires g.Valid() && Fits(p, g.rows, g.cols) && InRect(p, r, c)
    ensures RowMajorIndex(p.colEnd - p.colStart, r - p.rowStart, c - p.colStart) < |PatchCells(g, p)|
    ensures PatchCells(g, p)[RowMajorIndex(p.colEnd - p.colStart, r - p.rowStart, c - p.colStart)] == g.cells[r][c]
    decreases p.rowEnd - p.rowStart
  {
    var w := p.colEnd - p.colStart;
    var k, j := r - p.rowStart, c - p.colStart;
    RowMajorBelow(k, p.rowEnd - p.rowStart, w, j);
    var row := g.cells[p.rowStart][p.colStart..p.colEnd];
    var q := p.(rowStart := p.rowStart + 1);
    assert PatchCells(g, p) == row + PatchCells(g, q);
    if k == 0 {
      ZeroRow(w, j);
    } else {
      PatchCellAt(g, q, r, c);
      MulSucc(k - 1, w, j);
      assert r - q.rowStart == k - 1;
    }
  }

  /** The first row starts the flattened values. */
  lemma ZeroRow(w: nat, j: nat)
    ensures 0 * w + j == j
  {
  }

  /** One more row moves a position by the row width. */
  lemma MulSucc(k: nat, w: nat, j: nat)
    ensures (k + 1) * w + j == w + (k * w + j)
  {
  }

  /** A row-major position inside an h x w rectangle is below h * w. */
  lemma RowMajorBelow(k: nat, h: nat, w: nat, j: nat)
    requires k < h && j < w
    ensures k * w + j < h * w
  {
    assert k * w <= (h - 1) * w by {
      MulMono(k, h - 1, w);
    }
    assert (h - 1) * w + w == h * w;
  }

  /** The flattened values are exactly the values of the cells of the patch. */
  lemma {:induction false} PatchCellsMembers(g: Grid, p: Rect, x: int)
    requires g.Valid() && Fits(p, g.rows, g.cols)
    ensures x in PatchCells(g, p) <==> exists r: nat, c: nat | InRect(p, r, c) :: g.cells[r][c] == x
    decreases p.rowEnd - p.rowStart
  {
    if p.rowStart < p.rowEnd {
      var q := p.(rowStart := p.rowStart + 1);
      var row := g.cells[p.rowStart][p.colStart..p.colEnd];
      PatchCellsMembers(g, q, x);
      assert PatchCells(g, p) == row + PatchCells(g, q);
      if x in row {
        var t :| 0 <= t < |row| && row[t] == x;
        assert InRect(p, p.rowStart, p.colStart + t);
      } else if x in PatchCells(g, q) {
        var r: nat, c: nat :| InRect(q, r, c) && g.cells[r][c] == x;
        assert InRect(p, r, c);
      }
      if exists r: nat, c: nat | InRect(p, r, c) :: g.cells[r][c] == x {
        var r: nat, c: nat :| InRect(p, r, c) && g.cells[r][c] == x;
        if r == p.rowStart {
          assert row[c - p.colStart] == x;
        } else {
          assert InRect(q, r, c);
        }
      }
    }
  }

  /** Over a non-empty patch, min is the smallest and max the largest cell of
      the patch, and each is the value of some cell of it. */
  lemma PatchExtremes(g: Grid, p: Rect)
    requires g.Valid() && Fits(p, g.rows, g.cols)
    requires p.rowStart < p.rowEnd && p.colStart < p.colEnd
    ensures |PatchCells(g, p)| > 0
    ensures forall r: nat, c: nat | InRect(p, r, c) ::
              SeqMin(PatchCells(g, p)) <= g.cells[r][c] <= SeqMax(PatchCells(g, p))
    ensures exists r: nat, c: nat | InRect(p, r, c) :: g.cells[r][c] == SeqMin(PatchCells(g, p))
    ensures exists r: nat, c: nat | InRect(p, r, c) :: g.cells[r][c] == SeqMax(PatchCells(g, p))
  {
    var xs := PatchCells(g, p);
    assert |xs| == (p.rowEnd - p.rowStart) * (p.colEnd - p.colStart);
    MulMono(1, p.rowEnd - p.rowStart, p.colEnd - p.colStart);
    forall r: nat, c: nat | InRect(p, r, c) ensures SeqMin(xs) <= g.cells[r][c] <= SeqMax(xs) {
      PatchCellsMembers(g, p, g.cells[r][c]);
    }
    PatchCellsMembers(g, p, SeqMin(xs));
    PatchCellsMembers(g, p, SeqMax(xs));
  }

  /** All statistics of a configuration over one patch, in configuration order;
      the first that cannot be computed makes the whole row fail. */
  function ReduceAll(cmd: seq<Stat>, xs: seq<int>): (r: Result<seq<Value>>)
    ensures r.Err? ==> r.error == EmptyReduction
    ensures r.Ok? ==> |r.value| == |cmd| && forall k | 0 <= k < |cmd| :: Reduce(cmd[k], xs) == Ok(r.value[k])
  {
    if forall k | 0 <= k < |cmd| :: Reduce(cmd[k], xs).Ok? then
      Ok(seq(|cmd|, k requires 0 <= k < |cmd| => Reduce(cmd[k], xs).value))
    else Err(EmptyReduction)
  }

  /** A row of statistics fails exactly when the patch has no cells and the
      configuration asks for min or max. */
  lemma ReduceAllOutcome(cmd: seq<Stat>, xs: seq<int>)
    ensures ReduceAll(cmd, xs).Ok? <==> |xs| > 0 || forall k | 0 <= k < |cmd| :: cmd[k] == Mean
    ensures ReduceAll(cmd, xs).Err? ==> ReduceAll(cmd, xs).error == EmptyReduction
    ensures ReduceAll(cmd, xs).Ok? ==> |ReduceAll(cmd, xs).value| == |cmd|
  {
    if |xs| == 0 && !(forall k | 0 <= k < |cmd| :: cmd[k] == Mean) {
      var k :| 0 <= k < |cmd| && cmd[k] != Mean;
      assert Reduce(cmd[k], xs).Err?;
    }
  }

  /** Over a patch of cells that all hold k, every statistic of the default
      configuration is k. */
  lemma ConstantPatch(g: Grid, p: Rect, k: int)
    requires g.Valid() && Fits(p, g.rows, g.cols)
    requires p.rowStart < p.rowEnd && p.colStart < p.colEnd
    requires forall r: nat, c: nat | InRect(p, r, c) :: g.cells[r][c] == k
    ensures ReduceAll(DefaultCmd, PatchCells(g, p)) == Ok([Num(k as real), Num(k as real), Num(k as real)])
  {
    var xs := PatchCells(g, p);
    MulMono(1, p.rowEnd - p.rowStart, p.colEnd - p.colStart);
    forall t | 0 <= t < |xs| ensures xs[t] == k {
      PatchCellsMembers(g, p, xs[t]);
    }
    ConstantStatistics(xs, k, Mean);
    ConstantStatistics(xs, k, Min);
    ConstantStatistics(xs, k, Max);
    assert forall t | 0 <= t < |DefaultCmd| :: Reduce(DefaultCmd[t], xs) == Ok(Num(k as real));
    var vs := ReduceAll(DefaultCmd, xs).value;
    assert vs == [Num(k as real), Num(k as real), Num(k as real)];
  }

  /** The default row of a non-empty patch: its min and max are the smallest
      and largest cell of the patch, and its mean lies between them. */
  lemma DefaultRowOrdered(g: Grid, p: Rect)
    requires g.Valid() && Fits(p, g.rows, g.cols)
    requires p.rowStart < p.rowEnd && p.colStart < p.colEnd
    ensures ReduceAll(DefaultCmd, PatchCells(g, p)).Ok?
    ensures var vs := ReduceAll(DefaultCmd, PatchCells(g, p)).value;
      |vs| == 3 && vs[0].Num? && vs[1].Num? && vs[2].Num? &&
      vs[1].x <= vs[0].x <= vs[2].x &&
      (forall r: nat, c: nat | InRect(p, r, c) :: vs[1].x <= g.cells[r][c] as real <= vs[2].x) &&
      (exists r: nat, c: nat | InRect(p, r, c) :: g.cells[r][c] as real == vs[1].x) &&
      (exists r: nat, c: nat | InRect(p, r, c) :: g.cells[r][c] as real == vs[2].x)
  {
    var xs := PatchCells(g, p);
    PatchExtremes(g, p);
    MeanBetweenMinAndMax(xs);
    var vs := ReduceAll(DefaultCmd, xs).value;
    assert vs[1].x == SeqMin(xs) as real && vs[2].x == SeqMax(xs) as real;
    var r1: nat, c1: nat :| InRect(p, r1, c1) && g.cells[r1][c1] == SeqMin(xs);
    assert g.cells[r1][c1] as real == vs[1].x;
    var r2: nat, c2: nat :| InRect(p, r2, c2) && g.cells[r2][c2] == SeqMax(xs);
    assert g.cells[r2][c2] as real == vs[2].x;
  }

  /** The row of values of patch number i. */
  function RowOf(prefix: string, cmd: seq<Stat>, values: seq<Value>, i: nat): StatRow
    requires |values| == |cmd|
  {
    StatRow(seq(|cmd|, k requires 0 <= k < |cmd| => Cell(ColumnName(prefix, cmd[k]), values[k])), i)
  }

  /** `calc_stat` as a value. */
  function CalcStatSpec(g: Grid, ps: seq<Rect>, cmd: seq<Stat>, prefix: string): (r: Result<StatTable>)
    requires g.Valid() && forall i | 0 <= i < |ps| :: Fits(ps[i], g.rows, g.cols)
    ensures r.Err? ==> r.error == EmptyReduction
    ensures r.Ok? ==> r.value.columns == Columns(prefix, cmd) && |r.value.rows| == |ps|
  {
    if forall i | 0 <= i < |ps| :: ReduceAll(cmd, PatchCells(g, ps[i])).Ok? then
      Ok(StatTable(Columns(prefix, cmd),
                   seq(|ps|, i requires 0 <= i < |ps| => RowOf(prefix, cmd, ReduceAll(cmd, PatchCells(g, ps[i])).value, i))))
    else Err(EmptyReduction)
  }

  /** `calc_stat` yields one row per patch in patch order: row i has block i
      and one column "{prefix}_{name}" per statistic in configuration order,
      holding that statistic over patch i; it fails only with EmptyReduction. */
  lemma CalcStatRowsMeaning(g: Grid, ps: seq<Rect>, cmd: seq<Stat>, prefix: string)
    requires g.Valid() && forall i | 0 <= i < |ps| :: Fits(ps[i], g.rows, g.cols)
    ensures var r := CalcStatSpec(g, ps, cmd, prefix);
      (r.Ok? <==> forall i | 0 <= i < |ps| :: ReduceAll(cmd, PatchCells(g, ps[i])).Ok?) &&
      (r.Err? ==> r.error == EmptyReduction) &&
      (r.Ok? ==>
        r.value.columns == Columns(prefix, cmd) && |r.value.rows| == |ps| &&
        forall i | 0 <= i < |ps| ::
          r.value.rows[i].block == i && |r.value.rows[i].cells| == |cmd| &&
          forall k | 0 <= k < |cmd| ::
            r.value.rows[i].cells[k].name == prefix + "_" + StatName(cmd[k]) &&
            Reduce(cmd[k], PatchCells(g, ps[i])) == Ok(r.value.rows[i].cells[k].value))
  {
  }

  /** The statistics of one patch's values, computed one configuration entry at
      a time (the inner loop of `calc_stat`). */
  method ReducePatch(aux: seq<int>, cmd: seq<Stat>) returns (r: Result<seq<Value>>)
    ensures r == ReduceAll(cmd, aux)
    ensures r.Ok? ==> |r.value| == |cmd|
  {
    var values: seq<Value> := [];
    for k := 0 to |cmd|
      invariant |values| == k
      invariant forall t | 0 <= t < k :: Reduce(cmd[t], aux) == Ok(values[t])
    {
      var v := Reduce(cmd[k], aux);
      if v.Err? {
        return Err(v.error);
      }
      values := values + [v.value];
    }
    assert values == seq(|cmd|, k requires 0 <= k < |cmd| => Reduce(cmd[k], aux).value);
    r := Ok(values);
  }

  /** `calc_stat(df_list, cmd, prefix)`: one row per patch, in patch order,
      with the patch's position as its block index. */
  method CalcStat(data: array2<int>, ps: seq<Rect>, cmd: seq<Stat>, prefix: string) returns (r: Result<StatTable>)
    requires forall i | 0 <= i < |ps| :: Fits(ps[i], data.Length0, data.Length1)
    ensures r == CalcStatSpec(Cells(data), ps, cmd, prefix)
  {
    var g := Cells(data);
    var columns := Columns(prefix, cmd);
    var rows: seq<StatRow> := [];
    for i := 0 to |ps|
      invariant |rows| == i
      invariant forall t | 0 <= t < i ::
        ReduceAll(cmd, PatchCells(g, ps[t])).Ok? &&
        rows[t] == RowOf(prefix, cmd, ReduceAll(cmd, PatchCells(g, ps[t])).value, t)
    {
      var values := ReducePatch(PatchCells(g, ps[i]), cmd);
      if values.Err? {
        return Err(values.error);
      }
      rows := rows + [RowOf(prefix, cmd, values.value, i)];
    }
    CalcStatRows(g, ps, cmd, prefix, rows);
    r := Ok(StatTable(columns, rows));
  }

  /** Rows built patch by patch are the rows of the specification. */
  lemma CalcStatRows(g: Grid, ps: seq<Rect>, cmd: seq<Stat>, prefix: string, rows: seq<StatRow>)
    requires g.Valid() && forall i | 0 <= i < |ps| :: Fits(ps[i], g.rows, g.cols)
    requires |rows| == |ps|
    requires forall t | 0 <= t < |ps| :: ReduceAll(cmd, PatchCells(g, ps[t])).Ok?
    requires forall t | 0 <= t < |ps| ::
      rows[t] == RowOf(prefix, cmd, ReduceAll(cmd, PatchCells(g, ps[t])).value, t)
    ensures CalcStatSpec(g, ps, cmd, prefix) == Ok(StatTable(Columns(prefix, cmd), rows))
  {
    assert rows == seq(|ps|, i requires 0 <= i < |ps| => RowOf(prefix, cmd, ReduceAll(cmd, PatchCells(g, ps[i])).value, i));
  }
}
