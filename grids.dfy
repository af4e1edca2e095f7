/** Two-dimensional grids of cell values: the clamp that turns "no data"
    (values <= 0) into 0 in place, and the cell-by-cell difference that the lag
    mode takes between two periods, with numpy's broadcasting of unit dimensions. */
module Grids {
  import opened Errors

  /** A dense grid as the file reader hands it over: a shape and its rows. */
  datatype Grid = Grid(rows: nat, cols: nat, cells: seq<seq<int>>) {
    predicate Valid() {
      |cells| == rows && forall i | 0 <= i < rows :: |cells[i]| == cols
    }
  }

  /** The value a cell holds after "values <= 0 become 0". */
  function Clamp(x: int): int { if x <= 0 then 0 else x }

  predicate NonNegative(g: Grid)
    requires g.Valid()
  {
    forall i, j | 0 <= i < g.rows && 0 <= j < g.cols :: g.cells[i][j] >= 0
  }

  /** The value view of a two-dimensional array. */
  function Cells(a: array2<int>): (g: Grid)
    reads a
    ensures g.Valid() && g.rows == a.Length0 && g.cols == a.Length1
    ensures forall i, j | 0 <= i < a.Length0 && 0 <= j < a.Length1 :: g.cells[i][j] == a[i, j]
  {
    Grid(a.Length0, a.Length1,
         seq(a.Length0, i requires 0 <= i < a.Length0 reads a =>
           seq(a.Length1, j requires 0 <= j < a.Length1 reads a => a[i, j])))
  }

  /** The grid after the in-place clamp, as a value. */
  function ClampGrid(g: Grid): (c: Grid)
    requires g.Valid()
    ensures c.Valid() && c.rows == g.rows && c.cols == g.cols
  {
    Grid(g.rows, g.cols,
         seq(g.rows, i requires 0 <= i < g.rows =>
           seq(g.cols, j requires 0 <= j < g.cols => Clamp(g.cells[i][j]))))
  }

  /** After the clamp every cell is non-negative, positive cells are kept
      and every other cell is 0. */
  lemma ClampGridCells(g: Grid)
    requires g.Valid()
    ensures NonNegative(ClampGrid(g))
    ensures forall i, j | 0 <= i < g.rows && 0 <= j < g.cols ::
              ClampGrid(g).cells[i][j] == (if g.cells[i][j] > 0 then g.cells[i][j] else 0)
  {
  }

  /** Clamping a second time changes nothing; a grid with no cell <= 0 other
      than zeros is left as it is. */
  lemma ClampGridFixes(g: Grid)
    requires g.Valid()
    ensures ClampGrid(ClampGrid(g)) == ClampGrid(g)
    ensures NonNegative(g) ==> ClampGrid(g) == g
  {
    var c := ClampGrid(g);
    assert ClampGrid(c).cells == c.cells by {
      forall i | 0 <= i < g.rows ensures ClampGrid(c).cells[i] == c.cells[i] { }
    }
    if NonNegative(g) {
      assert c.cells == g.cells by {
        forall i | 0 <= i < g.rows ensures c.cells[i] == g.cells[i] { }
      }
    }
  }

  /** `a[a <= 0] = 0`: every cell that holds a value <= 0 is set to 0, in place. */
  method ClampInPlace(a: array2<int>)
    modifies a
    ensures forall i, j | 0 <= i < a.Length0 && 0 <= j < a.Length1 :: a[i, j] == Clamp(old(a[i, j]))
    ensures Cells(a) == ClampGrid(old(Cells(a)))
  {
    ghost var before := Cells(a);
    forall i, j | 0 <= i < a.Length0 && 0 <= j < a.Length1 && a[i, j] <= 0 {
      a[i, j] := 0;
    }
    assert Cells(a).cells == ClampGrid(before).cells by {
      forall i | 0 <= i < a.Length0 ensures Cells(a).cells[i] == ClampGrid(before).cells[i] { }
    }
  }

  /** numpy's broadcasting rule for one dimension: equal extents, or one of them is 1. */
  function BroadcastDim(m: nat, n: nat): Option<nat>
  {
    if m == n then Some(m)
    else if m == 1 then Some(n)
    else if n == 1 then Some(m)
    else None
  }

  /** The index into a dimension of extent n that broadcast index i reads. */
  function Pick(i: nat, n: nat): nat { if n == 1 then 0 else i }

  /** A broadcast index reads a valid index of both operands. */
  lemma PickInRange(m: nat, n: nat)
    requires BroadcastDim(m, n).Some?
    ensures forall i: nat | i < BroadcastDim(m, n).value :: Pick(i, m) < m && Pick(i, n) < n
  {
  }

  /** `a - b` on two grids. */
  function Diff(a: Grid, b: Grid): (r: Result<Grid>)
    requires a.Valid() && b.Valid()
    ensures r.Err? <==> BroadcastDim(a.rows, b.rows).None? || BroadcastDim(a.cols, b.cols).None?
    ensures r.Err? ==> r.error == ShapeMismatch
    ensures r.Ok? ==> r.value.Valid()
  {
    match (BroadcastDim(a.rows, b.rows), BroadcastDim(a.cols, b.cols))
    case (Some(rows), Some(cols)) =>
      Ok(Grid(rows, cols,
              seq(rows, i requires 0 <= i < rows =>
                seq(cols, j requires 0 <= j < cols =>
                  a.cells[Pick(i, a.rows)][Pick(j, a.cols)] - b.cells[Pick(i, b.rows)][Pick(j, b.cols)]))))
    case _ => Err(ShapeMismatch)
  }

  /** On grids of one shape the difference succeeds, keeps the shape, and
      subtracts cell by cell. */
  lemma DiffSameShape(a: Grid, b: Grid)
    requires a.Valid() && b.Valid() && a.rows == b.rows && a.cols == b.cols
    ensures Diff(a, b).Ok?
    ensures Diff(a, b).value.rows == a.rows && Diff(a, b).value.cols == a.cols
    ensures forall i, j | 0 <= i < a.rows && 0 <= j < a.cols ::
              Diff(a, b).value.cells[i][j] == a.cells[i][j] - b.cells[i][j]
  {
    assert BroadcastDim(a.rows, b.rows) == Some(a.rows);
    assert BroadcastDim(a.cols, b.cols) == Some(a.cols);
    forall i, j | 0 <= i < a.rows && 0 <= j < a.cols
      ensures Diff(a, b).value.cells[i][j] == a.cells[i][j] - b.cells[i][j]
    {
      assert Pick(i, a.rows) == i && Pick(j, a.cols) == j;
      assert Diff(a, b).value.cells[i][j] == a.cells[Pick(i, a.rows)][Pick(j, a.cols)] - b.cells[Pick(i, b.rows)][Pick(j, b.cols)];
    }
  }

  /** The difference of the clamped grids, the value the lag mode aggregates:
      cell [i][j] is max(a[i][j], 0) - max(b[i][j], 0). */
  lemma ClampedDiffCells(a: Grid, b: Grid)
    requires a.Valid() && b.Valid() && a.rows == b.rows && a.cols == b.cols
    ensures Diff(ClampGrid(a), ClampGrid(b)).Ok?
    ensures forall i, j | 0 <= i < a.rows && 0 <= j < a.cols ::
              Diff(ClampGrid(a), ClampGrid(b)).value.cells[i][j]
                == (if a.cells[i][j] > 0 then a.cells[i][j] else 0) - (if b.cells[i][j] > 0 then b.cells[i][j] else 0)
  {
    DiffSameShape(ClampGrid(a), ClampGrid(b));
  }

  /** A grid minus itself is a grid of zeros of the same shape. */
  lemma DiffSelf(g: Grid)
    requires g.Valid()
    ensures Diff(g, g).Ok?
    ensures Diff(g, g).value.rows == g.rows && Diff(g, g).value.cols == g.cols
    ensures forall i, j | 0 <= i < g.rows && 0 <= j < g.cols :: Diff(g, g).value.cells[i][j] == 0
  {
    DiffSameShape(g, g);
  }

  /** `actual - past` on two arrays: a fresh array holding the difference, or
      ShapeMismatch when the shapes do not broadcast. */
  method Subtract(actual: array2<int>, past: array2<int>) returns (r: Result<array2<int>>)
    ensures r.Err? <==> Diff(Cells(actual), Cells(past)).Err?
    ensures r.Err? ==> r.error == ShapeMismatch
    ensures r.Ok? ==> fresh(r.value) && Cells(r.value) == Diff(Cells(actual), Cells(past)).value
  {
    var rows := BroadcastDim(actual.Length0, past.Length0);
    var cols := BroadcastDim(actual.Length1, past.Length1);
    if rows.None? || cols.None? {
      return Err(ShapeMismatch);
    }
    var d := new int[rows.value, cols.value];
    PickInRange(actual.Length0, past.Length0);
    PickInRange(actual.Length1, past.Length1);
    forall i, j | 0 <= i < rows.value && 0 <= j < cols.value {
      d[i, j] := actual[Pick(i, actual.Length0), Pick(j, actual.Length1)]
               - past[Pick(i, past.Length0), Pick(j, past.Length1)];
    }
    DiffOfArrays(actual, past, d);
    r := Ok(d);
  }

  /** An array filled cell by cell with the broadcast difference holds `Diff`. */
  lemma DiffOfArrays(a: array2<int>, b: array2<int>, d: array2<int>)
    requires BroadcastDim(a.Length0, b.Length0) == Some(d.Length0)
    requires BroadcastDim(a.Length1, b.Length1) == Some(d.Length1)
    requires forall i, j | 0 <= i < d.Length0 && 0 <= j < d.Length1 ::
               Pick(i, a.Length0) < a.Length0 && Pick(j, a.Length1) < a.Length1 &&
               Pick(i, b.Length0) < b.Length0 && Pick(j, b.Length1) < b.Length1 &&
               d[i, j] == a[Pick(i, a.Length0), Pick(j, a.Length1)] - b[Pick(i, b.Length0), Pick(j, b.Length1)]
    ensures Diff(Cells(a), Cells(b)) == Ok(Cells(d))
  {
    var spec := Diff(Cells(a), Cells(b)).value;
    assert Cells(d).cells == spec.cells by {
      forall i | 0 <= i < d.Length0 ensures Cells(d).cells[i] == spec.cells[i] {
        forall j | 0 <= j < d.Length1 ensures Cells(d).cells[i][j] == spec.cells[i][j] { }
      }
    }
  }

  /** `subtract_vars`: clamps both argument grids in place, then returns their
      difference; incompatible shapes fail after the clamp has happened. */
  method SubtractVars(actual: array2<int>, past: array2<int>) returns (r: Result<array2<int>>)
    modifies actual, past
    ensures Cells(actual) == ClampGrid(old(Cells(actual)))
    ensures Cells(past) == ClampGrid(old(Cells(past)))
    ensures r.Err? <==> Diff(ClampGrid(old(Cells(actual))), ClampGrid(old(Cells(past)))).Err?
    ensures r.Err? ==> r.error == ShapeMismatch
    ensures r.Ok? ==>
      fresh(r.value) && Cells(r.value) == Diff(ClampGrid(old(Cells(actual))), ClampGrid(old(Cells(past)))).value
  {
    ghost var a0 := Cells(actual);
    ClampInPlace(actual);
    ClampInPlace(past);
    if actual == past {
      ClampGridFixes(a0);
    }
    r := Subtract(actual, past);
  }

  /** The worked example of the difference: [[-1, 5]] and [[3, -2]] clamp to
      [[0, 5]] and [[3, 0]], whose difference is [[-3, 5]]. */
  lemma SubtractExample()
    ensures Diff(ClampGrid(Grid(1, 2, [[-1, 5]])), ClampGrid(Grid(1, 2, [[3, -2]])))
            == Ok(Grid(1, 2, [[-3, 5]]))
  {
    var a, b := ClampGrid(Grid(1, 2, [[-1, 5]])), ClampGrid(Grid(1, 2, [[3, -2]]));
    assert a.cells[0][0] == 0 && a.cells[0][1] == 5;
    assert a.cells == [[0, 5]] by { assert a.cells[0] == [0, 5]; }
    assert b.cells[0][0] == 3 && b.cells[0][1] == 0;
    assert b.cells == [[3, 0]] by { assert b.cells[0] == [3, 0]; }
    DiffSameShape(a, b);
    var d := Diff(a, b).value;
    assert d.cells[0][0] == -3 && d.cells[0][1] == 5;
    assert d.cells == [[-3, 5]] by { assert d.cells[0] == [-3, 5]; }
  }
}
