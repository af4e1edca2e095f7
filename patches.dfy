/** The patch partitioner: a grid of R x C cells and a requested patch count N
    give d = floor(sqrt(N)) row bands of height R div d and d column bands of
    width C div d, enumerated row band by row band. */
module Patches {
  import opened Errors

  /** A patch as the index bounds of a grid slice: rows [rowStart, rowEnd),
      columns [colStart, colEnd). */
  datatype Rect = Rect(rowStart: nat, rowEnd: nat, colStart: nat, colEnd: nat)

  predicate InRect(p: Rect, r: nat, c: nat)
  {
    p.rowStart <= r < p.rowEnd && p.colStart <= c < p.colEnd
  }

  /** `math.floor(math.sqrt(n))` on a non-negative integer. */
  function FloorSqrt(n: nat): (d: nat)
    ensures d * d <= n < (d + 1) * (d + 1)
  {
    if n == 0 then 0
    else
      var r := FloorSqrt(n - 1);
      if (r + 1) * (r + 1) <= n then r + 1 else r
  }

  lemma MulMono(a: nat, b: nat, c: nat)
    ensures a <= b ==> a * c <= b * c
  {
  }

  /** The integer square root is the only d with d*d <= n < (d+1)*(d+1). */
  lemma FloorSqrtUnique(n: nat, d: nat)
    requires d * d <= n < (d + 1) * (d + 1)
    ensures FloorSqrt(n) == d
  {
    var s := FloorSqrt(n);
    if s < d {
      SquareMono(s + 1, d);
    } else if d < s {
      SquareMono(d + 1, s);
    }
  }

  /** Squaring is monotonic on naturals. */
  lemma SquareMono(a: nat, b: nat)
    requires a <= b
    ensures a * a <= b * b
  {
    MulMono(a, b, a);
    MulMono(a, b, b);
    assert b * a == a * b;
  }

  /** The patch of row band i and column band j, for band height h and width w. */
  function Band(h: nat, w: nat, i: nat, j: nat): Rect
  {
    Rect(i * h, i * h + h, j * w, j * w + w)
  }

  /** Patch k of the row-major enumeration of d x d bands of a rows x cols grid. */
  function PatchAt(rows: nat, cols: nat, d: nat, k: nat): Rect
    requires d > 0
  {
    Band(rows / d, cols / d, k / d, k % d)
  }

  /** The d*d patches of a rows x cols grid, in row-major order. */
  function Partition(rows: nat, cols: nat, d: nat): (ps: seq<Rect>)
    requires d > 0
    ensures |ps| == d * d
  {
    seq(d * d, k requires 0 <= k < d * d => PatchAt(rows, cols, d, k))
  }

  /** `mount_patches` as a value: a negative count fails in the square root,
      a count below one leaves zero bands and fails in the division. */
  function Mount(rows: nat, cols: nat, numPatches: int): (r: Result<seq<Rect>>)
    ensures r.Err? <==> numPatches < 1
    ensures r.Ok? ==> |r.value| == FloorSqrt(numPatches) * FloorSqrt(numPatches)
  {
    if numPatches < 0 then Err(MathDomainError)
    else if FloorSqrt(numPatches) == 0 then Err(ZeroDivisionError)
    else Ok(Partition(rows, cols, FloorSqrt(numPatches)))
  }

  /** The band of height h that holds row r is band r / h. */
  lemma DivBand(r: nat, h: nat, a: nat)
    requires h > 0
    ensures a * h <= r < a * h + h <==> r / h == a
  {
    var q := r / h;
    assert q * h <= r < q * h + h;
    MulMono(a + 1, q, h);
    MulMono(q + 1, a, h);
  }

  /** A row at or past d bands of height h lies in band d or later. */
  lemma DivLower(r: nat, h: nat, d: nat)
    requires h > 0 && d * h <= r
    ensures d <= r / h
  {
    var q := r / h;
    assert r < q * h + h;
    MulMono(q + 1, d, h);
  }

  /** The position of row band i, column band j in the row-major enumeration. */
  function RowMajorIndex(d: nat, i: nat, j: nat): nat { i * d + j }

  /** Index i * d + j of the row-major enumeration is row band i, column band j. */
  lemma RowMajor(i: nat, j: nat, d: nat)
    requires j < d
    ensures (i * d + j) / d == i && (i * d + j) % d == j
  {
    DivBand(i * d + j, d, i);
  }

  /** A patch index below d*d has its row band below d. */
  lemma BandIndexBelow(k: nat, d: nat)
    requires k < d * d
    ensures k / d < d
  {
    DivBand(k, d, k / d);
    MulMono(d, k / d, d);
  }

  /** Patch i * d + j is the patch of row band i and column band j. */
  lemma PatchAtRowMajor(rows: nat, cols: nat, d: nat, i: nat, j: nat)
    requires j < d
    ensures PatchAt(rows, cols, d, i * d + j) == Band(rows / d, cols / d, i, j)
  {
    RowMajor(i, j, d);
  }

  /** No band runs past the grid: (i+1) * (n div d) <= n for every i < d, so
      the `min` clamp of the source never binds. */
  lemma BandWithinGrid(n: nat, d: nat, i: nat)
    requires 0 < d && i < d
    ensures i * (n / d) + n / d <= n
  {
    MulMono(i + 1, d, n / d);
    assert d * (n / d) + n % d == n;
  }

  function MinInt(a: int, b: int): int { if a <= b then a else b }

  /** `mount_patches(data, num_patches)`: the nested row-band / column-band loop
      that slices the grid into patches. */
  method MountPatches(data: array2<int>, numPatches: int) returns (r: Result<seq<Rect>>)
    ensures r.Err? <==> numPatches < 1
    ensures numPatches < 0 ==> r == Err(MathDomainError)
    ensures numPatches == 0 ==> r == Err(ZeroDivisionError)
    ensures r.Ok? ==>
      var d := FloorSqrt(numPatches);
      |r.value| == d * d &&
      forall k | 0 <= k < |r.value| ::
        r.value[k] == Band(data.Length0 / d, data.Length1 / d, k / d, k % d)
    ensures r == Mount(data.Length0, data.Length1, numPatches)
  {
    if numPatches < 0 {
      return Err(MathDomainError);
    }
    var d := FloorSqrt(numPatches);
    if d == 0 {
      return Err(ZeroDivisionError);
    }
    var nRow, nCol := data.Length0, data.Length1;
    var h, w := nRow / d, nCol / d;
    var patches: seq<Rect> := [];
    for i := 0 to d
      invariant |patches| == i * d
      invariant forall k | 0 <= k < |patches| :: patches[k] == PatchAt(nRow, nCol, d, k)
    {
      for j := 0 to d
        invariant |patches| == i * d + j
        invariant forall k | 0 <= k < |patches| :: patches[k] == PatchAt(nRow, nCol, d, k)
      {
        var maxRow := MinInt(i * h + h, nRow);
        var maxCol := MinInt(j * w + w, nCol);
        BandWithinGrid(nRow, d, i);
        BandWithinGrid(nCol, d, j);
        PatchAtRowMajor(nRow, nCol, d, i, j);
        patches := patches + [Rect(i * h, maxRow, j * w, maxCol)];
      }
    }
    assert patches == Partition(nRow, nCol, d);
    r := Ok(patches);
  }

  /** Every patch is exactly (R div d) x (C div d) and lies inside the grid. */
  lemma PatchShape(rows: nat, cols: nat, d: nat, k: nat)
    requires 0 < d && k < d * d
    ensures var p := Partition(rows, cols, d)[k];
      p.rowEnd - p.rowStart == rows / d && p.colEnd - p.colStart == cols / d &&
      p.rowEnd <= rows && p.colEnd <= cols
  {
    BandIndexBelow(k, d);
    BandWithinGrid(rows, d, k / d);
    BandWithinGrid(cols, d, k % d);
  }

  /** Cell (r, c) lies in patch k exactly when the bands are non-empty, r is in
      row band k / d and c is in column band k % d. */
  lemma PatchCell(rows: nat, cols: nat, d: nat, k: nat, r: nat, c: nat)
    requires 0 < d && k < d * d
    ensures InRect(Partition(rows, cols, d)[k], r, c) <==>
      rows / d > 0 && cols / d > 0 && r / (rows / d) == k / d && c / (cols / d) == k % d
  {
    var h, w := rows / d, cols / d;
    if h > 0 && w > 0 {
      DivBand(r, h, k / d);
      DivBand(c, w, k % d);
    }
  }

  /** Two different patches share no cell. */
  lemma PatchesDisjoint(rows: nat, cols: nat, d: nat, k1: nat, k2: nat, r: nat, c: nat)
    requires 0 < d && k1 < d * d && k2 < d * d && k1 != k2
    ensures !(InRect(Partition(rows, cols, d)[k1], r, c) && InRect(Partition(rows, cols, d)[k2], r, c))
  {
    PatchCell(rows, cols, d, k1, r, c);
    PatchCell(rows, cols, d, k2, r, c);
    assert k1 == d * (k1 / d) + k1 % d;
    assert k2 == d * (k2 / d) + k2 % d;
  }

  /** The cells below row d * (R div d) or right of column d * (C div d) are in
      no patch: the remainder is dropped, not folded into the last band. */
  lemma RemainderDropped(rows: nat, cols: nat, d: nat, r: nat, c: nat)
    requires 0 < d
    requires r >= d * (rows / d) || c >= d * (cols / d)
    ensures forall k | 0 <= k < d * d :: !InRect(Partition(rows, cols, d)[k], r, c)
  {
    var h, w := rows / d, cols / d;
    forall k | 0 <= k < d * d ensures !InRect(Partition(rows, cols, d)[k], r, c) {
      PatchCell(rows, cols, d, k, r, c);
      BandIndexBelow(k, d);
      if h > 0 && r >= d * h {
        DivLower(r, h, d);
      }
      if w > 0 && c >= d * w {
        DivLower(c, w, d);
      }
    }
  }

  /** Every cell above row d * (R div d) and left of column d * (C div d) is in
      patch (r div h) * d + (c div w). */
  lemma CellCovered(rows: nat, cols: nat, d: nat, r: nat, c: nat)
    requires 0 < d && 0 < rows / d && 0 < cols / d
    requires r < d * (rows / d) && c < d * (cols / d)
    ensures var i, j := r / (rows / d), c / (cols / d);
      i < d && j < d && InRect(PatchAt(rows, cols, d, RowMajorIndex(d, i, j)), r, c)
  {
    var h, w := rows / d, cols / d;
    var i, j := r / h, c / w;
    DivBand(r, h, i);
    DivBand(c, w, j);
    MulMono(d, i, h);
    MulMono(d, j, w);
    assert i < d && j < d;
    MulMono(i + 1, d, d);
    assert i * d + j < d * d;
    RowMajor(i, j, d);
    PatchCell(rows, cols, d, i * d + j, r, c);
  }

  /** The default count of 180 on a 100 x 100 grid: 13 bands of 7, 169 patches;
      patch 0 is rows and columns [0, 7) and the last patch ends at 91, so rows
      and columns 91 to 99 are in no patch. */
  lemma DefaultCountExample()
    ensures Mount(100, 100, 180).Ok?
    ensures |Mount(100, 100, 180).value| == 169
    ensures Mount(100, 100, 180).value[0] == Rect(0, 7, 0, 7)
    ensures Mount(100, 100, 180).value[168] == Rect(84, 91, 84, 91)
  {
    FloorSqrtUnique(180, 13);
  }
}
