/** The table merger (`read_folders`): the feature table and the target table
    are loaded in non-lag mode and combined by a full outer join on the key
    (date, block). */
module Merge {
  import opened Errors
  import opened Periods
  import opened Stats
  import opened Series

  /** One row of the merged table: the key, then the statistic cells of the
      feature row and of the target row, None where that side has no row. */
  datatype Joined = Joined(date: Period, block: nat, left: Option<seq<Cell>>, right: Option<seq<Cell>>)

  /** Some row of the table has the key (date, block). */
  predicate HasKey(rows: seq<Row>, date: Period, block: nat)
  {
    exists x | x in rows :: x.date == date && x.block == block
  }

  /** The rows of a table with the key (date, block), in table order. */
  function Matching(rows: seq<Row>, date: Period, block: nat): (ms: seq<Row>)
    ensures forall x :: x in ms <==> x in rows && x.date == date && x.block == block
  {
    if rows == [] then []
    else (if rows[0].date == date && rows[0].block == block then [rows[0]] else []) + Matching(rows[1..], date, block)
  }

  /** The merged rows of one feature row: one per target row with its key, or
      the feature row alone when there is none. */
  function JoinOne(l: Row, right: seq<Row>): (r: seq<Joined>)
    ensures |r| >= 1 && forall j | j in r :: j.left == Some(l.cells)
  {
    var ms := Matching(right, l.date, l.block);
    if ms == [] then [Joined(l.date, l.block, Some(l.cells), None)]
    else seq(|ms|, k requires 0 <= k < |ms| => Joined(l.date, l.block, Some(l.cells), Some(ms[k].cells)))
  }

  /** The merged rows of every feature row, in feature order. */
  function LeftJoin(left: seq<Row>, right: seq<Row>): (r: seq<Joined>)
    ensures |r| >= |left| && forall j | j in r :: j.left.Some?
  {
    if left == [] then [] else JoinOne(left[0], right) + LeftJoin(left[1..], right)
  }

  /** The target rows whose key no feature row has, alone. */
  function RightOnly(left: seq<Row>, right: seq<Row>): (r: seq<Joined>)
    ensures |r| <= |right| && forall j | j in r :: j.left.None? && j.right.Some?
  {
    if right == [] then []
    else
      var y := right[0];
      (if HasKey(left, y.date, y.block) then [] else [Joined(y.date, y.block, None, Some(y.cells))])
      + RightOnly(left, right[1..])
  }

  /** `pd.merge(data, out, on=['date', 'block'], how='outer')`. */
  function OuterJoin(left: seq<Row>, right: seq<Row>): (r: seq<Joined>)
    ensures |left| <= |r|
    ensures forall j | j in r :: j.left.Some? || j.right.Some?
  {
    LeftJoin(left, right) + RightOnly(left, right)
  }

  lemma JoinOneMembers(l: Row, right: seq<Row>, j: Joined)
    ensures j in JoinOne(l, right) <==>
      j.date == l.date && j.block == l.block && j.left == Some(l.cells) &&
      (if j.right.Some? then Row(j.date, j.block, j.right.value) in right else !HasKey(right, j.date, j.block))
  {
    var ms := Matching(right, l.date, l.block);
    var js := JoinOne(l, right);
    if ms != [] {
      assert ms[0] in ms;
      if j in js {
        var k :| 0 <= k < |js| && js[k] == j;
        assert ms[k] in ms;
        assert Row(j.date, j.block, j.right.value) == ms[k];
      }
      if j.right.Some? && j.date == l.date && j.block == l.block && j.left == Some(l.cells) {
        var y := Row(j.date, j.block, j.right.value);
        if y in right {
          assert y in ms;
          var k :| 0 <= k < |ms| && ms[k] == y;
          assert js[k] == j;
        }
      }
    }
  }

  lemma {:induction false} LeftJoinMembers(left: seq<Row>, right: seq<Row>, j: Joined)
    ensures j in LeftJoin(left, right) <==>
      j.left.Some? && Row(j.date, j.block, j.left.value) in left &&
      (if j.right.Some? then Row(j.date, j.block, j.right.value) in right else !HasKey(right, j.date, j.block))
  {
    if left != [] {
      LeftJoinMembers(left[1..], right, j);
      JoinOneMembers(left[0], right, j);
      assert left == [left[0]] + left[1..];
    }
  }

  lemma {:induction false} RightOnlyMembers(left: seq<Row>, right: seq<Row>, j: Joined)
    ensures j in RightOnly(left, right) <==>
      j.left.None? && j.right.Some? && Row(j.date, j.block, j.right.value) in right && !HasKey(left, j.date, j.block)
  {
    if right != [] {
      RightOnlyMembers(left, right[1..], j);
      assert right == [right[0]] + right[1..];
    }
  }

  /** Feature and target rows with equal keys are combined pairwise: the
      merged table holds (d, b, x, y) exactly when the feature table holds
      (d, b, x) and the target table holds (d, b, y). */
  lemma JoinBoth(left: seq<Row>, right: seq<Row>, d: Period, b: nat, x: seq<Cell>, y: seq<Cell>)
    ensures Joined(d, b, Some(x), Some(y)) in OuterJoin(left, right) <==> Row(d, b, x) in left && Row(d, b, y) in right
  {
    LeftJoinMembers(left, right, Joined(d, b, Some(x), Some(y)));
    RightOnlyMembers(left, right, Joined(d, b, Some(x), Some(y)));
  }

  /** A feature row whose key no target row has survives with null target columns. */
  lemma JoinLeftAlone(left: seq<Row>, right: seq<Row>, d: Period, b: nat, x: seq<Cell>)
    ensures Joined(d, b, Some(x), None) in OuterJoin(left, right) <==> Row(d, b, x) in left && !HasKey(right, d, b)
  {
    LeftJoinMembers(left, right, Joined(d, b, Some(x), None));
    RightOnlyMembers(left, right, Joined(d, b, Some(x), None));
  }

  /** A target row whose key no feature row has survives with null feature columns. */
  lemma JoinRightAlone(left: seq<Row>, right: seq<Row>, d: Period, b: nat, y: seq<Cell>)
    ensures Joined(d, b, None, Some(y)) in OuterJoin(left, right) <==> Row(d, b, y) in right && !HasKey(left, d, b)
  {
    LeftJoinMembers(left, right, Joined(d, b, None, Some(y)));
    RightOnlyMembers(left, right, Joined(d, b, None, Some(y)));
  }

  /** No merged row is null on both sides. */
  lemma JoinNeverEmpty(left: seq<Row>, right: seq<Row>, d: Period, b: nat)
    ensures Joined(d, b, None, None) !in OuterJoin(left, right)
  {
    LeftJoinMembers(left, right, Joined(d, b, None, None));
    RightOnlyMembers(left, right, Joined(d, b, None, None));
  }

  /** Every row of either table appears in the merged table, paired or alone. */
  lemma JoinKeepsEveryRow(left: seq<Row>, right: seq<Row>, x: Row)
    ensures x in left ==> exists j | j in OuterJoin(left, right) :: j.date == x.date && j.block == x.block && j.left == Some(x.cells)
    ensures x in right ==> exists j | j in OuterJoin(left, right) :: j.date == x.date && j.block == x.block && j.right == Some(x.cells)
  {
    if x in left {
      if HasKey(right, x.date, x.block) {
        var y :| y in right && y.date == x.date && y.block == x.block;
        JoinBoth(left, right, x.date, x.block, x.cells, y.cells);
      } else {
        JoinLeftAlone(left, right, x.date, x.block, x.cells);
      }
    }
    if x in right {
      if HasKey(left, x.date, x.block) {
        var l :| l in left && l.date == x.date && l.block == x.block;
        JoinBoth(left, right, x.date, x.block, l.cells, x.cells);
      } else {
        JoinRightAlone(left, right, x.date, x.block, x.cells);
      }
    }
  }

  /** Features {(January 2020, 0): a} and targets {(January 2020, 0): b,
      (February 2020, 0): c} merge into (January 2020, 0, a, b) and
      (February 2020, 0, null, c). */
  lemma MergeExample(a: seq<Cell>, b: seq<Cell>, c: seq<Cell>)
    ensures OuterJoin([Row(Period(2020, 1), 0, a)], [Row(Period(2020, 1), 0, b), Row(Period(2020, 2), 0, c)])
      == [Joined(Period(2020, 1), 0, Some(a), Some(b)), Joined(Period(2020, 2), 0, None, Some(c))]
  {
    var left := [Row(Period(2020, 1), 0, a)];
    var right := [Row(Period(2020, 1), 0, b), Row(Period(2020, 2), 0, c)];
    assert right[1..][1..] == [];
    assert Matching(right[1..], Period(2020, 1), 0) == [];
    assert Matching(right, Period(2020, 1), 0) == [right[0]];
    assert LeftJoin(left, right) == [Joined(Period(2020, 1), 0, Some(a), Some(b))];
    assert HasKey(left, Period(2020, 1), 0);
    assert !HasKey(left, Period(2020, 2), 0);
    assert RightOnly(left, right[1..][1..]) == [];
    assert RightOnly(left, right[1..]) == [Joined(Period(2020, 2), 0, None, Some(c))];
    assert RightOnly(left, right) == [Joined(Period(2020, 2), 0, None, Some(c))];
  }

  /** `read_folders`: load the feature paths and the target paths, each as
      one group in non-lag mode, and merge the two tables on date and block;
      a failure of the feature load comes first. A load of no paths is a
      table without columns, which has no "date" to merge on. */
  method ReadFolders(files: Reader, inputPaths: seq<string>, outputPaths: seq<string>, months: seq<string>)
    returns (r: Result<seq<Joined>>)
    requires ValidReader(files) && ValidMonthTable(months)
    ensures var data, out := LoadFrom(files, [inputPaths], false, months, 0), LoadFrom(files, [outputPaths], false, months, 0);
      (r.Ok? <==> data.Ok? && out.Ok? && inputPaths != [] && outputPaths != []) &&
      (r.Err? ==> r.error == if data.Err? then data.error else if out.Err? then out.error else MissingJoinColumn) &&
      (r.Ok? ==> r.value == OuterJoin(data.value, out.value))
  {
    var data := LoadData(files, [inputPaths], false, months);
    if data.Err? {
      return Err(data.error);
    }
    var out := LoadData(files, [outputPaths], false, months);
    if out.Err? {
      return Err(out.error);
    }
    SingleGroupRows(files, inputPaths, months);
    SingleGroupRows(files, outputPaths, months);
    if data.value == [] || out.value == [] {
      return Err(MissingJoinColumn);
    }
    r := Ok(OuterJoin(data.value, out.value));
  }
}
