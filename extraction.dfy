/**
 * Header-directed value extraction from one worksheet.
 *
 * Both front ends (the command-line batch tool and the upload web page)
 * load a workbook sheet with `header=None, dtype=object`, scan every cell in
 * row-major order, and for every cell whose text equals the item name pull
 * out the numeric cells below it (when it sits in row 0) and to its right
 * (when it sits in column 0).  This module holds the cell model, the
 * declarative description of the result, the scanning loop the two front
 * ends share, and the facts proved about it.
 */
module Extraction {

  /** The IEEE-754 bit pattern of a float cell; its value is never inspected. */
  datatype FloatBits = FloatBits(bits: bv64)

  /**
   * One worksheet cell as pandas hands it over with dtype=object.
   * `Missing` is everything `dropna` removes (None, NaN, NaT), so a `Float`
   * here is never NaN.  `Other` stands for dates, times, error values and
   * any other object type.
   */
  datatype Cell =
    | Int(i: int)
    | Float(f: FloatBits)
    | Bool(b: bool)
    | Text(s: string)
    | Missing
    | Other(tag: nat)

  /**
   * `isinstance(val, (int, float))`.  Python's `bool` is a subclass of
   * `int`, so True and False pass the test as well.
   */
  predicate IsNumber(c: Cell) {
    c.Int? || c.Float? || c.Bool?
  }

  /** The complement of what `dropna` removes. */
  predicate IsPresent(c: Cell) {
    !c.Missing?
  }

  /** A loaded sheet: `rows` are the DataFrame's rows, all `width` cells long. */
  datatype RawFrame = RawFrame(rows: seq<seq<Cell>>, width: nat)

  /** A DataFrame is always rectangular: `df.shape == (|rows|, width)`. */
  type Frame = f: RawFrame | forall r :: 0 <= r < |f.rows| ==> |f.rows[r]| == f.width
    witness RawFrame([], 0)

  /** What `pd.read_excel` produced: a frame, or the text of the exception it raised. */
  datatype Loaded = Sheet(df: Frame) | LoadError(message: string)

  // ---------------------------------------------------------------------------
  // Filtering a series
  // ---------------------------------------------------------------------------

  /** The elements of `s` that satisfy `keep`, in their original order. */
  function Keep(s: seq<Cell>, keep: Cell -> bool): seq<Cell>
  {
    if s == [] then [] else Keep(s[..|s| - 1], keep) + (if keep(s[|s| - 1]) then [s[|s| - 1]] else [])
  }

  /** `Series.dropna()`. */
  function DropNa(s: seq<Cell>): seq<Cell>
  {
    Keep(s, IsPresent)
  }

  /** A value is in the filtered series exactly when it is in the series and passes the filter. */
  lemma {:induction false} KeepMember(s: seq<Cell>, keep: Cell -> bool, v: Cell)
    ensures v in Keep(s, keep) <==> v in s && keep(v)
  {
    if s != [] {
      var init := s[..|s| - 1];
      KeepMember(init, keep, v);
      assert s == init + [s[|s| - 1]];
    }
  }

  /** Filtering commutes with concatenation: the order of the kept values is the order of the series. */
  lemma {:induction false} KeepAppend(a: seq<Cell>, b: seq<Cell>, keep: Cell -> bool)
    ensures Keep(a + b, keep) == Keep(a, keep) + Keep(b, keep)
  {
    if b == [] {
      assert a + b == a;
    } else {
      var init := b[..|b| - 1];
      KeepAppend(a, init, keep);
      assert (a + b)[..|a + b| - 1] == a + init;
    }
  }

  /** Filtering twice keeps what passes both filters. */
  lemma {:induction false} KeepKeep(s: seq<Cell>, first: Cell -> bool, second: Cell -> bool, both: Cell -> bool)
    requires forall c :: both(c) == (first(c) && second(c))
    ensures Keep(Keep(s, first), second) == Keep(s, both)
  {
    if s != [] {
      var init := s[..|s| - 1];
      var last := s[|s| - 1];
      KeepKeep(init, first, second, both);
      var head := Keep(init, first);
      var tail := if first(last) then [last] else [];
      KeepAppend(head, tail, second);
    }
  }

  /** The series never grows under a filter. */
  lemma {:induction false} KeepLength(s: seq<Cell>, keep: Cell -> bool)
    ensures |Keep(s, keep)| <= |s|
  {
    if s != [] {
      KeepLength(s[..|s| - 1], keep);
    }
  }

  /** A single cell is kept exactly when it passes the filter. */
  lemma KeepOne(c: Cell, keep: Cell -> bool)
    ensures Keep([c], keep) == if keep(c) then [c] else []
  {
    assert [c][..0] == [];
  }

  // ---------------------------------------------------------------------------
  // The runs pulled out for one header cell
  // ---------------------------------------------------------------------------

  /** `df.iloc[1:, col]`: the cells of column `col` below the header row, top to bottom. */
  function BelowHeader(df: Frame, col: nat): seq<Cell>
    requires 0 < |df.rows| && col < df.width
  {
    seq(|df.rows| - 1, i requires 0 <= i < |df.rows| - 1 => df.rows[i + 1][col])
  }

  /** `df.iloc[row, 1:]`: the cells of row `row` right of column 0, left to right. */
  function RightOfHeader(df: Frame, row: nat): seq<Cell>
    requires row < |df.rows| && 0 < df.width
  {
    df.rows[row][1..]
  }

  /** The values the inner loop appends for one series: `dropna`, then the `isinstance` test. */
  function Collected(series: seq<Cell>): seq<Cell>
  {
    Keep(DropNa(series), IsNumber)
  }

  /**
   * Because NaN is modelled as `Missing` and not as a `Float`, the numeric
   * test alone already excludes what `dropna` removes.
   */
  lemma CollectedIsNumbers(series: seq<Cell>)
    ensures Collected(series) == Keep(series, IsNumber)
  {
    KeepKeep(series, IsPresent, IsNumber, IsNumber);
  }

  /** A value is collected from a series exactly when it occurs in it and is an int, float or bool. */
  lemma CollectedMember(series: seq<Cell>, v: Cell)
    ensures v in Collected(series) <==> v in series && IsNumber(v)
  {
    CollectedIsNumbers(series);
    KeepMember(series, IsNumber, v);
  }

  /** The run appended for a column-header match at (0, col). */
  function ColumnRun(df: Frame, col: nat): seq<Cell>
    requires 0 < |df.rows| && col < df.width
  {
    Collected(BelowHeader(df, col))
  }

  /** The run appended for a row-header match at (row, 0). */
  function RowRun(df: Frame, row: nat): seq<Cell>
    requires row < |df.rows| && 0 < df.width
  {
    Collected(RightOfHeader(df, row))
  }

  /**
   * The column run holds exactly the int, float and bool cells of the column
   * from row 1 down: the header cell itself is never part of it.
   */
  lemma ColumnRunMember(df: Frame, col: nat, v: Cell)
    requires 0 < |df.rows| && col < df.width
    ensures v in ColumnRun(df, col) <==> IsNumber(v) && exists i :: 1 <= i < |df.rows| && df.rows[i][col] == v
  {
    var below := BelowHeader(df, col);
    CollectedMember(below, v);
    if v in below {
      var k :| 0 <= k < |below| && below[k] == v;
      assert df.rows[k + 1][col] == v;
    }
    if exists i :: 1 <= i < |df.rows| && df.rows[i][col] == v {
      var i :| 1 <= i < |df.rows| && df.rows[i][col] == v;
      assert below[i - 1] == v;
    }
  }

  /**
   * The row run holds exactly the int, float and bool cells of the row from
   * column 1 rightwards: the header cell itself is never part of it.
   */
  lemma RowRunMember(df: Frame, row: nat, v: Cell)
    requires row < |df.rows| && 0 < df.width
    ensures v in RowRun(df, row) <==> IsNumber(v) && exists j :: 1 <= j < df.width && df.rows[row][j] == v
  {
    var right := RightOfHeader(df, row);
    CollectedMember(right, v);
    if v in right {
      var k :| 0 <= k < |right| && right[k] == v;
      assert df.rows[row][k + 1] == v;
    }
    if exists j :: 1 <= j < df.width && df.rows[row][j] == v {
      var j :| 1 <= j < df.width && df.rows[row][j] == v;
      assert right[j - 1] == v;
    }
  }

  /**
   * What a matching cell at (row, col) adds: the column run when it is in
   * row 0, followed by the row run when it is in column 0.  A cell in
   * neither header line adds nothing even when it matches.
   */
  function HeaderRuns(df: Frame, row: nat, col: nat): seq<Cell>
    requires row < |df.rows| && col < df.width
  {
    (if row == 0 then ColumnRun(df, col) else []) + (if col == 0 then RowRun(df, row) else [])
  }

  /** `str(cell) == item_name`, with `str` given as `render`. */
  predicate IsMatch(df: Frame, item: string, render: Cell -> string, row: nat, col: nat)
    requires row < |df.rows| && col < df.width
  {
    render(df.rows[row][col]) == item
  }

  /** What visiting the cell at (row, col) appends. */
  function Contribution(df: Frame, item: string, render: Cell -> string, row: nat, col: nat): seq<Cell>
    requires row < |df.rows| && col < df.width
  {
    if IsMatch(df, item, render, row, col) then HeaderRuns(df, row, col) else []
  }

  /** (row, col) is a cell of a `rows` x `cols` grid, the end of one of its rows, or the end of the grid. */
  predicate InGrid(rows: nat, cols: nat, row: nat, col: nat) {
    (row < rows && col <= cols) || (row == rows && col == 0)
  }

  /** (r, c) comes before (row, col) in row-major order. */
  predicate Precedes(r: nat, c: nat, row: nat, col: nat) {
    r < row || (r == row && c < col)
  }

  /**
   * The concatenation of `runs(r, c)` over the positions (r, c) of a
   * `rows` x `cols` grid that come before (row, col), in row-major order:
   * everything a row-major scan has appended when it reaches (row, col).
   */
  function RowMajor(rows: nat, cols: nat, runs: (nat, nat) -> seq<Cell>, row: nat, col: nat): seq<Cell>
    requires InGrid(rows, cols, row, col)
    decreases row, col
  {
    if col > 0 then RowMajor(rows, cols, runs, row, col - 1) + runs(row, col - 1)
    else if row > 0 then RowMajor(rows, cols, runs, row - 1, cols)
    else []
  }

  /** The contribution of every cell of the frame, as a function of its position. */
  function CellRuns(df: Frame, item: string, render: Cell -> string): (nat, nat) -> seq<Cell>
  {
    (r: nat, c: nat) => if r < |df.rows| && c < df.width then Contribution(df, item, render, r, c) else []
  }

  /** The whole result for a loaded frame: the contributions of all its cells in row-major order. */
  function Extract(df: Frame, item: string, render: Cell -> string): seq<Cell>
  {
    RowMajor(|df.rows|, df.width, CellRuns(df, item, render), |df.rows|, 0)
  }

  /** The result of `extract_values_from_file` for one file: empty when loading failed. */
  function FileValues(loaded: Loaded, item: string, render: Cell -> string): seq<Cell>
  {
    match loaded
    case Sheet(df) => Extract(df, item, render)
    case LoadError(_) => []
  }

  // ---------------------------------------------------------------------------
  // The scanning loop
  // ---------------------------------------------------------------------------

  /** `for val in series: if isinstance(val, (int, float)): values.append(val)`. */
  method AppendNumbers(values: seq<Cell>, series: seq<Cell>) returns (out: seq<Cell>)
    ensures out == values + Keep(series, IsNumber)
  {
    out := values;
    for i := 0 to |series|
      invariant out == values + Keep(series[..i], IsNumber)
    {
      var val := series[i];
      assert series[..i + 1][..i] == series[..i];
      if IsNumber(val) {
        out := out + [val];
      }
    }
    assert series[..|series|] == series;
  }

  /**
   * The two position tests applied to a matching cell: first the column
   * below it when it is in row 0, then the row right of it when it is in
   * column 0.
   */
  method AppendHeaderRuns(values: seq<Cell>, df: Frame, rowIdx: nat, colIdx: nat) returns (out: seq<Cell>)
    requires rowIdx < |df.rows| && colIdx < df.width
    ensures out == values + HeaderRuns(df, rowIdx, colIdx)
  {
    out := values;
    ghost var columnPart: seq<Cell> := [];
    if rowIdx == 0 {
      var columnValues := DropNa(BelowHeader(df, colIdx));
      out := AppendNumbers(out, columnValues);
      columnPart := ColumnRun(df, colIdx);
    }
    ghost var mid := out;
    ghost var rowPart: seq<Cell> := [];
    if colIdx == 0 {
      var rowValues := DropNa(RightOfHeader(df, rowIdx));
      out := AppendNumbers(out, rowValues);
      rowPart := RowRun(df, rowIdx);
    }
    assert out == (values + columnPart) + rowPart;
  }

  /**
   * The nested scan of `extract_values_from_file` on a loaded frame: it
   * visits every cell in row-major order and appends the runs of every
   * header match.
   */
  method ScanFrame(df: Frame, itemName: string, render: Cell -> string) returns (values: seq<Cell>)
    ensures values == Extract(df, itemName, render)
  {
    values := [];
    for rowIdx := 0 to |df.rows|
      invariant values == RowMajor(|df.rows|, df.width, CellRuns(df, itemName, render), rowIdx, 0)
    {
      for colIdx := 0 to df.width
        invariant values == RowMajor(|df.rows|, df.width, CellRuns(df, itemName, render), rowIdx, colIdx)
      {
        var cell := df.rows[rowIdx][colIdx];
        if render(cell) == itemName {
          values := AppendHeaderRuns(values, df, rowIdx, colIdx);
        } else {
          assert values + [] == values;
        }
      }
    }
  }

  // ---------------------------------------------------------------------------
  // What the result is
  // ---------------------------------------------------------------------------

  /** What the scan appends up to one position is a prefix of what it appends up to any later one. */
  lemma {:induction false} RowMajorPrefix(rows: nat, cols: nat, runs: (nat, nat) -> seq<Cell>, r: nat, c: nat, row: nat, col: nat)
    requires InGrid(rows, cols, r, c) && InGrid(rows, cols, row, col)
    requires Precedes(r, c, row, col) || (r == row && c == col)
    ensures RowMajor(rows, cols, runs, r, c) <= RowMajor(rows, cols, runs, row, col)
    decreases row, col
  {
    if r == row && c == col {
    } else if col > 0 {
      RowMajorPrefix(rows, cols, runs, r, c, row, col - 1);
    } else {
      RowMajorPrefix(rows, cols, runs, r, c, row - 1, cols);
    }
  }

  /** Whether `v` is in the run of some position of the grid that comes before (row, col). */
  ghost predicate RunBefore(rows: nat, cols: nat, runs: (nat, nat) -> seq<Cell>, row: nat, col: nat, v: Cell) {
    exists r, c :: 0 <= r < rows && 0 <= c < cols && Precedes(r, c, row, col) && v in runs(r, c)
  }

  /** A value is appended before (row, col) exactly when the run of an earlier position holds it. */
  lemma {:induction false} RowMajorMember(rows: nat, cols: nat, runs: (nat, nat) -> seq<Cell>, row: nat, col: nat, v: Cell)
    requires InGrid(rows, cols, row, col)
    ensures v in RowMajor(rows, cols, runs, row, col) <==> RunBefore(rows, cols, runs, row, col, v)
    decreases row, col
  {
    if col > 0 {
      RowMajorMember(rows, cols, runs, row, col - 1, v);
      if v in runs(row, col - 1) {
        assert Precedes(row, col - 1, row, col);
      }
      if RunBefore(rows, cols, runs, row, col, v) {
        var r, c :| 0 <= r < rows && 0 <= c < cols && Precedes(r, c, row, col) && v in runs(r, c);
        if Precedes(r, c, row, col - 1) {
          assert RunBefore(rows, cols, runs, row, col - 1, v);
        }
      }
      if RunBefore(rows, cols, runs, row, col - 1, v) {
        var r, c :| 0 <= r < rows && 0 <= c < cols && Precedes(r, c, row, col - 1) && v in runs(r, c);
        assert Precedes(r, c, row, col);
      }
    } else if row > 0 {
      RowMajorMember(rows, cols, runs, row - 1, cols, v);
      if RunBefore(rows, cols, runs, row, 0, v) {
        var r, c :| 0 <= r < rows && 0 <= c < cols && Precedes(r, c, row, 0) && v in runs(r, c);
        assert Precedes(r, c, row - 1, cols);
      }
      if RunBefore(rows, cols, runs, row - 1, cols, v) {
        var r, c :| 0 <= r < rows && 0 <= c < cols && Precedes(r, c, row - 1, cols) && v in runs(r, c);
        assert Precedes(r, c, row, 0);
      }
    }
  }

  /** When every position's run is empty, nothing is appended. */
  lemma {:induction false} RowMajorAllEmpty(rows: nat, cols: nat, runs: (nat, nat) -> seq<Cell>, row: nat, col: nat)
    requires InGrid(rows, cols, row, col)
    requires forall r, c :: 0 <= r < rows && 0 <= c < cols ==> runs(r, c) == []
    ensures RowMajor(rows, cols, runs, row, col) == []
    decreases row, col
  {
    if col > 0 {
      RowMajorAllEmpty(rows, cols, runs, row, col - 1);
    } else if row > 0 {
      RowMajorAllEmpty(rows, cols, runs, row - 1, cols);
    }
  }

  /** A row whose positions after column 0 have empty runs adds only the run of its first position. */
  lemma {:induction false} RowMajorFirstOnly(rows: nat, cols: nat, runs: (nat, nat) -> seq<Cell>, row: nat, m: nat)
    requires row < rows && 0 < m <= cols
    requires forall c :: 0 < c < cols ==> runs(row, c) == []
    ensures RowMajor(rows, cols, runs, row, m) == RowMajor(rows, cols, runs, row, 0) + runs(row, 0)
  {
    if m > 1 {
      RowMajorFirstOnly(rows, cols, runs, row, m - 1);
      assert runs(row, m - 1) == [];
    }
  }

  /** A matching cell only ever adds int, float or bool cells. */
  lemma ContributionNumbers(df: Frame, item: string, render: Cell -> string, row: nat, col: nat, v: Cell)
    requires row < |df.rows| && col < df.width
    requires v in Contribution(df, item, render, row, col)
    ensures IsNumber(v)
  {
    if row == 0 && v in ColumnRun(df, col) {
      CollectedMember(BelowHeader(df, col), v);
    } else {
      CollectedMember(RightOfHeader(df, row), v);
    }
  }

  /**
   * A value is in the result exactly when some matching cell in row 0 has it
   * below, or some matching cell in column 0 has it to the right.
   */
  lemma ExtractMember(df: Frame, item: string, render: Cell -> string, v: Cell)
    ensures v in Extract(df, item, render) <==>
      exists r, c :: 0 <= r < |df.rows| && 0 <= c < df.width && IsMatch(df, item, render, r, c) &&
        ((r == 0 && v in ColumnRun(df, c)) || (c == 0 && v in RowRun(df, r)))
  {
    var runs := CellRuns(df, item, render);
    RowMajorMember(|df.rows|, df.width, runs, |df.rows|, 0, v);
    if v in Extract(df, item, render) {
      var r, c :| 0 <= r < |df.rows| && 0 <= c < df.width && Precedes(r, c, |df.rows|, 0) && v in runs(r, c);
      CellRunsMember(df, item, render, r, c, v);
    }
    if exists r, c :: 0 <= r < |df.rows| && 0 <= c < df.width && IsMatch(df, item, render, r, c) &&
        ((r == 0 && v in ColumnRun(df, c)) || (c == 0 && v in RowRun(df, r))) {
      var r, c :| 0 <= r < |df.rows| && 0 <= c < df.width && IsMatch(df, item, render, r, c) &&
        ((r == 0 && v in ColumnRun(df, c)) || (c == 0 && v in RowRun(df, r)));
      CellRunsMember(df, item, render, r, c, v);
      assert Precedes(r, c, |df.rows|, 0);
    }
  }

  /** What one cell contributes: its column's run when it is in row 0, its row's run when it is in column 0. */
  lemma CellRunsMember(df: Frame, item: string, render: Cell -> string, r: nat, c: nat, v: Cell)
    requires r < |df.rows| && c < df.width
    ensures v in CellRuns(df, item, render)(r, c) <==>
      IsMatch(df, item, render, r, c) && ((r == 0 && v in ColumnRun(df, c)) || (c == 0 && v in RowRun(df, r)))
  {
  }

  /** Every returned value is an int, float or bool cell; text, missing and other cells never appear. */
  lemma ExtractNumbers(df: Frame, item: string, render: Cell -> string)
    ensures forall v :: v in Extract(df, item, render) ==> IsNumber(v)
  {
    forall v | v in Extract(df, item, render)
      ensures IsNumber(v)
    {
      ExtractMember(df, item, render, v);
      var r, c :| 0 <= r < |df.rows| && 0 <= c < df.width && IsMatch(df, item, render, r, c) &&
        ((r == 0 && v in ColumnRun(df, c)) || (c == 0 && v in RowRun(df, r)));
      ContributionNumbers(df, item, render, r, c, v);
    }
  }

  /** A frame without a cell whose text equals the item gives an empty result. */
  lemma NoMatchNoValues(df: Frame, item: string, render: Cell -> string)
    requires forall r, c :: 0 <= r < |df.rows| && 0 <= c < df.width ==> render(df.rows[r][c]) != item
    ensures Extract(df, item, render) == []
  {
    var runs := CellRuns(df, item, render);
    forall r, c | 0 <= r < |df.rows| && 0 <= c < df.width
      ensures runs(r, c) == []
    {
      assert !IsMatch(df, item, render, r, c);
    }
    RowMajorAllEmpty(|df.rows|, df.width, runs, |df.rows|, 0);
  }

  /**
   * A match at (0, 0) fires both branches, column run first, and these
   * values open the result, with nothing removed as a duplicate.
   */
  lemma CornerMatchOpensResult(df: Frame, item: string, render: Cell -> string)
    requires 0 < |df.rows| && 0 < df.width
    requires IsMatch(df, item, render, 0, 0)
    ensures ColumnRun(df, 0) + RowRun(df, 0) <= Extract(df, item, render)
  {
    var runs := CellRuns(df, item, render);
    assert runs(0, 0) == ColumnRun(df, 0) + RowRun(df, 0);
    assert RowMajor(|df.rows|, df.width, runs, 0, 1) == [] + runs(0, 0);
    RowMajorPrefix(|df.rows|, df.width, runs, 0, 1, |df.rows|, 0);
  }

  /**
   * A row below the header row adds exactly its row run when its column-0
   * cell matches, and nothing otherwise: a match with row != 0 and col != 0
   * contributes nothing.
   */
  lemma BodyRowAddsRowRun(df: Frame, item: string, render: Cell -> string, row: nat)
    requires 0 < row < |df.rows| && 0 < df.width
    ensures RowMajor(|df.rows|, df.width, CellRuns(df, item, render), row + 1, 0)
         == RowMajor(|df.rows|, df.width, CellRuns(df, item, render), row, 0)
            + (if IsMatch(df, item, render, row, 0) then RowRun(df, row) else [])
  {
    var runs := CellRuns(df, item, render);
    BodyCellsQuiet(df, item, render, row);
    RowMajorFirstOnly(|df.rows|, df.width, runs, row, df.width);
    FirstCellRun(df, item, render, row);
  }

  lemma BodyCellsQuiet(df: Frame, item: string, render: Cell -> string, row: nat)
    requires 0 < row < |df.rows|
    ensures forall c :: 0 < c < df.width ==> CellRuns(df, item, render)(row, c) == []
  {
    forall c | 0 < c < df.width
      ensures CellRuns(df, item, render)(row, c) == []
    {
      assert HeaderRuns(df, row, c) == [] + [];
    }
  }

  lemma FirstCellRun(df: Frame, item: string, render: Cell -> string, row: nat)
    requires 0 < row < |df.rows| && 0 < df.width
    ensures CellRuns(df, item, render)(row, 0) == if IsMatch(df, item, render, row, 0) then RowRun(df, row) else []
  {
    assert HeaderRuns(df, row, 0) == [] + RowRun(df, row);
  }

  /**
   * When no cell of column 0 below the header row matches, the rows below
   * the header row add nothing: the result is what the header row adds.
   */
  lemma {:induction false} BodyRowsQuiet(df: Frame, item: string, render: Cell -> string, row: nat)
    requires 0 < row <= |df.rows| && 0 < df.width
    requires forall r :: 0 < r < |df.rows| ==> !IsMatch(df, item, render, r, 0)
    ensures RowMajor(|df.rows|, df.width, CellRuns(df, item, render), row, 0)
         == RowMajor(|df.rows|, df.width, CellRuns(df, item, render), 1, 0)
  {
    if row > 1 {
      BodyRowsQuiet(df, item, render, row - 1);
      BodyRowAddsRowRun(df, item, render, row - 1);
    }
  }

  // ---------------------------------------------------------------------------
  // Records of a batch
  // ---------------------------------------------------------------------------

  /** One output row: the file it came from, the item searched for, and the value. */
  datatype Record = Record(file: string, item: string, value: Cell)

  /** A source handed to the batch loop: the name its records carry and what loading it gave. */
  datatype Source = Source(name: string, content: Loaded)

  /** `{'file': name, 'item': item, 'value': v}` for every `v` of `vals`, in order. */
  function Tagged(name: string, item: string, vals: seq<Cell>): (recs: seq<Record>)
    ensures |recs| == |vals|
    ensures forall i :: 0 <= i < |vals| ==> recs[i] == Record(name, item, vals[i])
  {
    seq(|vals|, i requires 0 <= i < |vals| => Record(name, item, vals[i]))
  }

  /** `extract_values_from_file` for a fixed item, as a function of what loading gave. */
  function ValuesOf(item: string, render: Cell -> string): Loaded -> seq<Cell>
  {
    loaded => FileValues(loaded, item, render)
  }

  /**
   * The records of a batch: every file's values, tagged with the file's
   * label (`nameOf` of its name) and the item, file after file.
   */
  function Records(files: seq<Source>, item: string, nameOf: string -> string, valuesOf: Loaded -> seq<Cell>): seq<Record>
  {
    if files == [] then []
    else
      var last := files[|files| - 1];
      Records(files[..|files| - 1], item, nameOf, valuesOf) + Tagged(nameOf(last.name), item, valuesOf(last.content))
  }

  /** The total number of values extracted from the files. */
  function ValueCount(files: seq<Source>, valuesOf: Loaded -> seq<Cell>): nat
  {
    if files == [] then 0
    else ValueCount(files[..|files| - 1], valuesOf) + |valuesOf(files[|files| - 1].content)|
  }

  /** The records of consecutive groups of files follow one another. */
  lemma {:induction false} RecordsAppend(a: seq<Source>, b: seq<Source>, item: string,
                                         nameOf: string -> string, valuesOf: Loaded -> seq<Cell>)
    ensures Records(a + b, item, nameOf, valuesOf) == Records(a, item, nameOf, valuesOf) + Records(b, item, nameOf, valuesOf)
  {
    if b == [] {
      assert a + b == a;
    } else {
      var init := b[..|b| - 1];
      var last := b[|b| - 1];
      var tail := Tagged(nameOf(last.name), item, valuesOf(last.content));
      RecordsAppend(a, init, item, nameOf, valuesOf);
      assert (a + b)[..|a + b| - 1] == a + init;
      assert Records(a + b, item, nameOf, valuesOf) == Records(a + init, item, nameOf, valuesOf) + tail;
      assert Records(b, item, nameOf, valuesOf) == Records(init, item, nameOf, valuesOf) + tail;
    }
  }

  /** There is one record per extracted value. */
  lemma {:induction false} RecordsCount(files: seq<Source>, item: string, nameOf: string -> string, valuesOf: Loaded -> seq<Cell>)
    ensures |Records(files, item, nameOf, valuesOf)| == ValueCount(files, valuesOf)
  {
    if files != [] {
      RecordsCount(files[..|files| - 1], item, nameOf, valuesOf);
    }
  }

  /** A file that failed to load contributes no records; the others are unaffected. */
  lemma FailedFileAddsNothing(before: seq<Source>, failed: Source, after: seq<Source>, item: string,
                              nameOf: string -> string, render: Cell -> string)
    requires failed.content.LoadError?
    ensures Records(before + [failed] + after, item, nameOf, ValuesOf(item, render))
         == Records(before + after, item, nameOf, ValuesOf(item, render))
  {
    var valuesOf := ValuesOf(item, render);
    RecordsAppend(before + [failed], after, item, nameOf, valuesOf);
    RecordsAppend(before, [failed], item, nameOf, valuesOf);
    RecordsAppend(before, after, item, nameOf, valuesOf);
    assert Records([failed], item, nameOf, valuesOf) == [];
    assert Records(before + [failed], item, nameOf, valuesOf) == Records(before, item, nameOf, valuesOf);
  }

  /**
   * Every record carries the item and the label of one of the files, and its
   * value is one that file's extraction returned.
   */
  lemma {:induction false} RecordsFromFiles(files: seq<Source>, item: string, nameOf: string -> string,
                                            valuesOf: Loaded -> seq<Cell>, rec: Record)
    requires rec in Records(files, item, nameOf, valuesOf)
    ensures rec.item == item
    ensures exists i :: 0 <= i < |files| && rec.file == nameOf(files[i].name) && rec.value in valuesOf(files[i].content)
  {
    var init := files[..|files| - 1];
    var last := files[|files| - 1];
    if rec in Records(init, item, nameOf, valuesOf) {
      RecordsFromFiles(init, item, nameOf, valuesOf, rec);
      var i :| 0 <= i < |init| && rec.file == nameOf(init[i].name) && rec.value in valuesOf(init[i].content);
      assert files[i] == init[i];
    } else {
      var vals := valuesOf(last.content);
      var k :| 0 <= k < |vals| && Tagged(nameOf(last.name), item, vals)[k] == rec;
      assert rec.value == vals[k];
    }
  }

  /** Two labellings that agree on every file's name give the same records. */
  lemma {:induction false} RecordsSameLabels(files: seq<Source>, item: string, nameOf: string -> string,
                                             otherNameOf: string -> string, valuesOf: Loaded -> seq<Cell>)
    requires forall i :: 0 <= i < |files| ==> nameOf(files[i].name) == otherNameOf(files[i].name)
    ensures Records(files, item, nameOf, valuesOf) == Records(files, item, otherNameOf, valuesOf)
  {
    if files != [] {
      RecordsSameLabels(files[..|files| - 1], item, nameOf, otherNameOf, valuesOf);
    }
  }

  // ---------------------------------------------------------------------------
  // The batch loop
  // ---------------------------------------------------------------------------

  /**
   * `for v in vals: results.append({'file': name, 'item': item, 'value': v})`.
   */
  method AppendRecords(results: seq<Record>, name: string, item: string, vals: seq<Cell>) returns (out: seq<Record>)
    ensures out == results + Tagged(name, item, vals)
  {
    out := results;
    for j := 0 to |vals|
      invariant out == results + Tagged(name, item, vals[..j])
    {
      out := out + [Record(name, item, vals[j])];
    }
    assert vals[..|vals|] == vals;
  }

  // ---------------------------------------------------------------------------
  // A worked example
  // ---------------------------------------------------------------------------

  /** A sheet whose header row holds the label "sales" in column 2, above 10, "x", 20 and an empty cell. */
  const SalesSheet: Frame := RawFrame([[Text("a"), Text("b"), Text("sales")],
                                       [Missing, Missing, Int(10)],
                                       [Missing, Missing, Text("x")],
                                       [Missing, Missing, Int(20)],
                                       [Missing, Missing, Missing]], 3)

  /** The text and the empty cell below the label are dropped; 10 and 20 stay in order. */
  lemma SalesColumnRun()
    ensures ColumnRun(SalesSheet, 2) == [Int(10), Int(20)]
  {
    var a, b, c, d := [Int(10)], [Text("x")], [Int(20)], [Missing];
    KeepOne(Int(10), IsNumber);
    KeepOne(Text("x"), IsNumber);
    KeepOne(Int(20), IsNumber);
    KeepOne(Missing, IsNumber);
    KeepAppend(a, b, IsNumber);
    KeepAppend(a + b, c, IsNumber);
    KeepAppend(a + b + c, d, IsNumber);
    assert BelowHeader(SalesSheet, 2) == a + b + c + d;
    CollectedIsNumbers(a + b + c + d);
  }

  /**
   * A rendering under which the label cell, and no other cell, shows as
   * "sales"; Python's `str()` is one.
   */
  ghost predicate ShowsSalesOnlyForLabel(render: Cell -> string) {
    render(Text("sales")) == "sales" && forall c :: render(c) == "sales" ==> c == Text("sales")
  }

  lemma SalesHeaderRow(render: Cell -> string)
    requires ShowsSalesOnlyForLabel(render)
    ensures RowMajor(5, 3, CellRuns(SalesSheet, "sales", render), 1, 0) == [Int(10), Int(20)]
  {
    var runs := CellRuns(SalesSheet, "sales", render);
    SalesColumnRun();
    assert runs(0, 0) == [] && runs(0, 1) == [];
    assert runs(0, 2) == ColumnRun(SalesSheet, 2);
  }

  /** Extracting "sales" from the example sheet gives exactly [10, 20] under any such rendering. */
  lemma SalesExample(render: Cell -> string)
    requires ShowsSalesOnlyForLabel(render)
    ensures Extract(SalesSheet, "sales", render) == [Int(10), Int(20)]
  {
    SalesHeaderRow(render);
    forall r | 0 < r < 5
      ensures !IsMatch(SalesSheet, "sales", render, r, 0)
    {
      assert SalesSheet.rows[r][0] == Missing;
    }
    BodyRowsQuiet(SalesSheet, "sales", render, 5);
  }
}
