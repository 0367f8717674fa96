/**
 * The playfield logic of the falling-block game: a ROWS x COLS field of
 * colour indices, the active piece, the collision test, stamping a landed
 * piece into the field, rotation, and clearing full rows.  Drawing, frame
 * timing and the random choice of the next piece are outside the model: a
 * drop tick and the piece type are inputs.
 */
module Tetris {

  const ROWS: nat := 20
  const COLS: nat := 10
  const EMPTY: int := 0

  /** A matrix of cells, row by row; the field and every shape are one. */
  type Matrix = seq<seq<int>>

  /** SHAPES[t] is the shape of piece type t (1..7); a shape cell holds 0 or t. */
  const SHAPES: seq<Matrix> := [
    [],
    [[1, 1, 1, 1]],
    [[2, 2], [2, 2]],
    [[0, 3, 0], [3, 3, 3]],
    [[4, 4, 0], [0, 4, 4]],
    [[0, 5, 5], [5, 5, 0]],
    [[6, 0, 0], [6, 6, 6]],
    [[0, 0, 7], [7, 7, 7]]
  ]

  /** `m` has `h` rows of `w` cells each. */
  predicate IsRect(m: Matrix, h: nat, w: nat) {
    |m| == h && forall r :: 0 <= r < h ==> |m[r]| == w
  }

  /** The playfield: ROWS rows of COLS cells. */
  predicate IsField(m: Matrix) {
    IsRect(m, ROWS, COLS)
  }

  /** Every cell is a colour index: EMPTY or a piece type. */
  predicate IsColours(m: Matrix) {
    forall r, c :: 0 <= r < |m| && 0 <= c < |m[r]| ==> 0 <= m[r][c] <= 7
  }

  /** `new Array(cols).fill(EMPTY)`. */
  function BlankRow(cols: nat): (row: seq<int>)
    ensures |row| == cols && forall c :: 0 <= c < cols ==> row[c] == EMPTY
  {
    seq(cols, _ => EMPTY)
  }

  /** `createMatrix(rows, cols)`: `rows` rows of `cols` empty cells. */
  method CreateMatrix(rows: nat, cols: nat) returns (matrix: Matrix)
    ensures IsRect(matrix, rows, cols)
    ensures forall r, c :: 0 <= r < rows && 0 <= c < cols ==> matrix[r][c] == EMPTY
  {
    matrix := [];
    var left: nat := rows;
    while left > 0
      invariant left <= rows && |matrix| == rows - left
      invariant forall r :: 0 <= r < |matrix| ==> matrix[r] == BlankRow(cols)
    {
      left := left - 1;
      matrix := matrix + [BlankRow(cols)];
    }
    forall r, c | 0 <= r < rows && 0 <= c < cols
      ensures matrix[r][c] == EMPTY
    {
      assert matrix[r] == BlankRow(cols);
    }
  }

  // ---------------------------------------------------------------------------
  // Pieces
  // ---------------------------------------------------------------------------

  /** The active piece: its own copy of a shape, its position (column x, row y) and its type. */
  datatype Piece = Piece(shape: Matrix, x: int, y: int, kind: int)

  /** A shape is a non-empty rectangle. */
  predicate IsShape(s: Matrix) {
    |s| > 0 && |s[0]| > 0 && IsRect(s, |s|, |s[0]|)
  }

  /** A piece has a type 1..7 and a rectangular shape whose cells are 0 or that type. */
  predicate WellFormed(p: Piece) {
    1 <= p.kind <= 7 && IsShape(p.shape) &&
    forall r, c :: 0 <= r < |p.shape| && 0 <= c < |p.shape[r]| ==> p.shape[r][c] == EMPTY || p.shape[r][c] == p.kind
  }

  /**
   * `randomPiece()` with the random draw `roll` (0..6) as input: piece type
   * roll + 1, a copy of its shape, on the top row, centred.
   */
  function SpawnPiece(roll: nat): (p: Piece)
    requires roll < 7
    ensures WellFormed(p) && p.kind == roll + 1 && p.shape == SHAPES[p.kind] && p.y == 0
    ensures 0 <= p.x && p.x + |p.shape[0]| <= COLS && |p.shape| <= 2
    ensures p.x + |p.shape[0]| / 2 == COLS / 2
  {
    var kind := roll + 1;
    var shape := SHAPES[kind];
    Piece(shape, COLS / 2 - |shape[0]| / 2, 0, kind)
  }

  // ---------------------------------------------------------------------------
  // Collision
  // ---------------------------------------------------------------------------

  /** A piece cell at column fx, row fy is off the bottom, off either side, or on an occupied cell. */
  predicate Blocked(field: Matrix, fx: int, fy: int)
    requires IsField(field)
  {
    fy >= ROWS || fx < 0 || fx >= COLS || (fy >= 0 && field[fy][fx] != EMPTY)
  }

  /** Some non-empty cell of the piece is blocked.  Cells above the top row block only off the sides. */
  predicate Collides(field: Matrix, p: Piece)
    requires IsField(field)
  {
    exists sy, sx :: 0 <= sy < |p.shape| && 0 <= sx < |p.shape[sy]| && p.shape[sy][sx] != EMPTY &&
      Blocked(field, p.x + sx, p.y + sy)
  }

  /** `collide(field, piece)`: scans the shape row by row and stops at the first blocked cell. */
  method Collide(field: Matrix, piece: Piece) returns (hit: bool)
    requires IsField(field)
    ensures hit == Collides(field, piece)
  {
    var shape, x, y := piece.shape, piece.x, piece.y;
    for sy := 0 to |shape|
      invariant forall r, c :: 0 <= r < sy && 0 <= c < |shape[r]| && shape[r][c] != EMPTY ==> !Blocked(field, x + c, y + r)
    {
      for sx := 0 to |shape[sy]|
        invariant forall c :: 0 <= c < sx && shape[sy][c] != EMPTY ==> !Blocked(field, x + c, y + sy)
      {
        if shape[sy][sx] != EMPTY {
          var fx, fy := x + sx, y + sy;
          if fy >= ROWS || fx < 0 || fx >= COLS || (fy >= 0 && field[fy][fx] != EMPTY) {
            return true;
          }
        }
      }
    }
    return false;
  }

  /** A fresh piece fits whenever the two top rows are empty where it appears. */
  lemma SpawnFits(field: Matrix, roll: nat)
    requires IsField(field) && roll < 7
    requires forall r, c :: 0 <= r < 2 && 0 <= c < COLS ==> field[r][c] == EMPTY
    ensures !Collides(field, SpawnPiece(roll))
  {
    var p := SpawnPiece(roll);
    forall sy, sx | 0 <= sy < |p.shape| && 0 <= sx < |p.shape[sy]| && p.shape[sy][sx] != EMPTY
      ensures !Blocked(field, p.x + sx, p.y + sy)
    {
      assert |p.shape[sy]| == |p.shape[0]|;
    }
  }

  // ---------------------------------------------------------------------------
  // Locking a piece into the field
  // ---------------------------------------------------------------------------

  /** A non-empty cell of the piece lies on field cell (fy, fx). */
  predicate Covers(p: Piece, fx: int, fy: int) {
    0 <= fy - p.y < |p.shape| && 0 <= fx - p.x < |p.shape[fy - p.y]| && p.shape[fy - p.y][fx - p.x] != EMPTY
  }

  /** The field with the piece's type written on every cell the piece covers; cells above the top are dropped. */
  function Merged(field: Matrix, p: Piece): (m: Matrix)
    requires IsField(field)
    ensures IsField(m)
  {
    seq(ROWS, r requires 0 <= r < ROWS =>
      seq(COLS, c requires 0 <= c < COLS => if Covers(p, c, r) then p.kind else field[r][c]))
  }

  /**
   * Merging a piece that does not collide stamps its type on every one of its
   * non-empty cells inside the field, leaves every other cell as it was, and
   * so keeps every occupied cell occupied.
   */
  lemma MergedStampsPiece(field: Matrix, p: Piece)
    requires IsField(field) && WellFormed(p) && !Collides(field, p)
    ensures forall sy, sx :: 0 <= sy < |p.shape| && 0 <= sx < |p.shape[sy]| && p.shape[sy][sx] != EMPTY && p.y + sy >= 0 ==>
      0 <= p.x + sx < COLS && p.y + sy < ROWS && Merged(field, p)[p.y + sy][p.x + sx] == p.kind
    ensures forall r, c :: 0 <= r < ROWS && 0 <= c < COLS && !Covers(p, c, r) ==> Merged(field, p)[r][c] == field[r][c]
    ensures forall r, c :: 0 <= r < ROWS && 0 <= c < COLS && field[r][c] != EMPTY ==> Merged(field, p)[r][c] != EMPTY
  {
    forall sy, sx | 0 <= sy < |p.shape| && 0 <= sx < |p.shape[sy]| && p.shape[sy][sx] != EMPTY && p.y + sy >= 0
      ensures 0 <= p.x + sx < COLS && p.y + sy < ROWS && Merged(field, p)[p.y + sy][p.x + sx] == p.kind
    {
      assert !Blocked(field, p.x + sx, p.y + sy);
      assert Covers(p, p.x + sx, p.y + sy);
    }
  }

  /** Merging a well-formed piece into a field of colour indices keeps it one. */
  lemma MergedColours(field: Matrix, p: Piece)
    requires IsField(field) && IsColours(field) && WellFormed(p)
    ensures IsColours(Merged(field, p))
  {
  }

  // ---------------------------------------------------------------------------
  // Rotation
  // ---------------------------------------------------------------------------

  /** `shape.map(row => row[i])`: column i, top to bottom. */
  function Column(m: Matrix, i: nat): (col: seq<int>)
    requires forall r :: 0 <= r < |m| ==> i < |m[r]|
    ensures |col| == |m| && forall r :: 0 <= r < |m| ==> col[r] == m[r][i]
  {
    seq(|m|, r requires 0 <= r < |m| => m[r][i])
  }

  /** `.reverse()`. */
  function Reverse(s: seq<int>): (rev: seq<int>)
    ensures |rev| == |s| && forall k :: 0 <= k < |s| ==> rev[k] == s[|s| - 1 - k]
  {
    seq(|s|, k requires 0 <= k < |s| => s[|s| - 1 - k])
  }

  /**
   * `rotate(shape)`: `shape[0].map((_, i) => shape.map(row => row[i]).reverse())`.
   * An h x w shape becomes a w x h one turned a quarter clockwise: row i of
   * the result is column i read from the bottom up.
   */
  function Rotate(shape: Matrix): (out: Matrix)
    requires IsShape(shape)
    ensures IsShape(out) && IsQuarterTurn(out, shape)
  {
    seq(|shape[0]|, i requires 0 <= i < |shape[0]| => Reverse(Column(shape, i)))
  }

  /** A rotated piece is still well formed. */
  lemma RotatedWellFormed(p: Piece)
    requires WellFormed(p)
    ensures WellFormed(p.(shape := Rotate(p.shape)))
  {
    var out := Rotate(p.shape);
    forall r, c | 0 <= r < |out| && 0 <= c < |out[r]|
      ensures out[r][c] == EMPTY || out[r][c] == p.kind
    {
      assert IsQuarterTurn(out, p.shape);
      assert out[r][c] == p.shape[|p.shape| - 1 - c][r];
    }
  }

  /** `t` is `s` turned a quarter clockwise: an h x w matrix becomes w x h and cell (i, j) of `t` is cell (h-1-j, i) of `s`. */
  predicate IsQuarterTurn(t: Matrix, s: Matrix) {
    IsShape(s) && IsRect(t, |s[0]|, |s|) &&
    forall i, j :: 0 <= i < |s[0]| && 0 <= j < |s| ==> t[i][j] == s[|s| - 1 - j][i]
  }

  /** `t` is `s` turned half around: cell (a, b) of `t` is cell (h-1-a, w-1-b) of `s`. */
  predicate IsHalfTurn(t: Matrix, s: Matrix) {
    IsShape(s) && IsRect(t, |s|, |s[0]|) &&
    forall a, b :: 0 <= a < |s| && 0 <= b < |s[0]| ==> t[a][b] == s[|s| - 1 - a][|s[0]| - 1 - b]
  }

  /** Two quarter turns make a half turn. */
  lemma QuarterTurnTwice(u: Matrix, t: Matrix, s: Matrix)
    requires IsQuarterTurn(t, s) && IsShape(t) && IsQuarterTurn(u, t)
    ensures IsHalfTurn(u, s)
  {
    var h, w := |s|, |s[0]|;
    forall a, b | 0 <= a < h && 0 <= b < w
      ensures u[a][b] == s[h - 1 - a][w - 1 - b]
    {
      assert u[a][b] == t[w - 1 - b][a];
    }
  }

  /** Two rotations are a half turn. */
  lemma HalfTurn(s: Matrix)
    requires IsShape(s)
    ensures IsHalfTurn(Rotate(Rotate(s)), s)
  {
    QuarterTurnTwice(Rotate(Rotate(s)), Rotate(s), s);
  }

  /** Two half turns give back the matrix. */
  lemma HalfTurnTwice(u: Matrix, t: Matrix, s: Matrix)
    requires IsHalfTurn(t, s) && IsHalfTurn(u, t)
    ensures u == s
  {
    var h, w := |s|, |s[0]|;
    forall a, b | 0 <= a < h && 0 <= b < w
      ensures u[a][b] == s[a][b]
    {
      HalfTurnCell(u, t, s, a, b);
    }
    forall a | 0 <= a < h
      ensures u[a] == s[a]
    {
    }
  }

  lemma HalfTurnCell(u: Matrix, t: Matrix, s: Matrix, a: nat, b: nat)
    requires IsHalfTurn(t, s) && IsHalfTurn(u, t) && a < |s| && b < |s[0]|
    ensures u[a][b] == s[a][b]
  {
    var h, w := |s|, |s[0]|;
    assert |t| == h && |t[0]| == w;
    assert u[a][b] == t[h - 1 - a][w - 1 - b];
  }

  /** Four quarter turns give back the shape. */
  lemma RotateFourTimes(s: Matrix)
    requires IsShape(s)
    ensures Rotate(Rotate(Rotate(Rotate(s)))) == s
  {
    var r2 := Rotate(Rotate(s));
    HalfTurn(s);
    HalfTurn(r2);
    HalfTurnTwice(Rotate(Rotate(r2)), r2, s);
  }

  /** The cells of a matrix, counted with multiplicity. */
  function CellsOf(m: Matrix): multiset<int>
  {
    if m == [] then multiset{} else CellsOf(m[..|m| - 1]) + multiset(m[|m| - 1])
  }

  /** The cells of the first `n` columns, counted with multiplicity. */
  function ColumnCells(m: Matrix, n: nat): multiset<int>
    requires forall r :: 0 <= r < |m| ==> n <= |m[r]|
  {
    if n == 0 then multiset{} else ColumnCells(m, n - 1) + multiset(Column(m, n - 1))
  }

  lemma {:induction false} ReverseCells(s: seq<int>)
    ensures multiset(Reverse(s)) == multiset(s)
  {
    if s != [] {
      var init := s[..|s| - 1];
      ReverseCells(init);
      assert Reverse(s) == [s[|s| - 1]] + Reverse(init);
      assert s == init + [s[|s| - 1]];
    }
  }

  /** Counting by columns: adding a last row adds its first `n` cells. */
  lemma {:induction false} ColumnCellsLastRow(m: Matrix, n: nat)
    requires |m| > 0 && forall r :: 0 <= r < |m| ==> n <= |m[r]|
    ensures ColumnCells(m, n) == ColumnCells(m[..|m| - 1], n) + multiset(m[|m| - 1][..n])
  {
    var init := m[..|m| - 1];
    var last := m[|m| - 1];
    if n > 0 {
      ColumnCellsLastRow(m, n - 1);
      assert Column(m, n - 1) == Column(init, n - 1) + [last[n - 1]];
      assert last[..n] == last[..n - 1] + [last[n - 1]];
    }
  }

  /** Counting cells by columns gives the same multiset as counting by rows. */
  lemma {:induction false} ColumnCellsAreCells(m: Matrix, w: nat)
    requires IsRect(m, |m|, w)
    ensures ColumnCells(m, w) == CellsOf(m)
  {
    if m == [] {
      ColumnCellsEmpty(m, w);
    } else {
      var init := m[..|m| - 1];
      ColumnCellsLastRow(m, w);
      ColumnCellsAreCells(init, w);
      assert m[|m| - 1][..w] == m[|m| - 1];
    }
  }

  lemma {:induction false} ColumnCellsEmpty(m: Matrix, n: nat)
    requires m == []
    ensures ColumnCells(m, n) == multiset{}
  {
    if n > 0 {
      ColumnCellsEmpty(m, n - 1);
    }
  }

  /** The rows of a rotation, counted one by one, are the columns of the shape. */
  lemma {:induction false} RotatedRowCells(s: Matrix, n: nat)
    requires IsShape(s) && n <= |s[0]|
    ensures CellsOf(Rotate(s)[..n]) == ColumnCells(s, n)
  {
    if n > 0 {
      var out := Rotate(s);
      RotatedRowCells(s, n - 1);
      assert out[..n][..n - 1] == out[..n - 1];
      assert out[n - 1] == Reverse(Column(s, n - 1));
      ReverseCells(Column(s, n - 1));
    }
  }

  /** Rotation moves cells but keeps every one of them, so the number of non-empty cells is unchanged. */
  lemma RotateKeepsCells(s: Matrix)
    requires IsShape(s)
    ensures CellsOf(Rotate(s)) == CellsOf(s)
  {
    var out := Rotate(s);
    RotatedRowCells(s, |s[0]|);
    assert out[..|s[0]|] == out;
    ColumnCellsAreCells(s, |s[0]|);
  }

  // ---------------------------------------------------------------------------
  // Clearing full rows
  // ---------------------------------------------------------------------------

  /** A row without an empty cell. */
  predicate IsFull(row: seq<int>) {
    forall x :: 0 <= x < |row| ==> row[x] != EMPTY
  }

  /** The inner scan of `sweep()`: looks for an empty cell, left to right, and stops at the first. */
  method RowIsFull(row: seq<int>) returns (full: bool)
    ensures full == IsFull(row)
  {
    var x := 0;
    while x < |row|
      invariant 0 <= x <= |row|
      invariant forall k :: 0 <= k < x ==> row[k] != EMPTY
    {
      if row[x] == EMPTY {
        return false;
      }
      x := x + 1;
    }
    return true;
  }

  /** The number of full rows. */
  function FullRows(rows: Matrix): nat
  {
    if rows == [] then 0 else (if IsFull(rows[0]) then 1 else 0) + FullRows(rows[1..])
  }

  /** The rows that are not full, in their order. */
  function KeptRows(rows: Matrix): Matrix
  {
    if rows == [] then [] else (if IsFull(rows[0]) then [] else [rows[0]]) + KeptRows(rows[1..])
  }

  /** `n` empty rows. */
  function Blanks(n: nat): (b: Matrix)
    ensures |b| == n && forall r :: 0 <= r < n ==> b[r] == BlankRow(COLS)
  {
    seq(n, _ => BlankRow(COLS))
  }

  /** The field after clearing: one empty row on top for every full row, then the other rows in order. */
  function Swept(field: Matrix): Matrix
  {
    Blanks(FullRows(field)) + KeptRows(field)
  }

  /** Every row is either kept or counted as full. */
  lemma {:induction false} KeptRowsCount(rows: Matrix)
    ensures |KeptRows(rows)| + FullRows(rows) == |rows|
  {
    if rows != [] {
      KeptRowsCount(rows[1..]);
    }
  }

  /** A row is kept exactly when it is a row of the input that is not full. */
  lemma {:induction false} KeptRowsMember(rows: Matrix, row: seq<int>)
    ensures row in KeptRows(rows) <==> row in rows && !IsFull(row)
  {
    if rows != [] {
      KeptRowsMember(rows[1..], row);
      assert rows == [rows[0]] + rows[1..];
    }
  }

  /** Keeping rows commutes with concatenation: the kept rows keep their relative order. */
  lemma {:induction false} KeptRowsAppend(a: Matrix, b: Matrix)
    ensures KeptRows(a + b) == KeptRows(a) + KeptRows(b)
  {
    if a == [] {
      assert a + b == b;
    } else {
      var ab := a + b;
      var head := if IsFull(a[0]) then [] else [a[0]];
      KeptRowsAppend(a[1..], b);
      assert ab[0] == a[0] && ab[1..] == a[1..] + b;
      calc {
        KeptRows(ab);
        head + KeptRows(a[1..] + b);
        head + (KeptRows(a[1..]) + KeptRows(b));
        (head + KeptRows(a[1..])) + KeptRows(b);
      }
    }
  }

  /** Without a full row nothing is removed. */
  lemma {:induction false} KeptRowsNoneFull(rows: Matrix)
    requires forall r :: 0 <= r < |rows| ==> !IsFull(rows[r])
    ensures KeptRows(rows) == rows && FullRows(rows) == 0
  {
    if rows != [] {
      KeptRowsNoneFull(rows[1..]);
    }
  }

  /** The kept rows have the width of the input rows. */
  lemma KeptRowsWidth(rows: Matrix, w: nat)
    requires IsRect(rows, |rows|, w)
    ensures IsRect(KeptRows(rows), |KeptRows(rows)|, w)
  {
    var kept := KeptRows(rows);
    forall r | 0 <= r < |kept|
      ensures |kept[r]| == w
    {
      KeptRowsMember(rows, kept[r]);
    }
  }

  /** The kept rows hold the colours of the input rows. */
  lemma KeptRowsColours(rows: Matrix)
    requires IsColours(rows)
    ensures IsColours(KeptRows(rows))
  {
    var kept := KeptRows(rows);
    forall r, c | 0 <= r < |kept| && 0 <= c < |kept[r]|
      ensures 0 <= kept[r][c] <= 7
    {
      KeptRowsMember(rows, kept[r]);
    }
  }

  /**
   * Clearing keeps the field ROWS x COLS and its colours, leaves no full
   * row, empties the top rows, one per full row removed, and keeps the
   * other rows in their original order below them.
   */
  lemma SweptField(field: Matrix)
    requires IsField(field) && IsColours(field)
    ensures IsField(Swept(field)) && IsColours(Swept(field))
    ensures forall r :: 0 <= r < ROWS ==> !IsFull(Swept(field)[r])
    ensures forall r :: 0 <= r < FullRows(field) ==> Swept(field)[r] == BlankRow(COLS)
    ensures Swept(field)[FullRows(field)..] == KeptRows(field)
  {
    var kept := KeptRows(field);
    var lines := FullRows(field);
    KeptRowsCount(field);
    KeptRowsWidth(field, COLS);
    KeptRowsColours(field);
    var out := Swept(field);
    forall r | 0 <= r < ROWS
      ensures |out[r]| == COLS && !IsFull(out[r])
    {
      if r < lines {
        assert out[r][0] == EMPTY;
      } else {
        assert out[r] == kept[r - lines];
        KeptRowsMember(field, kept[r - lines]);
      }
    }
  }

  /** Locking a piece into the field and clearing full rows leaves a field of colour indices. */
  lemma LockedField(field: Matrix, p: Piece)
    requires IsField(field) && IsColours(field) && WellFormed(p)
    ensures IsField(Swept(Merged(field, p))) && IsColours(Swept(Merged(field, p)))
  {
    MergedColours(field, p);
    SweptField(Merged(field, p));
  }

  /** Clearing a cleared field changes nothing. */
  lemma SweptIdempotent(field: Matrix)
    requires IsField(field) && IsColours(field)
    ensures Swept(Swept(field)) == Swept(field)
  {
    SweptField(field);
    KeptRowsNoneFull(Swept(field));
  }

  /** The splice of a row out of the middle section of a three-part sequence. */
  lemma SpliceMiddle(a: Matrix, b: Matrix, c: Matrix)
    requires |b| > 0
    ensures var s := a + b + c;
      var y := |a| + |b| - 1;
      s[..y] + s[y + 1..] == a + b[..|b| - 1] + c
  {
    var s := a + b + c;
    var y := |a| + |b| - 1;
    assert s[..y] == a + b[..|b| - 1];
    assert s[y + 1..] == c;
  }

  /**
   * The field part-way through clearing, bottom-up: `lines` empty rows on
   * top, the first `m` rows of the original not yet examined, and below them
   * the rows of the rest that were not full.
   */
  function Pending(original: Matrix, m: nat, lines: nat): Matrix
    requires m <= |original|
  {
    Blanks(lines) + original[..m] + KeptRows(original[m..])
  }

  lemma PendingRow(original: Matrix, m: nat, lines: nat, y: int)
    requires m <= |original| && 0 <= y < lines + m
    ensures y < |Pending(original, m, lines)|
    ensures Pending(original, m, lines)[y] == if y < lines then BlankRow(COLS) else original[y - lines]
  {
  }

  /** A full row met during the scan is an original row not yet examined: the empty rows on top are never full. */
  lemma PendingFullRow(original: Matrix, m: nat, lines: nat, y: int)
    requires m <= |original| && 0 <= y && y + 1 <= lines + m && (m > 0 ==> y + 1 == lines + m)
    requires IsFull(Pending(original, m, lines)[y])
    ensures 0 < m && y == lines + m - 1 && IsFull(original[m - 1])
  {
    PendingRow(original, m, lines, y);
    BlankRowNotFull();
  }

  /** An empty row is never full. */
  lemma BlankRowNotFull()
    ensures !IsFull(BlankRow(COLS))
  {
    assert BlankRow(COLS)[0] == EMPTY;
  }

  /** Removing the full row just above the kept rows and adding an empty row on top. */
  lemma PendingFull(original: Matrix, m: nat, lines: nat, rows: Matrix, y: nat)
    requires 0 < m <= |original| && IsFull(original[m - 1])
    requires rows == Pending(original, m, lines) && y == lines + m - 1
    ensures [BlankRow(COLS)] + (rows[..y] + rows[y + 1..]) == Pending(original, m - 1, lines + 1)
    ensures FullRows(original[m - 1..]) == FullRows(original[m..]) + 1
  {
    SpliceMiddle(Blanks(lines), original[..m], KeptRows(original[m..]));
    assert original[..m][..m - 1] == original[..m - 1];
    assert original[m - 1..][1..] == original[m..];
    assert [BlankRow(COLS)] + Blanks(lines) == Blanks(lines + 1);
  }

  /** Passing over a row that is not full. */
  lemma PendingKept(original: Matrix, m: nat, lines: nat)
    requires 0 < m <= |original| && !IsFull(original[m - 1])
    ensures Pending(original, m, lines) == Pending(original, m - 1, lines)
    ensures FullRows(original[m - 1..]) == FullRows(original[m..])
  {
    assert original[m - 1..][1..] == original[m..];
    assert original[..m] == original[..m - 1] + [original[m - 1]];
  }

  /** With every row examined, the field is the cleared field. */
  lemma PendingDone(original: Matrix, lines: nat)
    requires lines == FullRows(original)
    ensures Pending(original, 0, lines) == Swept(original)
  {
    assert original[..0] == [] && original[0..] == original;
  }

  /**
   * The loop of `sweep()`: from the bottom row up, removes each full row and
   * puts an empty row on top, examining the same row index again; returns
   * the new rows and the number of rows removed.
   */
  method SweepRows(field: Matrix) returns (rows: Matrix, lines: nat)
    requires IsField(field)
    ensures rows == Swept(field) && lines == FullRows(field)
  {
    lines := 0;
    rows := field;
    ghost var m: nat := ROWS;
    var y: int := ROWS - 1;
    while y >= 0
      invariant -1 <= y < ROWS && m <= ROWS
      invariant lines == FullRows(field[m..])
      invariant rows == Pending(field, m, lines)
      invariant y + 1 <= lines + m && (m > 0 ==> y + 1 == lines + m)
      decreases y + 1 + m
    {
      PendingRow(field, m, lines, y);
      var full := RowIsFull(rows[y]);
      if full {
        PendingFullRow(field, m, lines, y);
        PendingFull(field, m, lines, rows, y);
        rows := rows[..y] + rows[y + 1..];
        rows := [BlankRow(COLS)] + rows;
        lines := lines + 1;
        y := y + 1;
        m := m - 1;
      } else if m > 0 {
        PendingKept(field, m, lines);
        m := m - 1;
      }
      y := y - 1;
    }
    PendingDone(field, lines);
  }

  // ---------------------------------------------------------------------------
  // The game
  // ---------------------------------------------------------------------------

  /** The keys the handler reacts to; any other key is ignored. */
  datatype Key = ArrowLeft | ArrowRight | ArrowDown | ArrowUp | OtherKey

  /** The piece as a key moves or turns it, before the collision test. */
  function Moved(p: Piece, key: Key): Piece
    requires IsShape(p.shape)
  {
    match key
    case ArrowLeft => p.(x := p.x - 1)
    case ArrowRight => p.(x := p.x + 1)
    case ArrowDown => p.(y := p.y + 1)
    case ArrowUp => p.(shape := Rotate(p.shape))
    case OtherKey => p
  }

  /** The piece after a key: the moved piece when it does not collide, the piece as it was otherwise. */
  function AfterKey(field: Matrix, p: Piece, key: Key): Piece
    requires IsField(field) && IsShape(p.shape)
  {
    var moved := Moved(p, key);
    if Collides(field, moved) then p else moved
  }

  /** A step left that succeeded is undone by a step right. */
  lemma LeftThenRight(field: Matrix, p: Piece)
    requires IsField(field) && IsShape(p.shape) && !Collides(field, p)
    ensures AfterKey(field, p, ArrowLeft) != p ==> AfterKey(field, AfterKey(field, p, ArrowLeft), ArrowRight) == p
  {
  }

  /** The state of one game: the field, the active piece, and whether the game is over. */
  class Game {
    var field: Matrix
    var piece: Piece
    var gameOver: bool

    /** The field is ROWS x COLS colour indices and the piece is well formed. */
    ghost predicate Board()
      reads this
    {
      IsField(field) && IsColours(field) && WellFormed(piece)
    }

    /** A sound board on which, while the game runs, the piece rests clear of the field. */
    ghost predicate Valid()
      reads this
    {
      Board() && (!gameOver ==> !Collides(field, piece))
    }

    /** A new game: an empty field and a first piece of type roll + 1. */
    constructor (roll: nat)
      requires roll < 7
      ensures Valid() && !gameOver && piece == SpawnPiece(roll)
      ensures forall r, c :: 0 <= r < ROWS && 0 <= c < COLS ==> field[r][c] == EMPTY
    {
      var blank := CreateMatrix(ROWS, COLS);
      field := blank;
      piece := SpawnPiece(roll);
      gameOver := false;
      SpawnFits(blank, roll);
    }

    /** `merge(field, piece)`: writes the piece's type into the field under each of its non-empty cells. */
    method Merge()
      requires Valid() && !Collides(field, piece)
      modifies this
      ensures Board()
      ensures field == Merged(old(field), piece)
      ensures piece == old(piece) && gameOver == old(gameOver)
    {
      var shape := piece.shape;
      for sy := 0 to |shape|
        invariant piece == old(piece) && gameOver == old(gameOver)
        invariant IsField(field)
        invariant forall r, c :: 0 <= r < ROWS && 0 <= c < COLS ==>
          field[r][c] == if Covers(piece, c, r) && r - piece.y < sy then piece.kind else old(field)[r][c]
      {
        var row := shape[sy];
        for sx := 0 to |row|
          invariant piece == old(piece) && gameOver == old(gameOver)
          invariant IsField(field)
          invariant forall r, c :: 0 <= r < ROWS && 0 <= c < COLS ==>
            field[r][c] == if Covers(piece, c, r) && (r - piece.y < sy || (r - piece.y == sy && c - piece.x < sx))
                           then piece.kind else old(field)[r][c]
        {
          var v := row[sx];
          if v != EMPTY {
            var fx, fy := piece.x + sx, piece.y + sy;
            assert !Blocked(old(field), fx, fy);
            if fy >= 0 {
              field := field[fy := field[fy][fx := piece.kind]];
            }
          }
        }
      }
      forall r | 0 <= r < ROWS
        ensures field[r] == Merged(old(field), piece)[r]
      {
      }
      MergedColours(old(field), piece);
    }

    /** `sweep()` on the game's field; returns the number of rows removed. */
    method Sweep() returns (lines: nat)
      requires Board()
      modifies this
      ensures Board()
      ensures field == Swept(old(field)) && lines == FullRows(old(field))
      ensures piece == old(piece) && gameOver == old(gameOver)
    {
      SweptField(field);
      field, lines := SweepRows(field);
    }

    /**
     * The key handler: Left, Right and Down shift the piece, Up turns it a
     * quarter; a shift or turn that collides is undone.  Nothing happens
     * once the game is over.
     */
    method KeyDown(key: Key)
      requires Valid()
      modifies this
      ensures Valid()
      ensures field == old(field) && gameOver == old(gameOver)
      ensures piece == if old(gameOver) then old(piece) else AfterKey(old(field), old(piece), key)
    {
      if gameOver {
        return;
      }
      match key {
        case ArrowLeft =>
          piece := piece.(x := piece.x - 1);
          var hit := Collide(field, piece);
          if hit {
            piece := piece.(x := piece.x + 1);
          }
        case ArrowRight =>
          piece := piece.(x := piece.x + 1);
          var hit := Collide(field, piece);
          if hit {
            piece := piece.(x := piece.x - 1);
          }
        case ArrowDown =>
          piece := piece.(y := piece.y + 1);
          var hit := Collide(field, piece);
          if hit {
            piece := piece.(y := piece.y - 1);
          }
        case ArrowUp =>
          var prev := piece.shape;
          RotatedWellFormed(piece);
          piece := piece.(shape := Rotate(piece.shape));
          var hit := Collide(field, piece);
          if hit {
            piece := piece.(shape := prev);
          }
        case OtherKey =>
      }
    }

    /**
     * One call of `update`.  Without a drop tick, or once the game is over,
     * nothing changes.  On a tick the piece moves down a row; if that
     * collides, the move is undone, the piece is merged into the field, full
     * rows are cleared and a new piece of type roll + 1 appears, and the game
     * is over when that new piece collides.
     */
    method Update(tick: bool, roll: nat)
      requires Valid() && roll < 7
      modifies this
      ensures Valid()
      ensures old(gameOver) || !tick ==> field == old(field) && piece == old(piece) && gameOver == old(gameOver)
      ensures !old(gameOver) && tick ==>
        var dropped := old(piece).(y := old(piece).y + 1);
        if !Collides(old(field), dropped) then
          field == old(field) && piece == dropped && !gameOver
        else
          field == Swept(Merged(old(field), old(piece))) && piece == SpawnPiece(roll) &&
          gameOver == Collides(field, piece)
    {
      if gameOver || !tick {
        return;
      }
      piece := piece.(y := piece.y + 1);
      var hit := Collide(field, piece);
      if hit {
        piece := piece.(y := piece.y - 1);
        Merge();
        var _ := Sweep();
        piece := SpawnPiece(roll);
        var over := Collide(field, piece);
        if over {
          gameOver := true;
          return;
        }
      }
    }
  }
}
