/** The map scan of the `RatInstance` constructor, as functions: the header
    `cols rows`, then `rows*cols` cell codes in row-major order; the last cell
    holding the start code decides the pixel offset that centres the maze on
    the reference screen. */
module MapParser {
  import opened Common

  /** Side of one grid cell, in pixels. */
  const CellSize := 60
  /** The reference screen the maze is centred on. */
  const ScreenWidth := 1920
  const ScreenHeight := 1080
  /** The cell code that marks the rat's starting cell. */
  const StartCell := 4

  /** The header `cols rows` is read without a check; a file too short to hold
      it leaves both to the stream's failure semantics, not covered here. */
  predicate WellFormed(f: File)
  {
    f.Opened? ==> |f.ints| >= 2
  }

  function Abs(a: int): nat
  {
    if a < 0 then -a else a
  }

  /** C++ `/` on `int`: the quotient truncated toward zero, that is, the
      quotient of the magnitudes, with the sign of the exact quotient. */
  function CDiv(a: int, b: int): (q: int)
    requires b != 0
    ensures Abs(q) == Abs(a) / Abs(b)
    ensures (a >= 0) == (b > 0) ==> q >= 0
    ensures (a >= 0) != (b > 0) ==> q <= 0
  {
    var n, d := Abs(a), Abs(b);
    if (a >= 0) == (b > 0) then n / d else -(n / d)
  }

  /** The number of cells the nested loops read: none when either side is not positive. */
  function CellCount(rows: int, cols: int): nat
  {
    Max0(rows) * Max0(cols)
  }

  /** The offset assigned when cell (i, j) holds the start code. */
  function Offset(i: int, j: int, rows: int, cols: int): (p: Point)
    ensures 2 * (p.x - (j - 1) * CellSize) + cols * CellSize == ScreenWidth
    ensures 2 * (p.y - i * CellSize) + rows * CellSize == ScreenHeight
  {
    Point((j - 1) * CellSize + CDiv(ScreenWidth - cols * CellSize, 2),
          i * CellSize + CDiv(ScreenHeight - rows * CellSize, 2))
  }

  /** Index k holds the start code and no later index does. */
  predicate IsLastStart(cells: seq<int>, k: int)
  {
    0 <= k < |cells| && cells[k] == StartCell &&
    forall k2 :: k < k2 < |cells| ==> cells[k2] != StartCell
  }

  /** The row-major index of the last cell holding the start code, if any. */
  function LastStartIndex(cells: seq<int>): (r: Option<nat>)
    ensures r.Some? ==> r.value < |cells| && cells[r.value] == StartCell
    ensures r.Some? ==> forall k :: r.value < k < |cells| ==> cells[k] != StartCell
    ensures r.None? <==> forall k :: 0 <= k < |cells| ==> cells[k] != StartCell
  {
    if |cells| == 0 then None
    else if cells[|cells| - 1] == StartCell then Some(|cells| - 1)
    else LastStartIndex(cells[..|cells| - 1])
  }

  /** The offset after scanning `cells` from the initial offset `start`. */
  function StartOffset(cells: seq<int>, rows: int, cols: int, start: Point): (p: Point)
    requires cells == [] || cols > 0
    ensures (forall k :: 0 <= k < |cells| ==> cells[k] != StartCell) ==> p == start
  {
    match LastStartIndex(cells)
    case None => start
    case Some(k) => Offset(k / cols, k % cols, rows, cols)
  }

  /** After the scan the offset is that of the last index holding the start
      code, the index read back as row k / cols and column k % cols. */
  lemma StartOffsetAtLastStart(cells: seq<int>, rows: int, cols: int, start: Point)
    requires cells == [] || cols > 0
    ensures forall k :: IsLastStart(cells, k) ==>
              StartOffset(cells, rows, cols, start) == Offset(k / cols, k % cols, rows, cols)
  {
  }

  /** Reading one more cell: a start cell moves the offset to that cell, any
      other cell leaves it. */
  lemma StartOffsetStep(cells: seq<int>, c: int, rows: int, cols: int, start: Point)
    requires cols > 0
    ensures StartOffset(cells + [c], rows, cols, start)
            == if c == StartCell then Offset(|cells| / cols, |cells| % cols, rows, cols)
               else StartOffset(cells, rows, cols, start)
  {
  }

  /** Reading cell (i, j) of the grid, at index `next` of the file: a start
      cell moves the offset to cell (i, j), any other cell leaves it. */
  lemma ScanCell(ints: seq<int>, next: int, i: int, j: int, rows: int, cols: int, start: Point)
    requires 0 <= i && 0 <= j < cols && next == 2 + i * cols + j < |ints|
    ensures StartOffset(ints[2..next + 1], rows, cols, start)
            == if ints[next] == StartCell then Offset(i, j, rows, cols)
               else StartOffset(ints[2..next], rows, cols, start)
  {
    assert ints[2..next + 1] == ints[2..next] + [ints[next]];
    StartOffsetStep(ints[2..next], ints[next], rows, cols, start);
    RowMajorDivMod(i, j, cols);
  }

  /** What the constructor's map scan yields: the offset `(xpos, ypos)` it
      leaves, starting from `start`, or the exception it throws. */
  function ParseMap(name: string, f: File, start: Point): (r: Result<Point>)
    requires WellFormed(f)
    ensures f.Unopenable? ==> r == Failure(InvalidArgument("Failed to open file: " + name))
    ensures f.Opened? ==> (r.Failure? <==> |f.ints| - 2 < CellCount(f.ints[1], f.ints[0]))
    ensures f.Opened? && r.Failure? ==> r.error == InvalidArgument("Invalid cell value in file: " + name)
  {
    match f
    case Unopenable => Failure(InvalidArgument("Failed to open file: " + name))
    case Opened(ints) =>
      var cols, rows := ints[0], ints[1];
      var n := CellCount(rows, cols);
      if |ints| - 2 < n then Failure(InvalidArgument("Invalid cell value in file: " + name))
      else Success(StartOffset(ints[2..2 + n], rows, cols, start))
  }

  /** The cell in row i, column j of the grid that follows the header. */
  function Cell(ints: seq<int>, i: int, j: int): int
    requires |ints| >= 2 && 0 <= i < ints[1] && 0 <= j < ints[0]
    requires |ints| - 2 >= CellCount(ints[1], ints[0])
  {
    RowMajorBound(i, j, ints[1], ints[0]);
    ints[2 + i * ints[0] + j]
  }

  lemma MulMono(a: int, b: int, c: int)
    requires a <= b && 0 <= c
    ensures a * c <= b * c
  {
  }

  /** Cell (i, j) of a rows-by-cols grid lies at a row-major index inside the grid. */
  lemma RowMajorBound(i: int, j: int, rows: int, cols: int)
    requires 0 <= i < rows && 0 <= j < cols
    ensures 0 <= i * cols + j < rows * cols == CellCount(rows, cols)
  {
    MulMono(i + 1, rows, cols);
  }

  /** Row-major index i*cols + j gives back row i and column j. */
  lemma RowMajorDivMod(i: int, j: int, cols: int)
    requires 0 <= i && 0 <= j < cols
    ensures (i * cols + j) / cols == i && (i * cols + j) % cols == j
  {
    var k := i * cols + j;
    var q, r := k / cols, k % cols;
    assert k == q * cols + r;
    if q > i {
      MulMono(i + 1, q, cols);
    } else if q < i {
      MulMono(q + 1, i, cols);
    }
  }

  /** Every index inside a rows-by-cols grid names a cell of it. */
  lemma IndexToCell(k: int, rows: int, cols: int)
    requires 0 <= k < rows * cols && cols > 0
    ensures 0 <= k / cols < rows && 0 <= k % cols < cols && k == (k / cols) * cols + k % cols
  {
  }

  /** A row-major cell (i2, j2) comes after (i, j). */
  predicate After(i2: int, j2: int, i: int, j: int)
  {
    i2 > i || (i2 == i && j2 > j)
  }

  /** Cell (i, j) holds the start code and no row-major later cell does. */
  predicate IsLastStartCell(ints: seq<int>, i: int, j: int)
    requires |ints| >= 2 && |ints| - 2 >= CellCount(ints[1], ints[0])
  {
    && 0 <= i < ints[1] && 0 <= j < ints[0]
    && Cell(ints, i, j) == StartCell
    && forall i2, j2 :: 0 <= i2 < ints[1] && 0 <= j2 < ints[0] && After(i2, j2, i, j) ==>
         Cell(ints, i2, j2) != StartCell
  }

  /** A larger row-major index is a later cell. */
  lemma RowMajorOrder(i2: int, j2: int, i: int, j: int, cols: int)
    requires 0 <= j < cols && 0 <= j2 < cols
    requires i2 * cols + j2 > i * cols + j
    ensures After(i2, j2, i, j)
  {
    if i2 < i {
      MulMono(i2 + 1, i, cols);
    }
  }

  /** Both divisions are exact, since 1920 = 32*60 and 1080 = 18*60, so C++'s
      truncating `/` gives the same offset as exact halving; the maze's left
      and right margins (top and bottom margins) are equal, also when the maze
      is larger than the screen and the margins are negative. */
  lemma OffsetClosedForm(i: int, j: int, rows: int, cols: int)
    ensures Offset(i, j, rows, cols) == Point((j - 1) * 60 + 30 * (32 - cols), i * 60 + 30 * (18 - rows))
    ensures 2 * CDiv(ScreenWidth - cols * CellSize, 2) + cols * CellSize == ScreenWidth
    ensures 2 * CDiv(ScreenHeight - rows * CellSize, 2) + rows * CellSize == ScreenHeight
  {
  }

  /** The scan fails exactly when it runs out of integers before the last
      cell; a header with a side that is not positive reads no cell and keeps
      the initial offset. */
  lemma ParseMapFailure(name: string, ints: seq<int>, start: Point)
    requires |ints| >= 2
    ensures var cols, rows := ints[0], ints[1];
      && (rows > 0 && cols > 0 ==>
            (ParseMap(name, Opened(ints), start).Failure? <==> |ints| - 2 < rows * cols))
      && (ParseMap(name, Opened(ints), start).Failure? ==>
            ParseMap(name, Opened(ints), start).error == InvalidArgument("Invalid cell value in file: " + name))
      && (rows <= 0 || cols <= 0 ==> ParseMap(name, Opened(ints), start) == Success(start))
  {
  }

  /** Integers after the first rows*cols cells are never read. */
  lemma ParseMapIgnoresTrailing(name: string, ints: seq<int>, extra: seq<int>, start: Point)
    requires |ints| >= 2 && |ints| - 2 >= CellCount(ints[1], ints[0])
    ensures ParseMap(name, Opened(ints + extra), start) == ParseMap(name, Opened(ints), start)
  {
    var n := CellCount(ints[1], ints[0]);
    assert (ints + extra)[2..2 + n] == ints[2..2 + n];
  }

  /** A grid without a start cell leaves the offset as it was. */
  lemma NoStartKeepsOffset(name: string, ints: seq<int>, start: Point)
    requires |ints| >= 2 && |ints| - 2 >= CellCount(ints[1], ints[0])
    requires forall i, j :: 0 <= i < ints[1] && 0 <= j < ints[0] ==> Cell(ints, i, j) != StartCell
    ensures ParseMap(name, Opened(ints), start) == Success(start)
  {
    var cols, rows := ints[0], ints[1];
    var cells := ints[2..2 + CellCount(rows, cols)];
    forall k | 0 <= k < |cells| ensures cells[k] != StartCell {
      IndexToCell(k, rows, cols);
      assert cells[k] == Cell(ints, k / cols, k % cols);
    }
  }

  /** The offset is decided by the LAST start cell in row-major order: every
      match overwrites the previous one. */
  lemma LastStartCellDecides(name: string, ints: seq<int>, start: Point)
    requires |ints| >= 2 && |ints| - 2 >= CellCount(ints[1], ints[0])
    ensures forall i, j :: IsLastStartCell(ints, i, j) ==>
              ParseMap(name, Opened(ints), start) == Success(Offset(i, j, ints[1], ints[0]))
  {
    var cols, rows := ints[0], ints[1];
    var cells := ints[2..2 + CellCount(rows, cols)];
    forall i, j | IsLastStartCell(ints, i, j)
      ensures ParseMap(name, Opened(ints), start) == Success(Offset(i, j, rows, cols))
    {
      var k := i * cols + j;
      RowMajorBound(i, j, rows, cols);
      RowMajorDivMod(i, j, cols);
      assert cells[k] == StartCell;
      forall k2 | k < k2 < |cells| ensures cells[k2] != StartCell {
        IndexToCell(k2, rows, cols);
        RowMajorOrder(k2 / cols, k2 % cols, i, j, cols);
        assert cells[k2] == Cell(ints, k2 / cols, k2 % cols);
      }
      assert LastStartIndex(cells) == Some(k);
    }
  }

  /** The three-column, two-row map `3 2  0 0 0  0 4 0` has its start cell at
      row 1, column 1, and so its offset at (870, 540). */
  lemma ParseMapExample(name: string, start: Point)
    ensures ParseMap(name, Opened([3, 2, 0, 0, 0, 0, 4, 0]), start) == Success(Point(870, 540))
  {
    var ints := [3, 2, 0, 0, 0, 0, 4, 0];
    assert ints[2..8] == [0, 0, 0, 0, 4, 0];
    assert LastStartIndex([0, 0, 0, 0, 4, 0]) == Some(4);
  }
}
