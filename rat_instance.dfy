/** `RatInstance`: a rat's scripted movements together with the pixel offset
    that places the maze's grid on the screen. */
module RatInstances {
  import opened Common
  import opened Movements
  import opened MapParser

  /** Pixels between a cell's corner and the corner of the rat drawn in it. */
  const CellInset := 5

  /** The pixel point at which the rat at grid position `ratPos` is drawn,
      given the offset `(xpos, ypos)`: CellInset pixels into the cell of
      `ratPos`, so the grid position can be read back from it. */
  function DrawPoint(offset: Point, ratPos: Point): (pixel: Point)
    ensures (pixel.x - offset.x) / CellSize == ratPos.x && (pixel.x - offset.x) % CellSize == CellInset
    ensures (pixel.y - offset.y) / CellSize == ratPos.y && (pixel.y - offset.y) % CellSize == CellInset
  {
    Point(offset.x + ratPos.x * CellSize + CellInset, offset.y + ratPos.y * CellSize + CellInset)
  }

  class RatInstance {
    /** The steps loaded from the movement file, as (row, col) pairs. */
    var movements: seq<Movement>
    /** The pixel offset of the grid on the screen. */
    var xpos: int
    var ypos: int

    /** The member initialisers: the loaded steps, and the offset's initial value. */
    constructor (movements: seq<Movement>, xpos: int, ypos: int)
      ensures this.movements == movements && this.xpos == xpos && this.ypos == ypos
    {
      this.movements := movements;
      this.xpos := xpos;
      this.ypos := ypos;
    }

    /** The constructor body: open the map file or throw, read `cols rows`,
        then read rows*cols cells row by row, throwing at the first missing
        one, and move the offset to every start cell met on the way. */
    method ScanMap(name: string, f: File) returns (err: Option<Error>)
      requires MapParser.WellFormed(f)
      modifies this
      ensures movements == old(movements)
      ensures ParseMap(name, f, old(Point(xpos, ypos))).Failure? ==>
                err == Some(ParseMap(name, f, old(Point(xpos, ypos))).error)
      ensures ParseMap(name, f, old(Point(xpos, ypos))).Success? ==>
                err == None && Point(xpos, ypos) == ParseMap(name, f, old(Point(xpos, ypos))).value
    {
      if f.Unopenable? {
        return Some(InvalidArgument("Failed to open file: " + name));
      }
      var ints := f.ints;
      var cols, rows := ints[0], ints[1];
      var mazeWidth := cols * CellSize;
      var mazeHeight := rows * CellSize;
      ghost var start := Point(xpos, ypos);
      ghost var width := Max0(cols);
      var next := 2;
      var i := 0;
      while i < rows
        invariant 0 <= i <= Max0(rows)
        invariant next == 2 + i * width <= |ints|
        invariant ints[2..next] == [] || cols > 0
        invariant Point(xpos, ypos) == StartOffset(ints[2..next], rows, cols, start)
        invariant movements == old(movements)
      {
        var j := 0;
        while j < cols
          invariant 0 <= j <= width
          invariant next == 2 + i * width + j <= |ints|
          invariant Point(xpos, ypos) == StartOffset(ints[2..next], rows, cols, start)
          invariant movements == old(movements)
        {
          if next < |ints| {
            var cellValue := ints[next];
            ScanCell(ints, next, i, j, rows, cols, start);
            next := next + 1;
            if cellValue == StartCell {
              xpos := (j - 1) * CellSize + CDiv(ScreenWidth - mazeWidth, 2);
              ypos := i * CellSize + CDiv(ScreenHeight - mazeHeight, 2);
              assert Point(xpos, ypos) == Offset(i, j, rows, cols);
            }
          } else {
            RowMajorBound(i, j, rows, cols);
            return Some(InvalidArgument("Invalid cell value in file: " + name));
          }
          j := j + 1;
        }
        assert next == 2 + (i + 1) * width;
        i := i + 1;
      }
      assert next == 2 + CellCount(rows, cols);
      return None;
    }

    /** `RatInstance::RatInstance`: load the movements (a failure there comes
        first), then scan the map starting from the offset's initial value
        `(x0, y0)`; either load may throw, and then no instance exists. The
        rat itself (`rat(xv, yv, imageRat)`) is not part of this model. */
    static method Create(x0: int, y0: int, movementName: string, movementFile: File,
                         mapName: string, mapFile: File)
      returns (r: Result<RatInstance>)
      requires Movements.WellFormed(movementFile)
      requires movementFile.Opened? ==> MapParser.WellFormed(mapFile)
      ensures ParseMovements(movementName, movementFile).Failure? ==>
                r == Failure(ParseMovements(movementName, movementFile).error)
      ensures ParseMovements(movementName, movementFile).Success? &&
              ParseMap(mapName, mapFile, Point(x0, y0)).Failure? ==>
                r == Failure(ParseMap(mapName, mapFile, Point(x0, y0)).error)
      ensures r.Success? <==>
                ParseMovements(movementName, movementFile).Success? &&
                ParseMap(mapName, mapFile, Point(x0, y0)).Success?
      ensures r.Success? ==> fresh(r.value)
      ensures r.Success? ==>
                && ParseMovements(movementName, movementFile).Success?
                && r.value.movements == ParseMovements(movementName, movementFile).value
                && Point(r.value.xpos, r.value.ypos) == ParseMap(mapName, mapFile, Point(x0, y0)).value
    {
      var loaded := LoadMovementsFromFile(movementName, movementFile);
      if loaded.Failure? {
        return Failure(loaded.error);
      }
      var instance := new RatInstance(loaded.value, x0, y0);
      var err := instance.ScanMap(mapName, mapFile);
      if err.Some? {
        return Failure(err.value);
      }
      return Success(instance);
    }

    /** `RatInstance::draw`: the pixel point handed to the rat's own draw for
        the rat's grid position `ratPos`; `DrawPoint` says how the grid
        position is read back from it. */
    method Draw(ratPos: Point) returns (pixel: Point)
      ensures pixel == DrawPoint(Point(xpos, ypos), ratPos)
    {
      pixel := DrawPoint(Point(xpos, ypos), ratPos);
    }
  }

  /** With the offset a map scan computes for start cell (i, j), a rat at
      grid position (1, 0) is drawn CellInset pixels inside that start cell of
      the centred maze: its column 1 cancels the `j - 1` of the offset. */
  lemma DrawAtStartCell(name: string, ints: seq<int>, start: Point)
    requires |ints| >= 2 && |ints| - 2 >= CellCount(ints[1], ints[0])
    ensures forall i, j :: IsLastStartCell(ints, i, j) ==>
              && ParseMap(name, Opened(ints), start).Success?
              && DrawPoint(ParseMap(name, Opened(ints), start).value, Point(1, 0))
                 == Point((ScreenWidth - ints[0] * CellSize) / 2 + j * CellSize + CellInset,
                          (ScreenHeight - ints[1] * CellSize) / 2 + i * CellSize + CellInset)
  {
    LastStartCellDecides(name, ints, start);
    forall i, j {
      OffsetClosedForm(i, j, ints[1], ints[0]);
    }
  }
}
