# Rat maze: movement and map loading

A model of `RatInstance` from the rat-in-a-maze game: the movement loader,
the map scan that its constructor runs to place the maze on the screen, and
the pixel arithmetic of its `draw`.

- A text file is modelled as `Common.File`: either it cannot be opened, or
  it yields the integers that successive `operator>>` calls extract from it,
  in order, up to the first failed extraction.
- `std::invalid_argument` is `Common.Error.InvalidArgument(message)`, with
  the source's messages; a throwing operation returns `Common.Result`.
- `Movements` (file `movements.dfy`): a count `n`, then `n` pairs written
  `col row`, stored in file order as `(row, col)`. `LoadMovementsFromFile` is
  the counted loop; `ParseMovements` is the function it is proved against.
- `MapParser` (file `map_parser.dfy`): the header `cols rows`, then
  `rows*cols` cell codes in row-major order. Every cell holding the start code
  4 overwrites the offset, so the LAST start cell in row-major order decides
  it. The offset centres the maze on a 1920×1080 reference screen with
  60-pixel cells. C++'s truncating `/` is modelled as `CDiv`, and
  `OffsetClosedForm` shows that both divisions are exact.
- `RatInstances` (file `rat_instance.dfy`): the class `RatInstance` with the
  fields `movements`, `xpos` and `ypos`. `ScanMap` is the constructor body's
  nested loop, which overwrites `xpos`/`ypos` in place. `Create` stands for
  the whole throwing constructor. `Draw` returns the pixel point the source
  hands to the rat's own `draw`.

## Model

| member | source | states |
|---|---|---|
| `Movements.LoadMovementsFromFile` | src/ratInstance.cpp:56-76 | an unopenable file throws `invalid_argument` ("Failed to open movements file: " + name) and nothing else does; otherwise exactly max(n, 0) steps, step i being `(file[2i+2], file[2i+1])`: `col row` swapped to `(row, col)`, file order kept |
| `Movements.ParseMovements` | src/ratInstance.cpp:56-76 | what loading yields: the open failure exactly for an unopenable file, otherwise max(n, 0) steps, step i being `(file[2i+2], file[2i+1])` |
| `Movements.Pairs` | src/ratInstance.cpp:67-72 | reading n pairs gives max(n, 0) steps, step i built from the integers 2i+1 (row) and 2i (col) of the body |
| `Movements.ParseMovementsRoundTrip` | src/ratInstance.cpp:64-72 | a file written as the count of `ms` followed by each step's `col row` loads back as exactly `ms` |
| `Movements.ParseMovementsIgnoresTrailing` | src/ratInstance.cpp:64-72 | integers after the n pairs never change what is loaded |
| `Movements.ParseMovementsNonPositiveCount` | src/ratInstance.cpp:64-69 | a count n ≤ 0 loads no steps, whatever follows |
| `Movements.ParseMovementsExample` | src/ratInstance.cpp:69-71 | the file `3 1 0 0 1 2 2` loads as (0,1), (1,0), (2,2) |
| `MapParser.LastStartIndex` | src/ratInstance.cpp:21-31 | the index found holds the start code 4 and no later cell does; none is found exactly when no cell holds 4 |
| `MapParser.CDiv` | src/ratInstance.cpp:29-30 | C++'s `/`: the quotient's magnitude is the floor of the magnitudes' quotient, and its sign is that of the exact quotient (truncation toward zero) |
| `MapParser.Offset` | src/ratInstance.cpp:29-30 | the offset assigned for a start cell (i, j): the maze's left and right margins on the 1920-pixel screen are equal, and so are its top and bottom margins on the 1080-pixel screen |
| `MapParser.StartOffset` | src/ratInstance.cpp:21-31 | when no scanned cell holds 4, the offset after the scan is its initial value |
| `MapParser.StartOffsetAtLastStart` | src/ratInstance.cpp:21-31 | when index k holds 4 and no later index does, the offset after the scan is that of row k / cols, column k % cols |
| `MapParser.ParseMap` | src/ratInstance.cpp:10-41 | what the scan yields: "Failed to open file: " + name for an unopenable file; otherwise it fails ("Invalid cell value in file: " + name) exactly when fewer than the cells the loops read follow the header |
| `MapParser.StartOffsetStep` | src/ratInstance.cpp:26-31 | reading one more cell moves the offset to that cell when it holds 4 and leaves it otherwise |
| `MapParser.ScanCell` | src/ratInstance.cpp:24-31 | reading cell (i, j), found at index 2 + i*cols + j of the file, moves the offset to cell (i, j) when it holds 4 and leaves it otherwise |
| `MapParser.OffsetClosedForm` | src/ratInstance.cpp:19-30 | the offset for cell (i, j) is `((j-1)*60 + 30*(32-cols), i*60 + 30*(18-rows))`: C++'s truncating halving is exact, and the margins on both sides of the maze are equal |
| `MapParser.ParseMapFailure` | src/ratInstance.cpp:16-37 | with rows, cols > 0 the scan throws ("Invalid cell value in file: " + name) exactly when fewer than rows*cols integers follow the header; a header with a non-positive side reads no cell and keeps the initial offset |
| `MapParser.ParseMapIgnoresTrailing` | src/ratInstance.cpp:21-41 | integers after the first rows*cols cells never change the result |
| `MapParser.NoStartKeepsOffset` | src/ratInstance.cpp:28-31 | when no cell holds 4 the scan succeeds and leaves the offset at its initial value |
| `MapParser.LastStartCellDecides` | src/ratInstance.cpp:21-31 | when (i, j) holds 4 and no row-major later cell does, the offset is that of cell (i, j) |
| `MapParser.ParseMapExample` | src/ratInstance.cpp:16-31 | the map `3 2 0 0 0 0 4 0` has its start at row 1, column 1, giving the offset (870, 540) |
| `RatInstances.RatInstance.constructor` | src/ratInstance.cpp:4-5 | the member initialisers: the loaded steps and the initial offset |
| `RatInstances.RatInstance.ScanMap` | src/ratInstance.cpp:10-41 | the nested loops leave `(xpos, ypos)` at the offset of the last start cell (or unchanged), or return the exception the scan throws; `movements` is untouched |
| `RatInstances.RatInstance.Create` | src/ratInstance.cpp:4-42 | a movement-file failure comes first, whatever the map file holds (its header is only needed once the movement file opened); then a map failure; otherwise a fresh instance whose steps are the loaded ones and whose offset is the map scan's |
| `RatInstances.RatInstance.Draw` | src/ratInstance.cpp:50-54 | the pixel handed to the rat's draw for grid position (x, y) is `DrawPoint` of the current offset, so the properties stated for `DrawPoint` hold of it |
| `RatInstances.DrawPoint` | src/ratInstance.cpp:53 | the drawn point's distance from the offset, divided by 60, gives back the grid position, with remainder 5 on both axes |
| `RatInstances.DrawAtStartCell` | src/ratInstance.cpp:29-53 | with the offset found for start cell (i, j), a rat at grid position (1, 0) is drawn 5 pixels inside cell (i, j) of the centred maze |

## Left out

- Real file I/O: opening and closing `std::ifstream` is replaced by the `File` value; the file names only enter the error messages.
- `Movements.WellFormed`: a movement file with no count, or with fewer than 2n integers after it, is excluded by a precondition; the source keeps reading from a failed stream there, and what `col`/`row` then hold depends on stream state.
- `MapParser.WellFormed`: a map file without the two header integers is excluded by a precondition wherever that file is read (`Create` asks for it only when the movement file opened); `rows` and `cols` are uninitialised there.
- The initial values of `xpos` and `ypos` are declared in `ratInstance.h`, which is not part of this model; they are parameters of `Create`.
- The `Rat` class (`rat(xv, yv, imageRat)`, `getPos`, `draw`, `setMovements`, `update`) is not part of this model: `Draw` takes the rat's grid position as a parameter and returns the point it would hand to `rat.draw`.
- `RatInstance::update` (src/ratInstance.cpp:44-48) only forwards to the `Rat` class, so the movement replay and its tick pacing are not modelled.
- Machine integers: `int` is unbounded here, so the overflow of `cols * 60` or `rows * 60` for huge headers, and the range of the integers a stream can extract, are not modelled.
- src/main.cpp: engine start-up, the 400-frame render loop, `SDL_GetTicks`, screen clearing and printing to standard error are I/O and rendering with no logic to model.
