# Conway's Game of Life on a torus — a Dafny model

This project models the engine and the command session of a small C++
Game of Life program and proves what they promise.

The engine, the `GameOfLife` class, keeps a `width` by `height` grid of cells
`current`, a scratch grid `next` and a window `history` of the last three
generations. Its edges wrap, so the world is a torus. Its operations are:

- counting the live neighbours of a cell (`countNeighbors`);
- stepping one generation with the birth/survival rule (`evolve`);
- detecting a still life or a period-2 cycle from the window (`isStable`);
- bounds-checked reads and writes of a cell, by `(x, y)` or by a linear index;
- stamping four fixed patterns: glider, toad, beacon and the R-pentomino;
- stamping a number of random patterns;
- writing the world out (`save`) and reading it back (`load`).

The session, the `CommandLine` class, holds an optional world plus three settings:
printing, the delay between generations, and the stability check. It turns
commands into calls on the world. `run n` evolves the world at most `n`
times and may stop early once it is stable.

Layout:

- `grids.dfy` (`Grids`) — the grid as `seq<seq<bool>>` and C++ truncating
  `%` and `/` (`CMod`, `CDiv`). Also the 2-D and linear-index cell accessors
  as functions on the grid.
- `rules.dfy` (`Rules`) — the neighbour count, the rule, one generation
  (`NextGen`), the three-entry window (`Remember`), the stability test
  (`Stable`), and the engine's evolution state (`State`, `Step`). Also the
  rotations of the torus (`Shift`), under which counting and evolution are
  symmetric.
- `stamps.dfy` (`Stamps`) — the pattern offsets and stamping as a fold of
  `setCell(…, true)`; random stamping over a given list of draws.
- `tokens.dfy` (`Tokens`) — the saved-file format as a stream of integer tokens.
- `engine.dfy` (`Engine`) — the `GameOfLife` class. Its methods update
  `current`, `next` and `history` in place. Each is proved against the
  functions above.
- `session.dfy` (`Session`) — the `CommandLine` class, the command
  datatype, and the `run` loop, specified by the function `Simulate`.
- `oscillators.dfy` (`Oscillators`) — concrete patterns on an empty 6-by-6
  torus. The toad and the beacon are period-2 oscillators, the block is a
  still life, and a lone cell dies. Each one stops a checked run after three
  generations.
- `wrappers.dfy` (`Wrappers`) — `Option`.

Notes on C++ arithmetic. C++ `%` and `/` truncate toward zero, and `CMod`
and `CDiv` model them; with a negative dividend the remainder is zero or
negative. The model follows these facts of the code:

- Linear indices (GameOfLife.cpp:158-162, 173-177). A negative index whose
  remainder by `width` is not zero gets a negative column. A negative
  multiple of `width` gets column 0 and a negative row. Either way it reads
  dead and writes nothing. An index at or past `width*height` gets a row
  `>= height`, so it too reads dead and writes nothing. No linear index
  aliases another cell (`Grids.LinearOutside`).
- Stampers (GameOfLife.cpp:185-234). Each offset is added to the anchor and
  reduced by C++ `%`. A non-negative sum wraps around the torus. A negative
  sum with a non-zero remainder stays negative and is dropped by `setCell`'s
  bounds check (`Stamps.GliderAtNegativeAnchor`). A negative sum that is a
  multiple of the dimension lands on coordinate 0.
- `load` in the session (CommandLine.cpp:38-39) deletes the old world before
  the new one is read, so a failed load does not keep the old world.

## Model

| member | source | states |
|---|---|---|
| `Grids.Dead` | GameOfLife.cpp:24-31 | a fresh grid has `height` rows of `width` cells, all dead |
| `Grids.CMod` | GameOfLife.cpp:159 | C++ `%` with a positive divisor: in `[0, b)` for a non-negative dividend, in `(-b, 0]` for a negative one |
| `Grids.CDiv` | GameOfLife.cpp:160 | C++ `/` with a positive divisor: the quotient has the dividend's sign |
| `Grids.DivModRecombine` | GameOfLife.cpp:159-160 | truncating quotient times divisor plus remainder is the dividend |
| `Grids.Get` | GameOfLife.cpp:150-155 | a 2-D read is alive exactly when `(x, y)` is in range and that cell is alive; an out-of-range read is dead |
| `Grids.SetAt` | GameOfLife.cpp:165-170 | `setCell(x, y, s)` keeps the dimensions, gives `(x, y)` state `s` when in range, and leaves every other cell unchanged |
| `Grids.SetThenGet` | GameOfLife.h:75-103 | after a write, a read of the written in-range cell returns the written state; a read of any other cell returns what it returned before |
| `Grids.SetOutOfRange` | GameOfLife.cpp:165-168 | an out-of-range `setCell` leaves the grid unchanged |
| `Grids.GetPos` | GameOfLife.cpp:158-162 | a linear read is alive exactly when the index is in `[0, width*height)` and the cell at column `position % width`, row `position / width` is alive |
| `Grids.SetPos` | GameOfLife.cpp:173-177 | a linear write with an index in `[0, width*height)` is the 2-D write at column `position % width`, row `position / width`; any other index leaves the grid as it was |
| `Grids.LinearInBounds` | GameOfLife.cpp:158-177 | the linear index splits into an in-range `(x, y)` exactly when `0 <= position < width*height` |
| `Grids.RowMajor` | GameOfLife.cpp:159-160 | index `y*width + x` of an in-range cell splits back into `x` and `y` |
| `Grids.LinearMatches2D` | GameOfLife.cpp:158-177 | for every in-range cell, the linear `getCell`/`setCell` at `y*width + x` equal the 2-D forms |
| `Grids.LinearOutside` | GameOfLife.cpp:158-177 | an index outside `[0, width*height)`, negative or too large, reads dead and writes nothing |
| `Rules.AroundInLoopOrder` | GameOfLife.cpp:9-11 | the eight offsets are listed in the order of the `i`/`j` loops, with `(0, 0)` skipped |
| `Rules.WrapNear` | GameOfLife.cpp:14-15 | `(v + d + n) % n` for an in-range `v` and a step `d` in `[-1, 1]` moves `v` back across the edge it crossed, and only then |
| `Rules.CountStep` | GameOfLife.cpp:9-18 | one pass of the inner loop adds the state of the wrapped neighbour at `(i, j)`, and nothing for `(0, 0)` |
| `Rules.Neighbours` | GameOfLife.cpp:7-21 | the neighbour count lies in `[0, 8]` |
| `Rules.EightNeighbours` | GameOfLife.h:11-13 | every wrapped neighbour of an in-range cell is in range; on a grid at least 3 by 3 there are eight distinct neighbours, none of them the cell itself |
| `Rules.NeighbourInjective` | GameOfLife.cpp:14-15 | on a grid at least 3 by 3, two adjacent offsets reach the same cell only when they are the same offset |
| `Rules.ShiftNeighbours` | GameOfLife.cpp:7-21 | the count is symmetric under rotations of the torus: rotating the grid and the cell by the same offset leaves it unchanged |
| `Rules.NextGen` | GameOfLife.cpp:39-57 | one generation keeps the world's dimensions |
| `Rules.ShiftNextGen` | GameOfLife.cpp:39-57 | evolving a rotated grid gives the rotated next generation |
| `Rules.NextGenByCells` | GameOfLife.cpp:40-54 | a grid whose every cell is the rule applied to the old cell and its old neighbour count is the next generation; so each cell depends on the old grid only |
| `Rules.Rule` | GameOfLife.cpp:46-52 | a cell lives next generation exactly when it has three live neighbours, or has two and is alive now |
| `Rules.NextGenIsB3S23` | GameOfLife.cpp:46-52 | a cell is alive next generation exactly when it has three live neighbours, or has two and is alive |
| `Rules.DeadStaysDead` | GameOfLife.cpp:39-57 | the all-dead grid evolves to itself |
| `Rules.Remember` | GameOfLife.cpp:59-65 | the window after a push is the last `min(3, n + 1)` snapshots of the old window plus the new one |
| `Rules.Step` | GameOfLife.cpp:39-65 | `evolve` makes the next generation current and leaves one to three snapshots in the window |
| `Rules.StepKeepsEvolved` | GameOfLife.cpp:57-65 | evolving keeps the window ending in the current grid, with each snapshot the next generation of the one before |
| `Rules.Stable` | GameOfLife.cpp:69-83 | the test holds exactly when the window has three snapshots and the newest equals one of the two before it |
| `Rules.StableMeansPeriodAtMostTwo` | GameOfLife.cpp:69-83 | on a full window built by evolution, `isStable()` holds exactly when the middle snapshot is a still life or the oldest returns after two generations |
| `Rules.StableRepeats` | GameOfLife.h:50-54 | once an evolved window is stable, the current grid returns after two generations |
| `Rules.StableForever` | GameOfLife.cpp:69-83 | a stable evolved window stays stable however many more generations are evolved |
| `Stamps.Cells` | GameOfLife.cpp:185-234 | the offsets each stamper sets, in call order: 5, 6, 8 and 5 distinct offsets inside a 4-by-4 box from the anchor |
| `Stamps.Stamp` | GameOfLife.cpp:180-235 | stamping keeps the world's dimensions |
| `Stamps.StampExact` | GameOfLife.cpp:180-235 | after stamping, an in-range cell is alive exactly when it was alive before or a listed offset, reduced by C++ `%`, lands on it; no cell is cleared |
| `Stamps.StampFits` | GameOfLife.h:105-131 | a pattern that fits from its anchor draws exactly its own offsets on an empty grid |
| `Stamps.StampNonNegativeAnchor` | GameOfLife.cpp:180-235 | with a non-negative anchor, all 5, 6, 8 or 5 listed cells land in range and are alive afterwards |
| `Stamps.GliderAtNegativeAnchor` | GameOfLife.cpp:185-189 | a glider anchored at column -1 on a 5-by-5 grid targets column -1, not 4, and leaves column 4 dead |
| `Stamps.StampAll` | GameOfLife.cpp:245-256 | stamping a list of draws keeps the dimensions |
| `Stamps.StampAllKeeps` | GameOfLife.cpp:245-256 | stamping many patterns never clears a live cell |
| `Stamps.RandomPatternsAllLive` | GameOfLife.cpp:238-257 | with anchors in range, every cell of every drawn pattern is alive afterwards, so one draw or more leaves a live cell |
| `Tokens.Decode` | GameOfLife.cpp:103-116 | a stream accepted by `load` gives positive dimensions and a grid of exactly those dimensions |
| `Tokens.Encode` | GameOfLife.cpp:127-147 | the saved stream starts with the width and the height, followed by exactly `width*height` cell tokens |
| `Tokens.ReadRows` | GameOfLife.cpp:110-116 | reading the cell tokens gives `height` rows of `width` cells |
| `Tokens.CellTokensLength` | GameOfLife.cpp:138-143 | `save` writes exactly `width*height` cell tokens |
| `Tokens.ReadRowTokens` | GameOfLife.cpp:110-116 | reading a saved row gives the row back |
| `Tokens.SaveLoadRoundTrip` | GameOfLife.cpp:103-143 | reading back what `save` writes gives the same width, height and cells |
| `Tokens.ReadRowsCell` | GameOfLife.cpp:110-114 | cell `(x, y)` is read from cell token `y*width + x`, row-major |
| `Tokens.LoadedCell` | GameOfLife.cpp:110-114 | a loaded cell is alive exactly when its token is 1; any other token reads dead |
| `Engine.GameOfLife.constructor` | GameOfLife.cpp:24-31 | a new world is all dead, with `next` all dead and `history == [current]` |
| `Engine.GameOfLife.FromFile` | GameOfLife.cpp:96-124 | loading sets width and height from the first two tokens and each cell from its token, and resets the history to the loaded grid |
| `Engine.GameOfLife.CountNeighbors` | GameOfLife.cpp:7-21 | the counting loop returns the number of live wrapped neighbours, in `[0, 8]` |
| `Engine.GameOfLife.Evolve` | GameOfLife.cpp:39-66 | the double-buffered pass makes `current` the next generation of the old grid and sets `next` to it. The window gains the new grid and drops its oldest entry past three. Width and height do not change |
| `Engine.GameOfLife.IsStable` | GameOfLife.cpp:69-83 | on a valid world, true exactly when the window is full and its newest snapshot repeats one of the two before it |
| `Engine.GameOfLife.Save` | GameOfLife.cpp:127-147 | the written tokens are width, height and the cells row by row, and reading them back gives the same world |
| `Engine.GameOfLife.GetCell` | GameOfLife.cpp:150-155 | true exactly when `(x, y)` is in range and that cell is alive |
| `Engine.GameOfLife.GetCellAt` | GameOfLife.cpp:158-162 | true exactly when the index is in `[0, width*height)` and the row-major cell it names is alive |
| `Engine.GameOfLife.SetCell` | GameOfLife.cpp:165-170 | writes only the in-range cell `(x, y)`; `next`, `history` and the dimensions are untouched |
| `Engine.GameOfLife.SetCellAt` | GameOfLife.cpp:173-177 | splits the index with C++ `%` and `/`, then writes as `setCell(x, y, s)` |
| `Engine.GameOfLife.AddGlider` | GameOfLife.cpp:180-190 | the grid becomes the glider's five cells stamped in order |
| `Engine.GameOfLife.AddToad` | GameOfLife.cpp:193-205 | the grid becomes the toad's six cells stamped in order |
| `Engine.GameOfLife.AddBeacon` | GameOfLife.cpp:208-222 | the grid becomes the beacon's eight cells stamped in order |
| `Engine.GameOfLife.AddMethuselah` | GameOfLife.cpp:225-235 | the grid becomes the R-pentomino's five cells stamped in order |
| `Engine.GameOfLife.AddRandomPatterns` | GameOfLife.cpp:238-257 | the loop stamps the `count` draws in order |
| `Engine.GameOfLife.GetWidth` | GameOfLife.cpp:260-262 | the width is positive and is the length of every row |
| `Engine.GameOfLife.GetHeight` | GameOfLife.cpp:265-267 | the height is positive and is the number of rows |
| `Session.RunFrom` | CommandLine.cpp:199-216 | the rest of the run loop keeps the dimensions and a window of at most three |
| `Session.RunFromCount` | CommandLine.cpp:199-216 | the loop runs at most `generations` times, exactly that many unless it stops early, and ends in that many evolves |
| `Session.RunFromStopReason` | CommandLine.cpp:212-215 | an early stop needs the check on, three or more generations and a stable window |
| `Session.RunFromNoEarlierStop` | CommandLine.cpp:200-215 | the loop does not pass a generation, from the third on, where a checked window was stable |
| `Session.Simulate` | CommandLine.cpp:199-216 | the run keeps the dimensions and leaves a window of at most three snapshots; what the loop computes is stated by `Session.SimulateSpec` |
| `Session.SimulateSpec` | CommandLine.cpp:188-233 | `runSimulation(n)` evolves at most `n` times, exactly `n` unless it stops early, and stops at the first checked stable generation from the third on |
| `Session.UncheckedRunsAll` | CommandLine.cpp:212 | with the check off, all `n` generations run |
| `Session.StopMeansPeriodic` | CommandLine.cpp:199-216 | from any world, whatever `set`, the stampers or `random` did to it, an early stop leaves a grid that returns after two generations |
| `Session.StepsEvolved` | GameOfLife.cpp:57-65 | after three evolves or more, from any grid and window, the window ends in the current grid and each snapshot is the next generation of the one before |
| `Session.ThreeStepsEvolved` | GameOfLife.cpp:57-65 | after three evolves from any grid and window, the window holds three generations, each the next of the one before, ending in the current grid |
| `Session.CommandLine.constructor` | CommandLine.cpp:9 | no world; printing on, delay 100, stability check on |
| `Session.CommandLine.RunSimulation` | CommandLine.cpp:188-233 | the loop's evolve count, stop flag and final world are those of `Simulate`; dimensions unchanged; after one evolve or more `next` equals the grid; nothing happens without a world |
| `Session.CommandLine.WorldCommand` | CommandLine.cpp:44-177 | on an existing world: `save`/`get` only read; `set`, the stampers and `random` change only the grid, not `next` or the window. `run n` evolves as `Simulate` says and leaves `next` equal to the grid. A non-positive `run`/`random` count or an empty file name changes nothing |
| `Session.CommandLine.ProcessCommand` | CommandLine.cpp:17-185 | false only for `exit`/`quit`. Each setting changes only through its own command, to `v != 0` for `print`/`stability`. World commands are refused without a world. `create` with a non-positive size changes nothing, and otherwise installs a fresh world whose grid and `next` are all dead; `load` installs the decoded grid with an all-dead `next`. Any other command that neither needs a world nor replaces it leaves the world untouched |
| `Oscillators.NeighboursByCount` | GameOfLife.cpp:7-21 | on the 6-by-6 torus the neighbour count is the plain sum of the eight wrapped neighbours |
| `Oscillators.EvolvesTo` | GameOfLife.cpp:39-57 | a 6-by-6 grid that follows the rule cell by cell is the next generation |
| `Oscillators.ToadStamped` | GameOfLife.cpp:193-205 | `addToad(1, 1)` on an empty 6-by-6 world draws the toad's first phase |
| `Oscillators.BeaconStamped` | GameOfLife.cpp:208-222 | `addBeacon(1, 1)` on an empty 6-by-6 world draws the beacon's first phase |
| `Oscillators.ToadFlips` | GameOfLife.h:112-117 | one generation takes each toad phase to the other |
| `Oscillators.BeaconFlips` | GameOfLife.h:119-124 | one generation takes each beacon phase to the other |
| `Oscillators.PeriodTwo` | GameOfLife.h:50-54 | two distinct grids that evolve into each other are not still lifes and return after two generations |
| `Oscillators.PeriodTwoRunStops` | CommandLine.cpp:199-216 | from a grid of period one or two and any window of up to three snapshots, a checked run of three or more generations stops after the third with the window `b, a, b` |
| `Oscillators.ToadOscillates` | GameOfLife.h:112-117 | a stamped toad is not a still life and two generations restore it |
| `Oscillators.BeaconOscillates` | GameOfLife.h:119-124 | a stamped beacon is not a still life and two generations restore it |
| `Oscillators.ToadRunStops` | CommandLine.cpp:209-215 | `toad 1 1` on a fresh 6-by-6 world and a checked `run n`, `n >= 3`, stop after three generations as stable |
| `Oscillators.BeaconRunStops` | CommandLine.cpp:209-215 | `beacon 1 1` on a fresh 6-by-6 world and a checked `run n`, `n >= 3`, stop after three generations as stable |
| `Oscillators.BlockStillLife` | GameOfLife.cpp:72-75 | a 2-by-2 block is unchanged by a generation |
| `Oscillators.BlockRunStops` | CommandLine.cpp:212-215 | a checked run from a block stops after three generations with three equal snapshots |
| `Oscillators.LonelyIsSet` | GameOfLife.cpp:165-170 | `setCell(2, 2, true)` on an empty 6-by-6 world makes the lone-cell grid |
| `Oscillators.LonelyDies` | GameOfLife.cpp:46-47 | a lone live cell dies in one generation and nothing is born |
| `Oscillators.LonelyRunStops` | CommandLine.cpp:212-215 | a checked run from a lone cell empties the world and stops after three generations |

## Left out

- Screen output is not modelled: `print()`, the ANSI screen codes, the
  messages `processCommand` and `runSimulation` print, and `printHelp`.
  They are console I/O; commands return a `Reply` value instead.
- The delay between generations (`sleep_for`) and the elapsed-time
  measurement are wall-clock effects. The `delay` setting is stored but has no effect in the model.
- Opening, writing and closing files in `save`/`load` is not modelled.
  `save` returns the token stream it would write, and `load` takes the
  token stream of the named file as a parameter.
- The failed-`load` path is left out. If the file does not open, or holds
  too few or malformed tokens, `width`/`height` are left uninitialised or
  cells are read from failed extractions, which is undefined behaviour.
  `Engine.GameOfLife.FromFile` and `load` in
  `Session.CommandLine.ProcessCommand` require a stream that `Tokens.Decode`
  accepts: positive dimensions followed by enough cell tokens.
- `load` of a file that starts with a zero dimension is left out. The code
  then loads an empty grid without undefined behaviour, but the model keeps
  every world's dimensions positive.
- `load` of a file that starts with a negative dimension is left out: the
  code's `resize` throws `std::length_error`, and exceptions are not modelled.
- `load` on an object that already holds a grid, where `resize` would keep
  stale rows, is not modelled; the source only calls it on a fresh object.
- Engine.GameOfLife.constructor: requires positive dimensions. The C++
  constructor accepts any `int`, but its only caller (`create`) passes
  positive ones.
- Engine.GameOfLife.AddRandomPatterns: the random device, `mt19937` and the
  distributions are replaced by a caller-supplied list of draws. Each draw
  has its anchor in range, as the distributions guarantee, and there are
  `count` of them. Uniformity and randomness are not modelled.
- Command-line parsing is not modelled: `istringstream` extraction, the
  stream rollback that tells the 2-D `set`/`get` from the linear one, and
  the values C++ gives a failed extraction. Commands arrive as an already
  parsed `Command`, with separate cases for the 2-D and linear forms.
  The `run()` input loop and `main.cpp` are also left out.
- Machine integers: all arithmetic is on unbounded integers, so `int`
  overflow in `x + 3`, `y * width + x` or `width * height` is not modelled.
- The owning `world` pointer is a nullable reference. `new`/`delete` and
  lifetime are not modelled.
- Oscillators.ToadOscillates: the oscillator and still-life facts are
  proved on a 6-by-6 torus with the pattern anchored at `(1, 1)`. They are
  not proved for every grid size and anchor.
