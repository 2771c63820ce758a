# Conway's Game of Life, modelled in Dafny

This project models two versions of a small Rust Game of Life engine.

**`Life` (`life.dfy`, with properties in `life_examples.dfy`) is the engine in `src/main.rs`.**

- A board is a square grid of side `n`, stored row-major as a flat `seq<bool>` of `n * n` cells. Cell `ix` sits at row `ix / n` and column `ix % n`.
- `IsWithinBounds` decides whether a (row, col) pair is on the board.
- `LivingNeighborsCount` scans the 3×3 window around a cell, row offset by row offset, then column offset by column offset. It skips the centre and every position off the board. Edges are clipped, never wrapped.
- `WillSurvive` is the rule (birth on 3, survival on 2 or 3).
- `AdvanceBoard` builds the next generation cell by cell from the input board.
- The model gives the count two independent readings:
  - `NeighborCount` is the scan as the loops perform it.
  - `LiveNeighbors` is the set of live cells adjacent to the cell.
- It proves that these agree, and it states the next generation declaratively as `NextGeneration`.

**`SparseDraft` (`sparse.dfy`, with the draft's tests in `sparse_examples.dfy`) is the earlier draft in `src/main_old.rs`.**

- A board is a list of live `Coordinates`, a clock and a side `n`.
- `Coordinates::neighbors` returns the 3×3 block around a cell, centre included. Each component is wrapped by Euclidean remainder by the constant 10, whatever the board's `n`.
- `Board::get_neighbors` gathers every block entry of every live cell into a map. Each x maps to the y's seen with it, in visiting order and with repeats.
- The model gives that map a declarative reference, `NeighborIndex(Flat(alive))`. It proves the loops build exactly that map, and that the map keeps every entry's multiplicity, so the list lengths add up to 9 per live cell.
- `Board::tick` only advances the clock.

Both Rust files use `i32` arithmetic. The model uses unbounded integers; see "Left out".

## Model

| member | source | states |
|---|---|---|
| Life.IsWithinBounds | src/main.rs:53-55 | true exactly when both the row and the column lie in [0, size) |
| Life.IndexRoundTrip | src/main.rs:81-85 | a (row, col) pair the bound check accepts encodes to an index of the n×n board (row * n + col), and that index decodes back to the same row and column |
| Life.IndexDecode | src/main.rs:73-82 | every index of the board decodes to (ix / n, ix % n), which passes the bound check and encodes back to ix |
| Life.NeighborCount | src/main.rs:70-92 | the scanned count of a cell's window is at most 8, because the centre is never counted |
| Life.WindowIsOffsetCount | src/main.rs:74-80 | the nested scan, row offset outer and column offset inner with (0, 0) skipped, visits exactly the 8 neighbour offsets in a fixed order, each once |
| Life.OffsetsReachLiveNeighbors | src/main.rs:81-87 | the cells reached through the live offsets are exactly the live cells adjacent to the cell: none is missed, and none is outside the neighbourhood |
| Life.NeighborCountIsLiveNeighbors | src/main.rs:57-59 | the scan counts exactly the live adjacent cells: each adjacent live cell once, the cell itself never, off-board positions never |
| Life.CountWindowRow | src/main.rs:76-89 | the inner loop adds 1 for each live on-board cell in one row of the window, skipping the centre |
| Life.LivingNeighborsCount | src/main.rs:70-92 | the result is the number of live cells adjacent to cell ix, and it lies in [0, 8] |
| Life.WillSurvive | src/main.rs:107-120 | the cell is alive next exactly when it has 3 neighbours, or it is alive now and has 2 |
| Life.NextGenerationCell | src/main.rs:132-139 | cell i of the next generation is the rule applied to cell i and the count scanned on the unchanged input board |
| Life.NextGeneration | src/main.rs:132-139 | the next generation has exactly one cell per cell of the input board |
| Life.AdvanceBoard | src/main.rs:132-139 | the result has the input's length and is the declarative next generation: each cell i is the rule applied to cell i and the number of live cells adjacent to it on the input board (never on the partial result) |
| LifeExamples.IsWithinBoundsExamples | src/main.rs:164-169 | (1, 2) is on a 3×3 board; (-1, 2) and (0, 4) are not |
| LifeExamples.CountIsLocal | src/main.rs:57-59 | two boards that agree on the cells adjacent to ix give ix the same count |
| LifeExamples.CountIgnoresSelf | src/main.rs:77-80 | changing the cell itself never changes its own count |
| LifeExamples.EdgesAreClipped | src/main.rs:81-83 | a first-column cell sees only columns 0 and 1, a last-column cell only the last two columns, and a first-row cell only rows 0 and 1 |
| LifeExamples.NoColumnWrapExample | src/main.rs:81-83 | on a 3×3 board, the live cell just before a first-column cell in memory (the end of the row above) is not counted |
| LifeExamples.WillSurviveExamples | src/main.rs:200-221 | a live cell dies with 0, 1, 4 or 999 neighbours and survives with 2 or 3; a dead cell with 3 is born |
| LifeExamples.TestBoardCount0 | src/main.rs:187-198 | cell 0 of the test board has 2 live neighbours |
| LifeExamples.TestBoardCount1 | src/main.rs:187-198 | cell 1 of the test board has 2 live neighbours |
| LifeExamples.TestBoardCount2 | src/main.rs:187-198 | cell 2 of the test board has 2 live neighbours |
| LifeExamples.TestBoardCount3 | src/main.rs:187-198 | cell 3 of the test board has 2 live neighbours |
| LifeExamples.TestBoardCount4 | src/main.rs:187-198 | cell 4 of the test board has 2 live neighbours |
| LifeExamples.TestBoardCount5 | src/main.rs:187-198 | cell 5 of the test board has 3 live neighbours |
| LifeExamples.TestBoardCount6 | src/main.rs:187-198 | cell 6 of the test board has 1 live neighbour |
| LifeExamples.TestBoardCount7 | src/main.rs:187-198 | cell 7 of the test board has 1 live neighbour |
| LifeExamples.TestBoardCount8 | src/main.rs:187-198 | cell 8 of the test board has 1 live neighbour |
| LifeExamples.TestBoardNext0 | src/main.rs:177-185 | cell 0 of the test board is dead after one generation |
| LifeExamples.TestBoardNext1 | src/main.rs:177-185 | cell 1 of the test board is alive after one generation |
| LifeExamples.TestBoardNext2 | src/main.rs:177-185 | cell 2 of the test board is alive after one generation |
| LifeExamples.TestBoardNext3 | src/main.rs:177-185 | cell 3 of the test board is dead after one generation |
| LifeExamples.TestBoardNext4 | src/main.rs:177-185 | cell 4 of the test board is alive after one generation |
| LifeExamples.TestBoardNext5 | src/main.rs:177-185 | cell 5 of the test board, dead with 3 neighbours, is born |
| LifeExamples.TestBoardNext6 | src/main.rs:177-185 | cell 6 of the test board is dead after one generation |
| LifeExamples.TestBoardNext7 | src/main.rs:177-185 | cell 7 of the test board is dead after one generation |
| LifeExamples.TestBoardNext8 | src/main.rs:177-185 | cell 8 of the test board is dead after one generation |
| LifeExamples.TestBoardAdvances | src/main.rs:177-185 | the test board (. # # / . # . / . . .) advances to (. # # / . # # / . . .) |
| SparseDraft.NewCoordinates | src/main_old.rs:76-81 | the coordinates hold the given x and y |
| SparseDraft.Wrap | src/main_old.rs:94-98 | a wrapped component lies in [0, 10) and differs from the unwrapped one by a multiple of 10 |
| SparseDraft.WrapOf | src/main_old.rs:98 | the wrapped component is the only value in [0, 10) that differs from the unwrapped one by a multiple of 10 |
| SparseDraft.NeighborList | src/main_old.rs:93-102 | the block around a cell has 9 entries |
| SparseDraft.Neighbors | src/main_old.rs:93-102 | the loops produce 9 entries, with the row offset outer and the column offset inner: entry k is (x + k % 3 - 1, y + k / 3 - 1), each component wrapped at 10 |
| SparseDraft.NeighborListInRange | src/main_old.rs:91-92 | every block entry lies on the 10×10 torus |
| SparseDraft.WrapsNearIff | src/main_old.rs:98 | the wrapped neighbours of a component are exactly the values in [0, 10) at distance 9, 0 or 1 from it, modulo 10 |
| SparseDraft.NeighborListNear | src/main_old.rs:96-99 | a coordinate is in the block exactly when each of its components is a wrapped neighbour of the cell's |
| SparseDraft.NeighborListMembership | src/main_old.rs:91-102 | a coordinate is in the block exactly when it lies on the torus and each component is within one step of the cell's, modulo 10; the centre is included |
| SparseDraft.NewBoard | src/main_old.rs:19-25 | a new board has the given side, clock 0 and no live cells |
| SparseDraft.Tick | src/main_old.rs:27-29 | the clock goes up by one, and the live cells and the side are unchanged |
| SparseDraft.SetLivingCells | src/main_old.rs:63-65 | the live cells are replaced by the given list, and the clock and the side are unchanged |
| SparseDraft.Flat | src/main_old.rs:45-46 | the entries visited for a list of live cells number 9 per cell |
| SparseDraft.NeighborIndexSnoc | src/main_old.rs:47-51 | visiting one more entry appends its y to the list under its x, creating the key with an empty list first if absent, and leaves every other key alone |
| SparseDraft.YsAtCount | src/main_old.rs:47-51 | y occurs in the list under x exactly as often as (x, y) occurs among the visited entries |
| SparseDraft.IndexMultiplicity | src/main_old.rs:43-55 | every (x, y) pair the map holds, with its multiplicity, comes from the visited entries; keys that are absent hold nothing |
| SparseDraft.IndexTotalLength | src/main_old.rs:43-55 | the lengths of the map's lists add up to the number of visited entries |
| SparseDraft.AddEntries | src/main_old.rs:46-52 | the inner loop adds the entries of one block, in order, to the map built so far |
| SparseDraft.AddBlocks | src/main_old.rs:44-54 | the outer loop yields the map of all blocks of all live cells, cell after cell |
| SparseDraft.GetNeighbors | src/main_old.rs:43-55 | the result is the declarative index of the visited entries; its keys are exactly the x's that occur; the list lengths add up to 9 per live cell |
| SparseExamples.NewCoordinatesExample | src/main_old.rs:110-114 | new(1, 2) holds x = 1 and y = 2 |
| SparseExamples.NeighborListExample | src/main_old.rs:124-149 | the block around (3, 4) is (2,3), (3,3), (4,3), (2,4), (3,4), (4,4), (2,5), (3,5), (4,5), in that order |
| SparseExamples.NeighborListWrapsAtTen | src/main_old.rs:94 | the first block entry of (0, 0) is (9, 9), and (5, 0) is not in that block |
| SparseExamples.NewBoardExample | src/main_old.rs:152-157 | a new board of side 10 has no live cells and clock 0 |
| SparseExamples.SetLivingCellsExample | src/main_old.rs:160-170 | after setting (1, 2) and (3, 4), those two are the live cells |
| SparseExamples.SingleCellIndex | src/main_old.rs:174-186 | a single live cell at (2, 2) gives exactly the keys 1, 2 and 3, each mapped to [1, 2, 3] |
| SparseExamples.SharedNeighborCountedTwice | src/main_old.rs:187-196 | with live cells (2, 2) and (3, 3), key 2 maps to [1, 2, 3, 2, 3, 4], so y = 3 appears there twice |
| SparseExamples.TickExample | src/main_old.rs:200-214 | ticking the board with live cells (2, 2) and (3, 3) sets the clock to 1 and leaves those two cells as the live ones |

## Left out

- `print_board`, `generate_board`, `main`, `Coordinates::random` and `Board::randomize`: console output and random numbers. The tests that exercise them are left out too: `can_generate_a_random_board`, the random half of `test_get_coordinates`, and `can_create_a_board_with_x_living_cells`.
- `living_neighbors_count` recovers the side of the board as the truncated floating-point square root of its length. The model passes the side `n` explicitly and requires `|board| == n * n`. Non-square boards are not modelled.
- `will_be_alive` in `src/main_old.rs` does not compile (it names an undefined variable) and nothing calls it.
- Integer width: the model uses unbounded integers. It does not model `i32` overflow of the cell index `row * n + col`, of `clock += 1` in `Board::tick`, or of `x + j` and `y + i` in `Coordinates::neighbors`. The cast `n as u32` in `advance_board` is lossless, because the count lies in [0, 8].
- Rust's `/` and `%` truncate toward zero, while Dafny's are Euclidean. They agree on the non-negative operands the dense engine divides: `ix` and the board side. `rem_euclid(10)` in the draft is Dafny's `%` exactly.
- `HashMap` is a Dafny `map`. The order in which a `HashMap` is iterated plays no part in any of the draft's results, so it is not modelled.
- SparseDraft.Tick: `can_increment_board_state` (`src/main_old.rs:200-214`) expects ticking to move the live cells to (2, 3) and (3, 2). The code only advances the clock. The model follows the code, and `TickExample` records the live cells the code keeps. The test does not say what rule it intends, so no corrected tick is modelled.
- SparseDraft.Neighbors: `test_can_get_neighbors_from_coordinates` declares a board side of 6, but the block always wraps at the hard-coded 10. The model keeps the constant 10 (`WrapSize`) and ignores the board's side, as the code does.
