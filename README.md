# Tango solver: a verified model

This project models the core of a solver for LinkedIn's Tango puzzle. The puzzle is a 6x6 board. Each cell holds a moon, a sun, or nothing. Pairs of neighbouring cells carry `=` (same kind) or `x` (different kinds) clues. A solved board has:

- three moons and three suns in every row and every column;
- no three equal pieces in a row, horizontally or vertically;
- every clue satisfied.

The model covers two parts of the repository.

- **`TangoSolver`** (`src/tango_solver.py`) holds the board, the registered clues and the fixed pieces, and fills the board by depth-first backtracking.
  - `rules.dfy` (module `Rules`) states the rules as predicates on boards, which are values of type `seq<seq<Cell>>`.
  - `backtracking.dfy` (module `Backtracking`) states the search as a pure ghost function `Search`. It proves that function sound, complete, and correct about clues and runs.
  - `solver.dfy` (module `Solver`) is the class itself.
    - The board is a 6x6 `array2<Cell>` that the search writes and resets in place.
    - The checkers and `IsComplete` are loops proved equal to the rule predicates.
    - `Backtrack` is a recursive method proved to return exactly what `Search` returns. On success it leaves that board; on failure it leaves the board as it was.
- **Cell geometry** (`src/grid_detector.py`, module `Geometry` in `geometry.dfy`).
  - The image is split into an n x n tiling of equal integer rectangles.
  - A single cell is looked up with a range check.
  - A strip across the border between two orthogonal neighbours is computed.
  - Images are given by their height and width. Regions are rectangles `(x, y, w, h)`.

Python's piece values `None`, `0` and `1` become `Empty`, `Moon` and `Sun`. The clue symbols `'='` and `'x'` become the tags `Eq` and `Neq`. Any other symbol becomes `Other`, which the pairwise check ignores, just as the source does.

Five behaviours of the source are modelled as they are:

- The pairwise check scans every registered clue on the board, not only the clues touching the placed cell.
- The search always fills the first empty cell in row-major order and tries a moon before a sun.
- Runs of three made only of starting pieces are never checked, whether or not other cells are empty, because each check only looks at windows through the cell just placed. `TangoSolver.Solve` promises no run only through cells that were empty at the start.
- When no cell is empty at the start, `solve` only runs the completeness test, so no clue is checked either. `TangoSolver.Solve` promises satisfied clues only when some cell was empty at the start.
- `get_border_region` builds the strip from the first cell alone. For a left or upper neighbour, the strip therefore lies on the far edge of the first cell (`Geometry.BorderIgnoresSide`). For a right or lower neighbour, the strip sits on the shared edge (`Geometry.BorderOnSharedEdge`).

## Model

| member | source | states |
|---|---|---|
| Rules.Place | src/tango_solver.py:27-28 | the copied board differs from the original only at the one cell set to the given kind |
| Rules.PlaceFills | src/tango_solver.py:106-112 | filling an empty cell removes exactly that cell from the set of empty cells, so each recursion has one fewer empty cell |
| Rules.SolutionPlacementValid | src/tango_solver.py:26-80 | the three checks never reject placing, at an empty cell, the kind that some solution keeping the current pieces has there |
| Rules.OverfullRowUnsolvable | src/tango_solver.py:82-98 | a row holding more than three of one kind cannot be completed by any board that keeps its pieces |
| Backtracking.FirstEmptyIs | src/tango_solver.py:104-106 | the scan yields the empty cell that has no empty cell before it in row-major order |
| Backtracking.FirstEmptyNone | src/tango_solver.py:104-119 | on a board with no empty cell the scan finds nothing |
| Backtracking.FullIffNoEmptyCells | src/tango_solver.py:83-85 | a board has no empty cell exactly when its set of empty cells is empty |
| Backtracking.Search | src/tango_solver.py:103-119 | the reference search: any board it returns is 6x6 |
| Backtracking.Attempt | src/tango_solver.py:108-115 | one try of a kind at the first empty cell: rejected unless the placement is valid, otherwise the search on the board with the piece placed |
| Backtracking.SearchAt | src/tango_solver.py:104-117 | at the first empty cell the search tries a moon, and a sun only if the moon fails |
| Backtracking.SearchOnFull | src/tango_solver.py:119 | with no empty cell the search returns the board when it is complete and fails otherwise |
| Backtracking.AttemptValid | src/tango_solver.py:109-113 | a valid placement continues the search on the board with that piece placed |
| Backtracking.AttemptRejected | src/tango_solver.py:109 | an invalid placement fails without searching further |
| Backtracking.SearchStep | src/tango_solver.py:104-113 | a successful search made a valid placement at the first empty cell, the rest of the search succeeded with the same board, and exactly that cell left the set of empty cells |
| Backtracking.SearchSound | src/tango_solver.py:100-119 | a board found by the search is complete (no empty cell, three of each kind in every row and column) and keeps every piece of the starting board |
| Backtracking.SearchSatisfiesConstraints | src/tango_solver.py:67-80 | if the starting board had an empty cell, every `=` and `x` clue holds on the board found |
| Backtracking.SearchNoRunThroughFilledCell | src/tango_solver.py:54-65 | on the board found, no three equal pieces in a row or column cover a cell that was empty at the start |
| Backtracking.OverfullRowFails | src/tango_solver.py:41-52 | a starting row with four or more pieces of one kind makes the search fail |
| Backtracking.EmptyBoardSolvable | src/tango_solver.py:13-17 | from a new solver's all-empty board with no clues the search succeeds, since an explicit solution exists |
| Backtracking.SearchFindsSolution | src/tango_solver.py:103-119 | whenever a complete board exists that keeps the starting pieces, satisfies every clue and has no three equal pieces in a row, the search succeeds |
| Solver.TangoSolver.constructor | src/tango_solver.py:13-17 | a new solver has an all-empty 6x6 board and no clues or fixed pieces |
| Solver.TangoSolver.AddConstraint | src/tango_solver.py:19-20 | the clue is appended unchanged; the board and the fixed pieces are untouched |
| Solver.TangoSolver.AddFixedPiece | src/tango_solver.py:22-24 | exactly the one cell is set to the given kind and the piece is appended; nothing is checked and the clues are untouched |
| Solver.TangoSolver.IsValidPlacement | src/tango_solver.py:26-39 | the answer is the conjunction of the balance, no-three and clue rules on the board with the piece placed; the solver's board is not modified |
| Solver.TangoSolver.CheckRowColumn | src/tango_solver.py:41-52 | passes exactly when the cell's row and its column each hold at most three moons and at most three suns, empty cells not counted |
| Solver.TangoSolver.CheckNoThreeConsecutive | src/tango_solver.py:54-65 | passes exactly when no horizontal or vertical window of three cells that covers the cell (clipped at the edges) is entirely of the cell's kind |
| Solver.TangoSolver.CheckEqualityConstraints | src/tango_solver.py:67-80 | passes exactly when every registered clue with both ends filled holds: equal kinds for `=`, different kinds for `x`, any other tag ignored |
| Solver.TangoSolver.IsComplete | src/tango_solver.py:82-98 | true exactly when no cell is empty and every row and every column holds three moons and three suns |
| Solver.TangoSolver.FindFirstEmpty | src/tango_solver.py:104-106 | returns the first empty cell in row-major order, or nothing when the board is full |
| Solver.TangoSolver.Backtrack | src/tango_solver.py:103-119 | succeeds exactly when the reference search does; on success the board is the search's result, on failure the board is as before |
| Solver.TangoSolver.TryPiece | src/tango_solver.py:108-115 | one try of a kind at the empty cell: succeeds exactly when the reference try does, leaves its board on success, and resets the cell on failure |
| Solver.TangoSolver.Solve | src/tango_solver.py:100-101 | succeeds exactly when the reference search does and leaves exactly the search's board (first empty cell in row-major order, moon before sun), which is complete, keeps every earlier piece, has no run of three through a searched cell, and satisfies every clue if some cell was searched; on failure the board is unchanged and no solution keeping its pieces exists |
| Geometry.CellInsideImage | src/grid_detector.py:19-28 | every cell of the tiling lies inside the image, and the next cell to the right or below starts exactly where this one ends |
| Geometry.TilingCoverage | src/grid_detector.py:19-20 | the tiling leaves uncovered only a strip narrower than n pixels at the right and at the bottom |
| Geometry.DetectGrid | src/grid_detector.py:16-31 | n rows of n cells, with cell (r, c) at (c*(width/n), r*(height/n)) of size (width/n, height/n) and inside the image; a grid size of 0 fails with a division by zero and a negative one gives no rows |
| Geometry.GetCellRect | src/grid_detector.py:33-38 | out of range exactly when the row is outside the grid or the column is outside the first row; otherwise the stored cell, or an index error for a shorter row |
| Geometry.CellLookupOnTiling | src/grid_detector.py:33-38 | on a tiling, the lookup succeeds exactly for indices on the board and yields that cell, inside the image |
| Geometry.PyGet | src/grid_detector.py:47 | Python list indexing: indices from -len to len-1 succeed, negative ones counting from the end; others are an index error |
| Geometry.GetBorderRect | src/grid_detector.py:40-60 | fails as not adjacent exactly when the two positions are not orthogonal neighbours |
| Geometry.BorderOnSharedEdge | src/grid_detector.py:47-58 | on a tiling, the strip between a cell and its right (lower) neighbour is 20 pixels thick, starts 10 pixels before the neighbour's left (top) edge, and spans the neighbour's side |
| Geometry.BorderIgnoresSide | src/grid_detector.py:47-58 | the strip depends on the second position only through whether it shares the first one's row |

## Left out

- The printing helpers `print_board_with_constraints`, `print_board`, `print_board_simple` and the `__main__` block of `src/tango_solver.py` only write to the console.
- Image loading, piece and clue classification, the visualizer, the command-line entry point and the tests are not part of this model. They are floating-point image heuristics, library calls and I/O.
- Numpy slicing in `get_cell_image` and `get_border_region` is not modelled. The model returns the rectangle that would be sliced, so negative slice bounds are not interpreted either.
- `GridDetector.__init__` only stores the grid size, which `Geometry.DetectGrid` takes as a parameter. The image's shape is given as its height and width.
- Solver.TangoSolver.AddConstraint: requires both positions on the board. A clue between two on-board cells that are not neighbours is accepted and checked like any other pair, as the source does. Off-board positions are left out. In Python, a negative index from -6 to -1 silently wraps to the other end of the row or column. Any other off-board index raises an index error, but only once some placement is checked; with a full starting board, `solve` goes straight to the completeness test and raises nothing.
- Solver.TangoSolver.AddFixedPiece: requires 0 <= row, col < 6. Python's wrap-around of negative indices and its index error for larger ones are not modelled. Piece values other than `None`, `0` and `1` are not modelled either.
- Solver.TangoSolver.IsValidPlacement: requires 0 <= row, col < 6, for the same reason as `AddFixedPiece`.
- Solver.TangoSolver.Solve: promises satisfied clues only when some cell was empty at the start. This is what the source guarantees: with a full starting board only the completeness test runs.
- The search's loop over piece kinds and its reset are split into `Backtrack` and `TryPiece`. The two methods together do what the single body of `_backtrack` does.
