/**
 * The Tango solver object: a 6x6 board updated in place, the registered
 * constraints and fixed pieces, the three validity checks, the acceptance
 * test and the recursive backtracking search.
 */
module Solver {
  import opened Rules
  import opened Backtracking

  /** Position of a piece's counter in the two-slot count lists (moon 0, sun 1). */
  function Index(k: Cell): nat
    requires k != Empty
  {
    if k == Moon then 0 else 1
  }

  /** The two counters of a line prefix, as the solver keeps them. */
  function Counts(s: seq<Cell>): seq<int> {
    [Count(s, Moon), Count(s, Sun)]
  }

  /** Bumping the counter of the next cell's piece counts one cell further. */
  lemma Bump(counts: seq<int>, s: seq<Cell>, j: int)
    requires 0 <= j < |s| && s[j] != Empty && counts == Counts(s[..j])
    ensures counts[Index(s[j]) := counts[Index(s[j])] + 1] == Counts(s[..j + 1])
  {
    CountSnoc(s, j, Moon);
    CountSnoc(s, j, Sun);
  }

  /** An empty cell leaves the counters as they are. */
  lemma Skip(counts: seq<int>, s: seq<Cell>, j: int)
    requires 0 <= j < |s| && s[j] == Empty && counts == Counts(s[..j])
    ensures counts == Counts(s[..j + 1])
  {
    CountSnoc(s, j, Moon);
    CountSnoc(s, j, Sun);
  }

  /** A 6x6 array read as a board value, row by row. */
  function ArrayBoard(a: array2<Cell>): (g: Board)
    reads a
    requires a.Length0 == Size && a.Length1 == Size
    ensures WellFormed(g)
    ensures forall r, c :: 0 <= r < Size && 0 <= c < Size ==> g[r][c] == a[r, c]
  {
    seq(Size, r requires 0 <= r < Size reads a =>
      seq(Size, c requires 0 <= c < Size reads a => a[r, c]))
  }

  /** Writing one cell of the array places that cell on the board value. */
  lemma OneCellWritten(a: array2<Cell>, before: Board, p: Pos)
    requires a.Length0 == Size && a.Length1 == Size && InBounds(p) && WellFormed(before)
    requires forall r, c :: 0 <= r < Size && 0 <= c < Size && (r != p.row || c != p.col) ==>
               a[r, c] == before[r][c]
    ensures ArrayBoard(a) == Place(before, p, a[p.row, p.col])
  {
    BoardExt(ArrayBoard(a), Place(before, p, a[p.row, p.col]));
  }

  class TangoSolver {
    const board: array2<Cell>
    var constraints: seq<Constraint>
    var fixedPieces: seq<FixedPiece>

    /** The board array is 6x6 (it is never replaced, so this needs no reads). */
    predicate Shaped() {
      board.Length0 == Size && board.Length1 == Size
    }

    ghost predicate Valid()
      reads this
    {
      Shaped() && ValidConstraints(constraints)
    }

    /** The board as a value: a copy of the array, row by row. */
    function Contents(): (g: Board)
      reads board
      requires Shaped()
    {
      ArrayBoard(board)
    }

    /** A fresh solver: an all-empty board, no constraints, no fixed pieces. */
    constructor ()
      ensures Valid() && fresh(board)
      ensures forall r, c :: 0 <= r < Size && 0 <= c < Size ==> Contents()[r][c] == Empty
      ensures constraints == [] && fixedPieces == []
    {
      board := new Cell[Size, Size]((r, c) => Empty);
      constraints := [];
      fixedPieces := [];
    }

    /** Registers a constraint verbatim; the board and the fixed pieces are untouched. */
    method AddConstraint(tag: Tag, pos1: Pos, pos2: Pos)
      requires Valid() && WellPlaced(Constraint(tag, pos1, pos2))
      modifies this
      ensures Valid()
      ensures constraints == old(constraints) + [Constraint(tag, pos1, pos2)]
      ensures fixedPieces == old(fixedPieces)
      ensures Contents() == old(Contents())
    {
      constraints := constraints + [Constraint(tag, pos1, pos2)];
    }

    /**
     * Writes one cell and records the piece. Nothing is checked against the
     * rules: a contradictory set of pieces only shows up as a failed search.
     */
    method AddFixedPiece(row: int, col: int, kind: Cell)
      requires Valid() && 0 <= row < Size && 0 <= col < Size
      modifies this, board
      ensures Valid()
      ensures Contents() == Place(old(Contents()), Pos(row, col), kind)
      ensures fixedPieces == old(fixedPieces) + [FixedPiece(row, col, kind)]
      ensures constraints == old(constraints)
    {
      ghost var g := Contents();
      board[row, col] := kind;
      fixedPieces := fixedPieces + [FixedPiece(row, col, kind)];
      OneCellWritten(board, g, Pos(row, col));
    }

    /** Runs the three checks on a copy of the board with kind placed at (row, col). */
    method IsValidPlacement(row: int, col: int, kind: Cell) returns (ok: bool)
      requires Valid() && 0 <= row < Size && 0 <= col < Size
      ensures ok == ValidPlacement(constraints, Contents(), Pos(row, col), kind)
    {
      var temp := Contents();
      temp := temp[row := temp[row][col := kind]];
      assert temp == Place(Contents(), Pos(row, col), kind);
      ok := CheckRowColumn(temp, row, col);
      if !ok {
        return;
      }
      ok := CheckNoThreeConsecutive(temp, row, col);
      if !ok {
        return;
      }
      ok := CheckEqualityConstraints(temp, row, col);
    }

    /** Balance check: row `row` and column `col` each hold at most 3 moons and 3 suns. */
    method CheckRowColumn(b: Board, row: int, col: int) returns (ok: bool)
      requires WellFormed(b) && 0 <= row < Size && 0 <= col < Size
      ensures ok == BalanceOk(b, Pos(row, col))
    {
      var line := b[row];
      var rowCount := [0, 0];
      for c := 0 to Size
        invariant rowCount == Counts(line[..c])
      {
        if line[c] != Empty {
          Bump(rowCount, line, c);
          var i := Index(line[c]);
          rowCount := rowCount[i := rowCount[i] + 1];
        } else {
          Skip(rowCount, line, c);
        }
      }
      assert line[..Size] == line;

      ghost var column := Column(b, col);
      var colCount := [0, 0];
      for r := 0 to Size
        invariant colCount == Counts(column[..r])
      {
        if b[r][col] != Empty {
          Bump(colCount, column, r);
          var i := Index(b[r][col]);
          colCount := colCount[i := colCount[i] + 1];
        } else {
          Skip(colCount, column, r);
        }
      }
      assert column[..Size] == column;

      var counts := rowCount + colCount;
      ok := forall i :: 0 <= i < |counts| ==> counts[i] <= 3;
      assert ok <==> counts[0] <= 3 && counts[1] <= 3 && counts[2] <= 3 && counts[3] <= 3;
    }

    /**
     * No-three check: no length-3 window of row `row` or column `col` that
     * contains the cell holds three copies of the cell's piece. The window
     * starts are clipped to the board.
     */
    method CheckNoThreeConsecutive(b: Board, row: int, col: int) returns (ok: bool)
      requires WellFormed(b) && 0 <= row < Size && 0 <= col < Size
      ensures ok == NoThreeOk(b, Pos(row, col))
    {
      var kind := b[row][col];
      var p := Pos(row, col);
      var lo := if col - 2 > 0 then col - 2 else 0;
      var hi := if Size - 2 < col + 1 then Size - 2 else col + 1;
      for startCol := lo to hi
        invariant forall s :: lo <= s < startCol ==> !AllOf(b, RowWindow(row, s), kind)
      {
        if b[row][startCol] == kind && b[row][startCol + 1] == kind && b[row][startCol + 2] == kind {
          assert AllOf(b, RowWindow(row, startCol), kind) && Covers(RowWindow(row, startCol), p);
          return false;
        }
      }
      lo := if row - 2 > 0 then row - 2 else 0;
      hi := if Size - 2 < row + 1 then Size - 2 else row + 1;
      for startRow := lo to hi
        invariant forall s :: lo <= s < startRow ==> !AllOf(b, ColWindow(col, s), kind)
      {
        if b[startRow][col] == kind && b[startRow + 1][col] == kind && b[startRow + 2][col] == kind {
          assert AllOf(b, ColWindow(col, startRow), kind) && Covers(ColWindow(col, startRow), p);
          return false;
        }
      }
      // every window containing the cell starts inside the clipped ranges
      forall w | ValidWindow(w) && Covers(w, p)
        ensures !AllOf(b, w, kind)
      {
        match w
        case RowWindow(_, s) =>
          assert (if col - 2 > 0 then col - 2 else 0) <= s < (if Size - 2 < col + 1 then Size - 2 else col + 1);
        case ColWindow(_, s) =>
      }
      return true;
    }

    /** Pairwise check: every registered constraint with both ends filled holds. */
    method CheckEqualityConstraints(b: Board, row: int, col: int) returns (ok: bool)
      requires Valid() && WellFormed(b)
      ensures ok == ConstraintsOk(constraints, b)
    {
      for i := 0 to |constraints|
        invariant forall j :: 0 <= j < i ==> Holds(constraints[j], b)
      {
        var Constraint(tag, pos1, pos2) := constraints[i];
        if b[pos1.row][pos1.col] != Empty && b[pos2.row][pos2.col] != Empty {
          if tag == Eq {
            if b[pos1.row][pos1.col] != b[pos2.row][pos2.col] {
              return false;
            }
          } else if tag == Neq {
            if b[pos1.row][pos1.col] == b[pos2.row][pos2.col] {
              return false;
            }
          }
        }
      }
      return true;
    }

    /** Acceptance test: no empty cell, and every row and column splits 3/3. */
    method IsComplete() returns (complete: bool)
      requires Valid()
      ensures complete == Complete(Contents())
    {
      var g := Contents();
      for r := 0 to Size
        invariant forall r', c :: 0 <= r' < r && 0 <= c < Size ==> g[r'][c] != Empty
      {
        if Empty in g[r] {
          return false;
        }
      }
      assert Full(g);
      for i := 0 to Size
        invariant forall i' :: 0 <= i' < i ==> Balanced(g[i']) && Balanced(Column(g, i'))
      {
        ghost var line, column := g[i], Column(g, i);
        var rowCount, colCount := [0, 0], [0, 0];
        for j := 0 to Size
          invariant rowCount == Counts(line[..j])
          invariant colCount == Counts(column[..j])
        {
          Bump(rowCount, line, j);
          Bump(colCount, column, j);
          var a := Index(g[i][j]);
          rowCount := rowCount[a := rowCount[a] + 1];
          var d := Index(g[j][i]);
          colCount := colCount[d := colCount[d] + 1];
        }
        assert line[..Size] == line && column[..Size] == column;
        if rowCount != [3, 3] || colCount != [3, 3] {
          return false;
        }
      }
      return true;
    }

    /** The scan of the search: the first empty cell in row-major order, if any. */
    method FindFirstEmpty() returns (cell: Option<Pos>)
      requires Shaped()
      ensures cell == FirstEmpty(Contents())
    {
      ghost var g := Contents();
      for row := 0 to Size
        invariant forall r, c :: 0 <= r < row && 0 <= c < Size ==> g[r][c] != Empty
      {
        for col := 0 to Size
          invariant forall r, c :: 0 <= r < Size && 0 <= c < Size && Before(r, c, row, col) ==> g[r][c] != Empty
        {
          if board[row, col] == Empty {
            FirstEmptyIs(g, Pos(row, col));
            return Some(Pos(row, col));
          }
        }
      }
      FirstEmptyNone(g);
      return None;
    }

    /**
     * Depth-first search: the first empty cell in row-major order gets a moon,
     * then a sun, each only if the placement is valid; a failed branch resets
     * the cell to empty. With no empty cell left the result is IsComplete().
     */
    method Backtrack() returns (solved: bool)
      requires Valid()
      modifies board
      ensures Valid()
      ensures solved == Search(constraints, old(Contents())).Some?
      ensures solved ==> Contents() == Search(constraints, old(Contents())).value
      ensures !solved ==> Contents() == old(Contents())
      decreases EmptyCells(Contents()), 1
    {
      ghost var g := Contents();
      var cell := FindFirstEmpty();
      if cell.None? {
        SearchOnFull(constraints, g);
        solved := IsComplete();
        return;
      }
      var p := cell.value;
      SearchAt(constraints, g, p);
      var kinds := [Moon, Sun];
      for i := 0 to |kinds|
        invariant Contents() == g
        invariant 1 <= i ==> Attempt(constraints, g, p, Moon).None?
        invariant 2 <= i ==> Attempt(constraints, g, p, Sun).None?
      {
        var done := TryPiece(p, kinds[i]);
        if done {
          return true;
        }
      }
      return false;
    }

    /**
     * One pass of the search's loop over piece kinds at the empty cell p:
     * place kind if the placement is valid and search on; if that fails,
     * reset the cell to empty.
     */
    method TryPiece(p: Pos, kind: Cell) returns (done: bool)
      requires Valid() && InBounds(p) && At(Contents(), p) == Empty && kind != Empty
      modifies board
      ensures Valid()
      ensures done == Attempt(constraints, old(Contents()), p, kind).Some?
      ensures done ==> Contents() == Attempt(constraints, old(Contents()), p, kind).value
      ensures !done ==> Contents() == old(Contents())
      decreases EmptyCells(Contents()), 0
    {
      ghost var g := Contents();
      var valid := IsValidPlacement(p.row, p.col, kind);
      if !valid {
        AttemptRejected(constraints, g, p, kind);
        return false;
      }
      board[p.row, p.col] := kind;
      OneCellWritten(board, g, p);
      ghost var t := Place(g, p, kind);
      PlaceFills(g, p, kind);
      AttemptValid(constraints, g, p, kind);
      done := Backtrack();
      if !done {
        board[p.row, p.col] := Empty;
        OneCellWritten(board, t, p);
        BoardExt(Place(t, p, Empty), g);
      }
    }

    /**
     * Solves the puzzle in place. On success the board is complete, keeps
     * every piece it had, has no run of three through a searched cell and, if
     * anything was searched, satisfies every constraint; on failure the board
     * is as before and no solution keeping its pieces exists.
     */
    method Solve() returns (solved: bool)
      requires Valid()
      modifies board
      ensures Valid()
      ensures solved == Search(constraints, old(Contents())).Some?
      ensures solved ==> Contents() == Search(constraints, old(Contents())).value
      ensures solved ==> Complete(Contents()) && KeepsPieces(old(Contents()), Contents())
      ensures solved ==> forall w :: ValidWindow(w) && TouchesEmpty(old(Contents()), w) ==> !IsRun(Contents(), w)
      ensures solved && EmptyCells(old(Contents())) != {} ==> ConstraintsOk(constraints, Contents())
      ensures !solved ==> Contents() == old(Contents())
      ensures !solved ==> forall h :: !IsSolution(constraints, old(Contents()), h)
    {
      ghost var g := Contents();
      solved := Backtrack();
      if solved {
        SearchSound(constraints, g);
        SearchNoRunThroughFilledCell(constraints, g);
        if EmptyCells(g) != {} {
          SearchSatisfiesConstraints(constraints, g);
        }
      } else {
        forall h | IsSolution(constraints, g, h)
          ensures false
        {
          SearchFindsSolution(constraints, g, h);
        }
      }
    }
  }
}
