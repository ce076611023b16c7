/**
 * Cell geometry of the board image: the image is split into an n x n tiling
 * of equal integer rectangles; single cells and the strip across the border
 * between two neighbouring cells are looked up in that tiling.
 *
 * Images are given by their height and width only, and regions are returned
 * as rectangles (x, y, w, h) instead of pixel slices.
 */
module Geometry {
  import opened Rules

  datatype Rect = Rect(x: int, y: int, w: int, h: int)

  /** The failures of the detector: Python's ZeroDivisionError, ValueError (two kinds) and IndexError. */
  datatype Error = ZeroDivision | OutOfRange | NotAdjacent | IndexError

  datatype Result<T> = Ok(value: T) | Err(error: Error)

  /** Half the thickness of a border strip, and its thickness. */
  const BorderMargin: int := 10
  const BorderThickness: int := 20

  /** Cell (row, col) of the n x n tiling of a height x width image. */
  function CellRect(n: nat, height: nat, width: nat, row: int, col: int): Rect
    requires n > 0
  {
    Rect(col * (width / n), row * (height / n), width / n, height / n)
  }

  /** coords is the n x n tiling of a height x width image. */
  predicate IsTiling(coords: seq<seq<Rect>>, n: nat, height: nat, width: nat)
    requires n > 0
  {
    |coords| == n &&
    forall r :: 0 <= r < n ==>
      |coords[r]| == n && forall c :: 0 <= c < n ==> coords[r][c] == CellRect(n, height, width, r, c)
  }

  predicate InsideImage(rect: Rect, height: nat, width: nat) {
    rect.x >= 0 && rect.y >= 0 && rect.x + rect.w <= width && rect.y + rect.h <= height
  }

  lemma MulMono(a: int, b: int, q: nat)
    requires a <= b
    ensures a * q <= b * q
  {
  }

  /**
   * Every cell of the tiling lies inside the image, and neighbouring cells
   * abut: the next column starts where a cell ends, and so does the next row.
   */
  lemma CellInsideImage(n: nat, height: nat, width: nat, row: int, col: int)
    requires n > 0 && 0 <= row < n && 0 <= col < n
    ensures InsideImage(CellRect(n, height, width, row, col), height, width)
    ensures CellRect(n, height, width, row, col + 1).x == CellRect(n, height, width, row, col).x + width / n
    ensures CellRect(n, height, width, row + 1, col).y == CellRect(n, height, width, row, col).y + height / n
  {
    MulMono(0, col, width / n);
    MulMono(0, row, height / n);
    MulMono(col + 1, n, width / n);
    MulMono(row + 1, n, height / n);
    assert n * (width / n) <= width;
    assert n * (height / n) <= height;
  }

  /** The tiling covers the image up to a strip narrower than n pixels on the right and at the bottom. */
  lemma TilingCoverage(n: nat, height: nat, width: nat)
    requires n > 0
    ensures CellRect(n, height, width, 0, n - 1).x + CellRect(n, height, width, 0, n - 1).w <= width
    ensures width - (CellRect(n, height, width, 0, n - 1).x + CellRect(n, height, width, 0, n - 1).w) < n
    ensures CellRect(n, height, width, n - 1, 0).y + CellRect(n, height, width, n - 1, 0).h <= height
    ensures height - (CellRect(n, height, width, n - 1, 0).y + CellRect(n, height, width, n - 1, 0).h) < n
  {
    assert (n - 1) * (width / n) + width / n == n * (width / n);
    assert (n - 1) * (height / n) + height / n == n * (height / n);
    assert width == n * (width / n) + width % n;
    assert height == n * (height / n) + height % n;
  }

  /**
   * Splits a height x width image into gridSize rows of gridSize cells each.
   * A grid size of 0 fails with a division by zero, as the integer division
   * does; a negative one yields no rows, as the empty range does.
   */
  method DetectGrid(gridSize: int, height: nat, width: nat) returns (res: Result<seq<seq<Rect>>>)
    ensures res.Err? <==> gridSize == 0
    ensures res.Err? ==> res.error == ZeroDivision
    ensures res.Ok? && gridSize < 0 ==> res.value == []
    ensures res.Ok? && gridSize > 0 ==> IsTiling(res.value, gridSize, height, width)
    ensures res.Ok? ==>
              forall r, c :: 0 <= r < |res.value| && 0 <= c < |res.value[r]| ==> InsideImage(res.value[r][c], height, width)
  {
    if gridSize == 0 {
      return Err(ZeroDivision);
    }
    if gridSize < 0 {
      return Ok([]);
    }
    var cellWidth := width / gridSize;
    var cellHeight := height / gridSize;

    var gridCoords: seq<seq<Rect>> := [];
    for row := 0 to gridSize
      invariant |gridCoords| == row
      invariant forall r :: 0 <= r < row ==>
                  |gridCoords[r]| == gridSize &&
                  forall c :: 0 <= c < gridSize ==> gridCoords[r][c] == CellRect(gridSize, height, width, r, c)
    {
      var rowCoords: seq<Rect> := [];
      for col := 0 to gridSize
        invariant |rowCoords| == col
        invariant forall c :: 0 <= c < col ==> rowCoords[c] == CellRect(gridSize, height, width, row, c)
      {
        var x := col * cellWidth;
        var y := row * cellHeight;
        rowCoords := rowCoords + [Rect(x, y, cellWidth, cellHeight)];
      }
      gridCoords := gridCoords + [rowCoords];
    }
    forall r, c | 0 <= r < gridSize && 0 <= c < gridSize
      ensures InsideImage(gridCoords[r][c], height, width)
    {
      CellInsideImage(gridSize, height, width, r, c);
    }
    return Ok(gridCoords);
  }

  /**
   * Looks up cell (row, col): out of range unless 0 <= row < number of rows
   * and 0 <= col < length of the first row. A shorter row further down fails
   * on indexing.
   */
  function GetCellRect(coords: seq<seq<Rect>>, row: int, col: int): (res: Result<Rect>)
    ensures res == Err(OutOfRange) <==> !(0 <= row < |coords| && 0 <= col < |coords[0]|)
    ensures res.Ok? <==> 0 <= row < |coords| && 0 <= col < |coords[0]| && col < |coords[row]|
    ensures res.Ok? ==> res.value == coords[row][col]
  {
    if 0 <= row < |coords| && 0 <= col < |coords[0]| then
      if col < |coords[row]| then Ok(coords[row][col]) else Err(IndexError)
    else
      Err(OutOfRange)
  }

  /** On a tiling, a cell lookup succeeds exactly for indices on the board and yields a cell inside the image. */
  lemma CellLookupOnTiling(coords: seq<seq<Rect>>, n: nat, height: nat, width: nat, row: int, col: int)
    requires n > 0 && IsTiling(coords, n, height, width)
    ensures GetCellRect(coords, row, col).Ok? <==> 0 <= row < n && 0 <= col < n
    ensures GetCellRect(coords, row, col).Ok? ==>
              GetCellRect(coords, row, col).value == CellRect(n, height, width, row, col) &&
              InsideImage(GetCellRect(coords, row, col).value, height, width)
  {
    if 0 <= row < n && 0 <= col < n {
      CellInsideImage(n, height, width, row, col);
    }
  }

  /** Python list indexing: negative indices count from the end. */
  function PyGet<T>(s: seq<T>, i: int): (res: Result<T>)
    ensures res.Ok? <==> -|s| <= i < |s|
    ensures 0 <= i < |s| ==> res == Ok(s[i])
    ensures -|s| <= i < 0 ==> res == Ok(s[|s| + i])
    ensures res.Err? ==> res.error == IndexError
  {
    if 0 <= i < |s| then Ok(s[i])
    else if -|s| <= i < 0 then Ok(s[|s| + i])
    else Err(IndexError)
  }

  function Abs(x: int): nat {
    if x < 0 then -x else x
  }

  /** Orthogonal neighbours: Manhattan distance exactly 1. */
  predicate Adjacent(p: Pos, q: Pos) {
    Abs(p.row - q.row) + Abs(p.col - q.col) == 1
  }

  /**
   * The strip across the border between pos1 and pos2, which must be
   * orthogonal neighbours. It is built from pos1's cell alone: a strip on
   * pos1's right edge when the rows agree, on its bottom edge otherwise.
   */
  function GetBorderRect(coords: seq<seq<Rect>>, pos1: Pos, pos2: Pos): (res: Result<Rect>)
    ensures res == Err(NotAdjacent) <==> !Adjacent(pos1, pos2)
  {
    if !Adjacent(pos1, pos2) then Err(NotAdjacent)
    else
      match PyGet(coords, pos1.row)
      case Err(e) => Err(e)
      case Ok(line) =>
        match PyGet(line, pos1.col)
        case Err(e) => Err(e)
        case Ok(cell) =>
          if pos1.row == pos2.row then
            Ok(Rect(cell.x + cell.w - BorderMargin, cell.y, BorderThickness, cell.h))
          else
            Ok(Rect(cell.x, cell.y + cell.h - BorderMargin, cell.w, BorderThickness))
  }

  /**
   * On a tiling, the strip between a cell and its right (or lower) neighbour
   * is centred on their shared edge and spans the neighbour's side.
   */
  lemma BorderOnSharedEdge(coords: seq<seq<Rect>>, n: nat, height: nat, width: nat, pos1: Pos, pos2: Pos)
    requires n > 0 && IsTiling(coords, n, height, width)
    requires 0 <= pos1.row < n && 0 <= pos1.col < n && 0 <= pos2.row < n && 0 <= pos2.col < n
    requires (pos2 == Pos(pos1.row, pos1.col + 1)) || (pos2 == Pos(pos1.row + 1, pos1.col))
    ensures GetBorderRect(coords, pos1, pos2).Ok?
    ensures var b, cell := GetBorderRect(coords, pos1, pos2).value, CellRect(n, height, width, pos2.row, pos2.col);
            if pos1.row == pos2.row then
              b.x + BorderMargin == cell.x && b.y == cell.y && b.h == cell.h && b.w == BorderThickness
            else
              b.y + BorderMargin == cell.y && b.x == cell.x && b.w == cell.w && b.h == BorderThickness
  {
    CellInsideImage(n, height, width, pos1.row, pos1.col);
  }

  /**
   * The strip depends on pos2 only through whether it shares pos1's row: the
   * left and the right neighbour (or the upper and the lower one) get the
   * same strip, on pos1's right (or bottom) edge.
   */
  lemma BorderIgnoresSide(coords: seq<seq<Rect>>, pos1: Pos, pos2: Pos, pos3: Pos)
    requires Adjacent(pos1, pos2) && Adjacent(pos1, pos3)
    requires (pos2.row == pos1.row) == (pos3.row == pos1.row)
    ensures GetBorderRect(coords, pos1, pos2) == GetBorderRect(coords, pos1, pos3)
  {
  }
}
