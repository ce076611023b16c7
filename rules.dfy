/**
 * The Tango board and its rules.
 *
 * A board is a 6x6 grid of cells, each empty or holding a moon or a sun.
 * The predicates here are the specification of the solver's validity checks
 * and of its acceptance test; the solver's methods are proved equal to them.
 */
module Rules {

  /** The board is always 6x6. */
  const Size: nat := 6

  /** A cell: empty (None in the solver), a moon (0) or a sun (1). */
  datatype Cell = Empty | Moon | Sun

  datatype Pos = Pos(row: int, col: int)

  /** Constraint symbols: '=' (must match), 'x' (must differ), anything else. */
  datatype Tag = Eq | Neq | Other

  datatype Constraint = Constraint(tag: Tag, pos1: Pos, pos2: Pos)

  datatype FixedPiece = FixedPiece(row: int, col: int, kind: Cell)

  type Board = seq<seq<Cell>>

  predicate WellFormed(g: Board) {
    |g| == Size && forall r :: 0 <= r < Size ==> |g[r]| == Size
  }

  predicate InBounds(p: Pos) {
    0 <= p.row < Size && 0 <= p.col < Size
  }

  /** Both ends on the board; the two cells need not be neighbours. */
  predicate WellPlaced(k: Constraint) {
    InBounds(k.pos1) && InBounds(k.pos2)
  }

  predicate ValidConstraints(cs: seq<Constraint>) {
    forall i :: 0 <= i < |cs| ==> WellPlaced(cs[i])
  }

  function At(g: Board, p: Pos): Cell
    requires WellFormed(g) && InBounds(p)
  {
    g[p.row][p.col]
  }

  /** The board with one cell overwritten. */
  function Place(g: Board, p: Pos, k: Cell): (h: Board)
    requires WellFormed(g) && InBounds(p)
    ensures WellFormed(h)
    ensures forall r, c :: 0 <= r < Size && 0 <= c < Size ==>
              h[r][c] == if r == p.row && c == p.col then k else g[r][c]
  {
    g[p.row := g[p.row][p.col := k]]
  }

  /** Two boards with the same cells are the same board. */
  lemma BoardExt(g: Board, h: Board)
    requires WellFormed(g) && WellFormed(h)
    requires forall r, c :: 0 <= r < Size && 0 <= c < Size ==> g[r][c] == h[r][c]
    ensures g == h
  {
    forall r | 0 <= r < Size
      ensures g[r] == h[r]
    {
    }
  }

  // ---------------------------------------------------------------------------
  // Empty cells: the measure of the search

  function EmptyCells(g: Board): set<Pos>
    requires WellFormed(g)
  {
    set r, c | 0 <= r < Size && 0 <= c < Size && g[r][c] == Empty :: Pos(r, c)
  }

  /** Filling an empty cell removes exactly that cell from the empty set. */
  lemma PlaceFills(g: Board, p: Pos, k: Cell)
    requires WellFormed(g) && InBounds(p) && At(g, p) == Empty && k != Empty
    ensures p in EmptyCells(g)
    ensures EmptyCells(Place(g, p, k)) == EmptyCells(g) - {p}
  {
    assert p == Pos(p.row, p.col);
    var h := Place(g, p, k);
    forall q | q in EmptyCells(h)
      ensures q in EmptyCells(g) - {p}
    {
    }
    forall q | q in EmptyCells(g) - {p}
      ensures q in EmptyCells(h)
    {
    }
  }

  // ---------------------------------------------------------------------------
  // Counting pieces in a line

  /** Number of cells of kind k in s. */
  function Count(s: seq<Cell>, k: Cell): (n: nat)
    ensures n <= |s|
  {
    if s == [] then 0 else Count(s[..|s| - 1], k) + (if s[|s| - 1] == k then 1 else 0)
  }

  /** Counting a prefix one cell further. */
  lemma CountSnoc(s: seq<Cell>, j: int, k: Cell)
    requires 0 <= j < |s|
    ensures Count(s[..j + 1], k) == Count(s[..j], k) + (if s[j] == k then 1 else 0)
  {
    assert s[..j + 1][..j] == s[..j];
  }

  function Column(g: Board, c: int): (line: seq<Cell>)
    requires WellFormed(g) && 0 <= c < Size
    ensures |line| == Size
    ensures forall r :: 0 <= r < Size ==> line[r] == g[r][c]
  {
    seq(Size, r requires 0 <= r < Size => g[r][c])
  }

  /** Line t holds every piece of line s (t may fill more cells). */
  predicate LineKeeps(s: seq<Cell>, t: seq<Cell>) {
    |s| == |t| && forall i :: 0 <= i < |s| && s[i] != Empty ==> t[i] == s[i]
  }

  /** Filling more cells never lowers the count of a piece kind. */
  lemma {:induction false} CountMono(s: seq<Cell>, t: seq<Cell>, k: Cell)
    requires LineKeeps(s, t) && k != Empty
    ensures Count(s, k) <= Count(t, k)
  {
    if s != [] {
      CountMono(s[..|s| - 1], t[..|t| - 1], k);
    }
  }

  predicate AtMostThree(s: seq<Cell>) {
    Count(s, Moon) <= 3 && Count(s, Sun) <= 3
  }

  predicate Balanced(s: seq<Cell>) {
    Count(s, Moon) == 3 && Count(s, Sun) == 3
  }

  /** Balance rule after a placement at p: its row and column hold at most 3 of each kind. */
  predicate BalanceOk(g: Board, p: Pos)
    requires WellFormed(g) && InBounds(p)
  {
    AtMostThree(g[p.row]) && AtMostThree(Column(g, p.col))
  }

  // ---------------------------------------------------------------------------
  // Windows of three consecutive cells

  /** Three consecutive cells of a row (from column start) or of a column (from row start). */
  datatype Window = RowWindow(line: int, start: int) | ColWindow(line: int, start: int)

  predicate ValidWindow(w: Window) {
    0 <= w.line < Size && 0 <= w.start <= Size - 3
  }

  function WindowPos(w: Window, i: int): Pos {
    match w
    case RowWindow(r, s) => Pos(r, s + i)
    case ColWindow(c, s) => Pos(s + i, c)
  }

  predicate Covers(w: Window, p: Pos) {
    WindowPos(w, 0) == p || WindowPos(w, 1) == p || WindowPos(w, 2) == p
  }

  /** All three cells of w hold k. */
  predicate AllOf(g: Board, w: Window, k: Cell)
    requires WellFormed(g) && ValidWindow(w)
  {
    At(g, WindowPos(w, 0)) == k && At(g, WindowPos(w, 1)) == k && At(g, WindowPos(w, 2)) == k
  }

  /** Three equal pieces in a row. */
  predicate IsRun(g: Board, w: Window)
    requires WellFormed(g) && ValidWindow(w)
  {
    At(g, WindowPos(w, 0)) != Empty && AllOf(g, w, At(g, WindowPos(w, 0)))
  }

  ghost predicate NoRuns(g: Board)
    requires WellFormed(g)
  {
    forall w :: ValidWindow(w) ==> !IsRun(g, w)
  }

  /** No window containing p holds three copies of p's own cell. */
  ghost predicate NoThreeOk(g: Board, p: Pos)
    requires WellFormed(g) && InBounds(p)
  {
    forall w :: ValidWindow(w) && Covers(w, p) ==> !AllOf(g, w, At(g, p))
  }

  // ---------------------------------------------------------------------------
  // Pairwise constraints

  /** A constraint holds unless both ends are filled and the relation is broken. */
  predicate Holds(k: Constraint, g: Board)
    requires WellFormed(g) && InBounds(k.pos1) && InBounds(k.pos2)
  {
    var a, b := At(g, k.pos1), At(g, k.pos2);
    a != Empty && b != Empty ==>
      match k.tag
      case Eq => a == b
      case Neq => a != b
      case Other => true
  }

  /** Every registered constraint holds, wherever it is on the board. */
  predicate ConstraintsOk(cs: seq<Constraint>, g: Board)
    requires WellFormed(g) && ValidConstraints(cs)
  {
    forall i :: 0 <= i < |cs| ==> Holds(cs[i], g)
  }

  /** The three checks the solver runs on a copy of g with k placed at p. */
  ghost predicate ValidPlacement(cs: seq<Constraint>, g: Board, p: Pos, k: Cell)
    requires WellFormed(g) && InBounds(p) && ValidConstraints(cs)
  {
    var t := Place(g, p, k);
    BalanceOk(t, p) && NoThreeOk(t, p) && ConstraintsOk(cs, t)
  }

  // ---------------------------------------------------------------------------
  // Completion and solutions

  predicate Full(g: Board)
    requires WellFormed(g)
  {
    forall r, c :: 0 <= r < Size && 0 <= c < Size ==> g[r][c] != Empty
  }

  /** The acceptance test: no empty cell and every row and column splits 3/3. */
  predicate Complete(g: Board)
    requires WellFormed(g)
  {
    Full(g) && forall i :: 0 <= i < Size ==> Balanced(g[i]) && Balanced(Column(g, i))
  }

  /** h holds every piece that g holds. */
  predicate KeepsPieces(g: Board, h: Board)
    requires WellFormed(g) && WellFormed(h)
  {
    forall r, c :: 0 <= r < Size && 0 <= c < Size && g[r][c] != Empty ==> h[r][c] == g[r][c]
  }

  /** A genuine solution of the puzzle given by the pieces of g and the constraints cs. */
  ghost predicate IsSolution(cs: seq<Constraint>, g: Board, h: Board)
    requires WellFormed(g) && ValidConstraints(cs)
  {
    WellFormed(h) && KeepsPieces(g, h) && Complete(h) && NoRuns(h) && ConstraintsOk(cs, h)
  }

  lemma KeepsRow(g: Board, h: Board, r: int)
    requires WellFormed(g) && WellFormed(h) && KeepsPieces(g, h) && 0 <= r < Size
    ensures LineKeeps(g[r], h[r])
  {
  }

  lemma KeepsColumn(g: Board, h: Board, c: int)
    requires WellFormed(g) && WellFormed(h) && KeepsPieces(g, h) && 0 <= c < Size
    ensures LineKeeps(Column(g, c), Column(h, c))
  {
  }

  /**
   * The per-placement checks never reject a step towards a genuine solution:
   * placing the solution's own piece on an empty cell passes all three checks.
   */
  lemma {:induction false} SolutionPlacementValid(cs: seq<Constraint>, g: Board, h: Board, p: Pos)
    requires WellFormed(g) && ValidConstraints(cs) && InBounds(p) && At(g, p) == Empty
    requires IsSolution(cs, g, h)
    ensures ValidPlacement(cs, g, p, At(h, p))
  {
    var k := At(h, p);
    var t := Place(g, p, k);
    assert KeepsPieces(t, h);
    // balance: counts can only grow towards h's, which are exactly 3
    KeepsRow(t, h, p.row);
    KeepsColumn(t, h, p.col);
    CountMono(t[p.row], h[p.row], Moon);
    CountMono(t[p.row], h[p.row], Sun);
    CountMono(Column(t, p.col), Column(h, p.col), Moon);
    CountMono(Column(t, p.col), Column(h, p.col), Sun);
    assert Balanced(h[p.row]) && Balanced(Column(h, p.col));
    // no three: a window of three k's in t is one in h
    forall w | ValidWindow(w) && Covers(w, p)
      ensures !AllOf(t, w, k)
    {
      assert !IsRun(h, w);
    }
    // constraints: filled ends of t agree with h
    forall i | 0 <= i < |cs|
      ensures Holds(cs[i], t)
    {
      assert Holds(cs[i], h);
    }
  }

  /** A row with four pieces of one kind can never be completed. */
  lemma OverfullRowUnsolvable(g: Board, r: int, k: Cell)
    requires WellFormed(g) && 0 <= r < Size && k != Empty
    requires Count(g[r], k) > 3
    ensures forall h :: WellFormed(h) && KeepsPieces(g, h) ==> !Complete(h)
  {
    forall h | WellFormed(h) && KeepsPieces(g, h)
      ensures !Complete(h)
    {
      KeepsRow(g, h, r);
      CountMono(g[r], h[r], k);
    }
  }
}
