/**
 * The backtracking search as a pure function on boards.
 *
 * Search is the reference the solver's recursive method is proved equal to:
 * take the first empty cell in row-major order, try a moon, then a sun, each
 * only if the placement passes the three checks, and recurse; with no empty
 * cell left, accept the board iff it is complete.
 */
module Backtracking {
  import opened Rules

  datatype Option<T> = None | Some(value: T)

  /** Row-major order on cells. */
  predicate Before(r1: int, c1: int, r2: int, c2: int) {
    r1 < r2 || (r1 == r2 && c1 < c2)
  }

  /** The first empty cell at or after (r, c) in row-major order. */
  function FirstEmptyFrom(g: Board, r: int, c: int): (res: Option<Pos>)
    requires WellFormed(g) && 0 <= r <= Size && 0 <= c <= Size
    ensures res.Some? ==>
              InBounds(res.value) && At(g, res.value) == Empty &&
              !Before(res.value.row, res.value.col, r, c) &&
              forall r', c' ::
                (0 <= r' < Size && 0 <= c' < Size && !Before(r', c', r, c) &&
                 Before(r', c', res.value.row, res.value.col)) ==> g[r'][c'] != Empty
    ensures res.None? ==>
              forall r', c' :: 0 <= r' < Size && 0 <= c' < Size && !Before(r', c', r, c) ==> g[r'][c'] != Empty
    decreases Size - r, Size - c
  {
    if r == Size then None
    else if c == Size then FirstEmptyFrom(g, r + 1, 0)
    else if g[r][c] == Empty then Some(Pos(r, c))
    else FirstEmptyFrom(g, r, c + 1)
  }

  function FirstEmpty(g: Board): Option<Pos>
    requires WellFormed(g)
  {
    FirstEmptyFrom(g, 0, 0)
  }

  /** An empty cell with only filled cells before it is the first empty cell. */
  lemma FirstEmptyIs(g: Board, p: Pos)
    requires WellFormed(g) && InBounds(p) && At(g, p) == Empty
    requires forall r, c :: 0 <= r < Size && 0 <= c < Size && Before(r, c, p.row, p.col) ==> g[r][c] != Empty
    ensures FirstEmpty(g) == Some(p)
  {
    var q := FirstEmpty(g);
    assert q.Some?;
    assert !Before(q.value.row, q.value.col, p.row, p.col);
    assert !Before(p.row, p.col, q.value.row, q.value.col);
  }

  /** Without an empty cell there is no first empty cell. */
  lemma FirstEmptyNone(g: Board)
    requires WellFormed(g) && Full(g)
    ensures FirstEmpty(g) == None
  {
  }

  /** A board is full exactly when its set of empty cells is empty. */
  lemma FullIffNoEmptyCells(g: Board)
    requires WellFormed(g)
    ensures Full(g) <==> EmptyCells(g) == {}
  {
    if !Full(g) {
      var r, c :| 0 <= r < Size && 0 <= c < Size && g[r][c] == Empty;
      assert Pos(r, c) in EmptyCells(g);
    }
  }

  /** The search from board g; Some(h) is the first solution found, None is failure. */
  ghost function Search(cs: seq<Constraint>, g: Board): (res: Option<Board>)
    requires WellFormed(g) && ValidConstraints(cs)
    ensures res.Some? ==> WellFormed(res.value)
    decreases EmptyCells(g), 1
  {
    match FirstEmpty(g)
    case None => if Complete(g) then Some(g) else None
    case Some(p) =>
      var first := Attempt(cs, g, p, Moon);
      if first.Some? then first else Attempt(cs, g, p, Sun)
  }

  /** One candidate: place k at the empty cell p if the checks pass, then search on. */
  ghost function Attempt(cs: seq<Constraint>, g: Board, p: Pos, k: Cell): (res: Option<Board>)
    requires WellFormed(g) && ValidConstraints(cs) && InBounds(p) && At(g, p) == Empty && k != Empty
    ensures res.Some? ==> WellFormed(res.value)
    decreases EmptyCells(g), 0
  {
    if ValidPlacement(cs, g, p, k) then
      PlaceFills(g, p, k);
      Search(cs, Place(g, p, k))
    else None
  }

  /** Unfolding the search at its first empty cell: a moon first, then a sun. */
  lemma SearchAt(cs: seq<Constraint>, g: Board, p: Pos)
    requires WellFormed(g) && ValidConstraints(cs) && FirstEmpty(g) == Some(p)
    ensures InBounds(p) && At(g, p) == Empty
    ensures Search(cs, g) ==
              if Attempt(cs, g, p, Moon).Some? then Attempt(cs, g, p, Moon) else Attempt(cs, g, p, Sun)
  {
  }

  /** Unfolding the search on a full board: only the acceptance test is evaluated. */
  lemma SearchOnFull(cs: seq<Constraint>, g: Board)
    requires WellFormed(g) && ValidConstraints(cs) && FirstEmpty(g) == None
    ensures Search(cs, g) == if Complete(g) then Some(g) else None
  {
  }

  /** Unfolding one accepted candidate. */
  lemma AttemptValid(cs: seq<Constraint>, g: Board, p: Pos, k: Cell)
    requires WellFormed(g) && ValidConstraints(cs) && InBounds(p) && At(g, p) == Empty && k != Empty
    requires ValidPlacement(cs, g, p, k)
    ensures Attempt(cs, g, p, k) == Search(cs, Place(g, p, k))
  {
  }

  /** Unfolding one rejected candidate. */
  lemma AttemptRejected(cs: seq<Constraint>, g: Board, p: Pos, k: Cell)
    requires WellFormed(g) && ValidConstraints(cs) && InBounds(p) && At(g, p) == Empty && k != Empty
    requires !ValidPlacement(cs, g, p, k)
    ensures Attempt(cs, g, p, k) == None
  {
  }

  /** The step a successful search took at its first empty cell. */
  lemma SearchStep(cs: seq<Constraint>, g: Board, p: Pos, h: Board) returns (k: Cell)
    requires WellFormed(g) && ValidConstraints(cs)
    requires FirstEmpty(g) == Some(p) && Search(cs, g) == Some(h)
    ensures k != Empty && InBounds(p) && At(g, p) == Empty
    ensures ValidPlacement(cs, g, p, k) && Search(cs, Place(g, p, k)) == Some(h)
    ensures EmptyCells(Place(g, p, k)) == EmptyCells(g) - {p} && p in EmptyCells(g)
  {
    if Attempt(cs, g, p, Moon).Some? {
      k := Moon;
    } else {
      k := Sun;
    }
    PlaceFills(g, p, k);
  }

  /**
   * A successful search returns a complete, balanced board that keeps every
   * piece of the board it started from.
   */
  lemma {:induction false} SearchSound(cs: seq<Constraint>, g: Board)
    requires WellFormed(g) && ValidConstraints(cs)
    requires Search(cs, g).Some?
    ensures WellFormed(Search(cs, g).value)
    ensures Complete(Search(cs, g).value)
    ensures KeepsPieces(g, Search(cs, g).value)
    decreases EmptyCells(g)
  {
    var h := Search(cs, g).value;
    match FirstEmpty(g)
    case None =>
    case Some(p) =>
      var k := SearchStep(cs, g, p, h);
      SearchSound(cs, Place(g, p, k));
  }

  /**
   * If the search had at least one empty cell to fill, every constraint holds
   * on the board it returns: the last placement checked all constraints on a
   * full board.
   */
  lemma {:induction false} SearchSatisfiesConstraints(cs: seq<Constraint>, g: Board)
    requires WellFormed(g) && ValidConstraints(cs)
    requires Search(cs, g).Some? && EmptyCells(g) != {}
    ensures WellFormed(Search(cs, g).value)
    ensures ConstraintsOk(cs, Search(cs, g).value)
    decreases EmptyCells(g)
  {
    var h := Search(cs, g).value;
    FullIffNoEmptyCells(g);
    if FirstEmpty(g).None? {
      FirstEmptyNone(g);
      assert false;
    }
    var p := FirstEmpty(g).value;
    var k := SearchStep(cs, g, p, h);
    var t := Place(g, p, k);
    FullIffNoEmptyCells(t);
    if EmptyCells(t) != {} {
      SearchSatisfiesConstraints(cs, t);
    } else {
      // t is full, so the search on t returned t itself
      FirstEmptyNone(t);
      assert h == t;
    }
  }

  /** The window w has a cell that is empty in g. */
  predicate TouchesEmpty(g: Board, w: Window)
    requires WellFormed(g) && ValidWindow(w)
  {
    At(g, WindowPos(w, 0)) == Empty || At(g, WindowPos(w, 1)) == Empty || At(g, WindowPos(w, 2)) == Empty
  }

  /**
   * One placement step: a window that had an empty cell before placing k at p
   * and has none after contains p, so the check at p keeps it from being a run
   * in any board that keeps the placed pieces.
   */
  lemma FilledWindowNotRun(g: Board, p: Pos, k: Cell, h: Board, w: Window)
    requires WellFormed(g) && WellFormed(h) && InBounds(p) && At(g, p) == Empty && k != Empty
    requires ValidWindow(w) && TouchesEmpty(g, w) && !TouchesEmpty(Place(g, p, k), w)
    requires NoThreeOk(Place(g, p, k), p) && KeepsPieces(Place(g, p, k), h)
    ensures !IsRun(h, w)
  {
    var t := Place(g, p, k);
    assert Covers(w, p);
    assert !AllOf(t, w, k);
    assert At(h, WindowPos(w, 0)) == At(t, WindowPos(w, 0));
    assert At(h, WindowPos(w, 1)) == At(t, WindowPos(w, 1));
    assert At(h, WindowPos(w, 2)) == At(t, WindowPos(w, 2));
  }

  /**
   * No run of three passes through a cell the search filled. Runs made only
   * of pieces that were on the board before the search are never checked.
   */
  lemma {:induction false} SearchNoRunThroughFilledCell(cs: seq<Constraint>, g: Board)
    requires WellFormed(g) && ValidConstraints(cs)
    requires Search(cs, g).Some?
    ensures forall w :: ValidWindow(w) && TouchesEmpty(g, w) ==> !IsRun(Search(cs, g).value, w)
    decreases EmptyCells(g)
  {
    var h := Search(cs, g).value;
    match FirstEmpty(g)
    case None =>
    case Some(p) =>
      var k := SearchStep(cs, g, p, h);
      var t := Place(g, p, k);
      SearchNoRunThroughFilledCell(cs, t);
      SearchSound(cs, t);
      forall w | ValidWindow(w) && TouchesEmpty(g, w)
        ensures !IsRun(h, w)
      {
        if !TouchesEmpty(t, w) {
          FilledWindowNotRun(g, p, k, h, w);
        }
      }
  }

  /**
   * The search is complete: if a genuine solution keeps every piece of g, the
   * search succeeds (and so a failed search means no solution exists).
   */
  lemma {:induction false} SearchFindsSolution(cs: seq<Constraint>, g: Board, h: Board)
    requires WellFormed(g) && ValidConstraints(cs)
    requires IsSolution(cs, g, h)
    ensures Search(cs, g).Some?
    decreases EmptyCells(g)
  {
    match FirstEmpty(g)
    case None =>
      BoardExt(g, h);
    case Some(p) =>
      var k := At(h, p);
      SolutionPlacementValid(cs, g, h, p);
      var t := Place(g, p, k);
      PlaceFills(g, p, k);
      assert IsSolution(cs, t, h);
      SearchFindsSolution(cs, t, h);
      assert Attempt(cs, g, p, k).Some?;
  }

  /** A row already holding four pieces of one kind makes the search fail. */
  lemma OverfullRowFails(cs: seq<Constraint>, g: Board, r: int, k: Cell)
    requires WellFormed(g) && ValidConstraints(cs) && 0 <= r < Size && k != Empty
    requires Count(g[r], k) > 3
    ensures Search(cs, g).None?
  {
    if Search(cs, g).Some? {
      SearchSound(cs, g);
      OverfullRowUnsolvable(g, r, k);
    }
  }

  /** The count in a line of six, cell by cell. */
  lemma CountSix(s: seq<Cell>, k: Cell)
    requires |s| == 6
    ensures Count(s, k) ==
            (if s[0] == k then 1 else 0) + (if s[1] == k then 1 else 0) + (if s[2] == k then 1 else 0) +
            (if s[3] == k then 1 else 0) + (if s[4] == k then 1 else 0) + (if s[5] == k then 1 else 0)
  {
    assert s[..0] == [];
    assert s[..6] == s;
    CountSnoc(s, 0, k);
    CountSnoc(s, 1, k);
    CountSnoc(s, 2, k);
    CountSnoc(s, 3, k);
    CountSnoc(s, 4, k);
    CountSnoc(s, 5, k);
  }

  /** The all-empty board with no constraints is solvable, so the search succeeds on it. */
  lemma EmptyBoardSolvable()
    ensures Search([], seq(Size, _ => seq(Size, _ => Empty))).Some?
  {
    var e: Board := seq(Size, _ => seq(Size, _ => Empty));
    var a := [Moon, Moon, Sun, Moon, Sun, Sun];
    var b := [Sun, Sun, Moon, Sun, Moon, Moon];
    var h: Board := [a, b, a, b, a, b];
    CountSix(a, Moon);
    CountSix(a, Sun);
    CountSix(b, Moon);
    CountSix(b, Sun);
    forall i | 0 <= i < Size
      ensures Balanced(Column(h, i))
    {
      CountSix(Column(h, i), Moon);
      CountSix(Column(h, i), Sun);
    }
    assert Complete(h);
    forall w | ValidWindow(w)
      ensures !IsRun(h, w)
    {
    }
    SearchFindsSolution([], e, h);
  }
}
