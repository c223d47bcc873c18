/** Marks, boards and the winner scan of the game (`calculateWinner` in app.js). */
module WinDetection {

  /** A cell's content: `Empty` stands for `null`, `X` for "🪼" and `O` for "🐚". */
  datatype Mark = Empty | X | O

  /** A cell index of the 3x3 grid, in row-major order. */
  type Cell = n: nat | n < 9

  /** A board snapshot: nine cells in row-major order. */
  type Board = b: seq<Mark> | |b| == 9
    witness [Empty, Empty, Empty, Empty, Empty, Empty, Empty, Empty, Empty]

  /** The board every game starts from (`Array(9).fill(null)`). */
  const EmptyBoard: Board := [Empty, Empty, Empty, Empty, Empty, Empty, Empty, Empty, Empty]

  /** The eight fixed lines, scanned in this order: three rows, three columns, two diagonals. */
  const Lines: seq<(Cell, Cell, Cell)> :=
    [(0, 1, 2), (3, 4, 5), (6, 7, 8),
     (0, 3, 6), (1, 4, 7), (2, 5, 8),
     (0, 4, 8), (2, 4, 6)]

  /** Reference definition: all three cells of line `j` hold `m`. */
  predicate LineOf(b: Board, j: nat, m: Mark)
    requires j < |Lines|
  {
    var (p, q, r) := Lines[j];
    b[p] == m && b[q] == m && b[r] == m
  }

  /** The test applied to line `j`: its first cell is non-empty and the other two equal it. */
  predicate Complete(b: Board, j: nat)
    requires j < |Lines|
  {
    var p := Lines[j].0;
    b[p] != Empty && LineOf(b, j, b[p])
  }

  /** Reference definition: mark `m` fills at least one of the eight lines. */
  predicate HasLine(b: Board, m: Mark) {
    exists j :: 0 <= j < |Lines| && LineOf(b, j, m)
  }

  /** Whether cell `i` lies on line `j`. */
  predicate OnLine(i: nat, j: nat)
    requires j < |Lines|
  {
    i == Lines[j].0 || i == Lines[j].1 || i == Lines[j].2
  }

  /**
   * The scan of the lines from index `k` on, returning the mark of the first
   * complete line, or `Empty` when none is complete.
   */
  function WinnerFrom(b: Board, k: nat): (r: Mark)
    requires k <= |Lines|
    decreases |Lines| - k
    ensures r == Empty <==> forall j :: k <= j < |Lines| ==> !Complete(b, j)
    ensures r != Empty ==>
      exists j :: k <= j < |Lines| && Complete(b, j) && b[Lines[j].0] == r &&
        forall j' :: k <= j' < j ==> !Complete(b, j')
  {
    if k == |Lines| then Empty
    else if Complete(b, k) then b[Lines[k].0]
    else WinnerFrom(b, k + 1)
  }

  /**
   * `calculateWinner`: the mark that fills the first complete line in scan
   * order, or `Empty` (the source's `null`) when no line is complete.
   */
  function CalculateWinner(b: Board): (r: Mark)
    ensures r != Empty ==>
      exists j :: 0 <= j < |Lines| && LineOf(b, j, r) &&
        forall j' :: 0 <= j' < j ==> !Complete(b, j')
    ensures r == Empty <==> !HasLine(b, X) && !HasLine(b, O)
  {
    var r := WinnerFrom(b, 0);
    assert r == Empty ==> forall m, j :: m != Empty && 0 <= j < |Lines| && LineOf(b, j, m) ==> Complete(b, j);
    r
  }

  /** The empty board has no line, so the game starts without a winner. */
  lemma EmptyBoardHasNoWinner()
    ensures CalculateWinner(EmptyBoard) == Empty
    ensures !HasLine(EmptyBoard, X) && !HasLine(EmptyBoard, O)
  {
  }

  /**
   * Placing mark `m` in an empty cell of a board without a winner can only
   * complete lines through that cell, all filled by `m`: the other mark still
   * has no line, and the winner afterwards is `m` or nobody.
   */
  lemma PlacingCompletesOnlyOwnLines(b: Board, i: Cell, m: Mark)
    requires CalculateWinner(b) == Empty
    requires b[i] == Empty && m != Empty
    ensures forall j :: 0 <= j < |Lines| && Complete(b[i := m], j) ==> OnLine(i, j) && LineOf(b[i := m], j, m)
    ensures m == X ==> !HasLine(b[i := m], O)
    ensures m == O ==> !HasLine(b[i := m], X)
    ensures CalculateWinner(b[i := m]) in {Empty, m}
  {
  }
}
