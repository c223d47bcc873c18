/** The move rule of the `Board` component (`handleClick` in app.js) and whose turn it is. */
module BoardRules {
  import opened WinDetection

  /** What a click does: nothing, or hand the next board to `onPlay`. */
  datatype ClickResult = Ignored | Play(nextSquares: Board)

  /** `xIsNext`: the first player moves at every even position of the history. */
  function XIsNext(currentMove: nat): (r: bool)
    ensures r <==> (currentMove + 1) / 2 == currentMove / 2
  {
    currentMove % 2 == 0
  }

  /** The mark written by a click: "🪼" when `xIsNext`, otherwise "🐚". */
  function MarkFor(xIsNext: bool): (m: Mark)
    ensures m != Empty
    ensures m == X <==> xIsNext
  {
    if xIsNext then X else O
  }

  /** The mark placed by the move made from position `move` of the history. */
  function MoverAt(move: nat): (m: Mark)
    ensures m != Empty
    ensures move % 2 == 0 ==> m == X
    ensures move % 2 == 1 ==> m == O
  {
    MarkFor(XIsNext(move))
  }

  /**
   * Reference definition of a legal move: the board before has no winner and
   * `after` is `before` with one empty cell set to `m`.
   */
  ghost predicate IsMove(before: Board, after: Board, m: Mark) {
    CalculateWinner(before) == Empty &&
    exists i :: 0 <= i < 9 && before[i] == Empty && after == before[i := m]
  }

  /**
   * `Board.handleClick(i)`: a click on a board that already has a winner or
   * on an occupied cell is ignored; otherwise the board is copied and cell
   * `i` receives the mover's mark.
   */
  method HandleClick(squares: Board, i: Cell, xIsNext: bool) returns (result: ClickResult)
    ensures result.Ignored? <==> CalculateWinner(squares) != Empty || squares[i] != Empty
    ensures result.Play? ==>
      result.nextSquares[i] == MarkFor(xIsNext) &&
      forall j :: 0 <= j < 9 && j != i ==> result.nextSquares[j] == squares[j]
  {
    if CalculateWinner(squares) != Empty || squares[i] != Empty {
      return Ignored;
    }
    var nextSquares := new Mark[9](j requires 0 <= j < 9 => squares[j]);
    nextSquares[i] := MarkFor(xIsNext);
    return Play(nextSquares[..]);
  }

  /**
   * An accepted click is a legal move: the board it produces is the old one
   * with exactly cell `i` changed, from empty to the mover's mark.
   */
  lemma AcceptedClickIsMove(squares: Board, i: Cell, m: Mark, next: Board)
    requires CalculateWinner(squares) == Empty && squares[i] == Empty && m != Empty
    requires next[i] == m && forall j :: 0 <= j < 9 && j != i ==> next[j] == squares[j]
    ensures next == squares[i := m]
    ensures IsMove(squares, next, m)
    ensures forall j :: 0 <= j < 9 ==> (next[j] != squares[j] <==> j == i)
  {
  }
}
