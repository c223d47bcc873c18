/**
 * The `Game` component of app.js: the history of board snapshots, the
 * pointer to the active one, and the commands that change them.
 */
module GameHistory {
  import opened WinDetection
  import opened BoardRules

  /**
   * A history the rules can produce: it starts from the empty board and each
   * later snapshot is a legal move, by the player whose turn it was, from the
   * snapshot before it.
   */
  ghost predicate LegalHistory(h: seq<Board>) {
    |h| >= 1 && h[0] == EmptyBoard &&
    forall k :: 0 <= k < |h| - 1 ==> IsMove(h[k], h[k + 1], MoverAt(k))
  }

  /** Cutting a legal history after any position leaves a legal history. */
  lemma PrefixIsLegal(h: seq<Board>, n: nat)
    requires LegalHistory(h) && n < |h|
    ensures LegalHistory(h[..n + 1])
  {
  }

  /**
   * Truncating after position `n` and appending a legal move from snapshot
   * `n` keeps the history legal.
   */
  lemma AppendIsLegal(h: seq<Board>, n: nat, next: Board)
    requires LegalHistory(h) && n < |h|
    requires IsMove(h[n], next, MoverAt(n))
    ensures LegalHistory(h[..n + 1] + [next])
  {
    PrefixIsLegal(h, n);
  }

  /**
   * Snapshot `k` of a legal history holds exactly `k` marks: `(k + 1) / 2`
   * of the first player's, `k / 2` of the second's, and `9 - k` empty cells.
   */
  lemma {:induction false} MarkCounts(h: seq<Board>, k: nat)
    requires LegalHistory(h) && k < |h|
    ensures multiset(h[k])[X] == (k + 1) / 2
    ensures multiset(h[k])[O] == k / 2
    ensures multiset(h[k])[Empty] == 9 - k
  {
    if k > 0 {
      MarkCounts(h, k - 1);
      assert IsMove(h[k - 1], h[k], MoverAt(k - 1));
      var i :| 0 <= i < 9 && h[k - 1][i] == Empty && h[k] == h[k - 1][i := MoverAt(k - 1)];
      PlacingCountsOneMark(h[k - 1], i, MoverAt(k - 1));
    }
  }

  /** Filling an empty cell with `m` turns one `Empty` into one `m` and leaves the other counts alone. */
  lemma PlacingCountsOneMark(b: Board, i: Cell, m: Mark)
    requires b[i] == Empty && m != Empty
    ensures multiset(b[i := m])[m] == multiset(b)[m] + 1
    ensures multiset(b[i := m])[Empty] == multiset(b)[Empty] - 1
    ensures forall m' :: m' != m && m' != Empty ==> multiset(b[i := m])[m'] == multiset(b)[m']
  {
  }

  /** A mark that fills a line occupies at least three cells. */
  lemma LineNeedsThreeMarks(b: Board, j: nat, m: Mark)
    requires j < |Lines| && LineOf(b, j, m) && m != Empty
    ensures multiset(b)[m] >= 3
  {
    var (p, q, r) := Lines[j];
    var b1 := b[p := Empty];
    var b2 := b1[q := Empty];
    var b3 := b2[r := Empty];
    assert multiset(b1) == multiset(b) - multiset{m} + multiset{Empty};
    assert multiset(b2) == multiset(b1) - multiset{m} + multiset{Empty};
    assert multiset(b3) == multiset(b2) - multiset{m} + multiset{Empty};
  }

  /**
   * Nobody can have won before the fifth move: until then the first player
   * has placed at most two marks and the second at most two.
   */
  lemma NoWinnerBeforeFifthMove(h: seq<Board>, k: nat)
    requires LegalHistory(h) && k < |h| && k < 5
    ensures CalculateWinner(h[k]) == Empty
  {
    MarkCounts(h, k);
    forall m | m != Empty
      ensures !HasLine(h[k], m)
    {
      if HasLine(h[k], m) {
        var j :| 0 <= j < |Lines| && LineOf(h[k], j, m);
        LineNeedsThreeMarks(h[k], j, m);
      }
    }
  }

  /** A legal history holds at most ten snapshots: nine moves fill the board. */
  lemma HistoryAtMostTen(h: seq<Board>)
    requires LegalHistory(h)
    ensures |h| <= 10
  {
    MarkCounts(h, |h| - 1);
  }

  /**
   * No snapshot of a legal history has a line of both marks, so the order
   * in which the lines are scanned never decides who the winner is.
   */
  lemma AtMostOneLineOwner(h: seq<Board>, k: nat)
    requires LegalHistory(h) && k < |h|
    ensures !(HasLine(h[k], X) && HasLine(h[k], O))
  {
    if k == 0 {
      EmptyBoardHasNoWinner();
    } else {
      assert IsMove(h[k - 1], h[k], MoverAt(k - 1));
      var i :| 0 <= i < 9 && h[k - 1][i] == Empty && h[k] == h[k - 1][i := MoverAt(k - 1)];
      PlacingCompletesOnlyOwnLines(h[k - 1], i, MoverAt(k - 1));
    }
  }

  /** Once a snapshot has a winner, no move follows it in a legal history. */
  lemma WonSnapshotIsLast(h: seq<Board>, k: nat)
    requires LegalHistory(h) && k < |h|
    requires CalculateWinner(h[k]) != Empty
    ensures k == |h| - 1
  {
    assert k < |h| - 1 ==> IsMove(h[k], h[k + 1], MoverAt(k));
  }

  /** The state of the `Game` component: `history` and `currentMove`. */
  class Game {
    var history: seq<Board>
    var currentMove: nat

    /** The shape every command keeps: a non-empty history and a pointer into it. */
    ghost predicate Valid()
      reads this
    {
      currentMove < |history|
    }

    /** `Valid()`, and the history is one the rules can produce. */
    ghost predicate Legal()
      reads this
    {
      Valid() && LegalHistory(history)
    }

    /**
     * `currentSquares`: the active snapshot, one of the recorded ones. In a
     * legal history, an active snapshot that later moves were played from
     * has no winner.
     */
    function CurrentSquares(): (b: Board)
      reads this
      requires Valid()
      ensures b in history
      ensures LegalHistory(history) && currentMove < |history| - 1 ==> CalculateWinner(b) == Empty
    {
      assert LegalHistory(history) && currentMove < |history| - 1 ==>
        IsMove(history[currentMove], history[currentMove + 1], MoverAt(currentMove));
      history[currentMove]
    }

    /** The initial state: one empty board, at position 0. */
    constructor ()
      ensures Legal()
      ensures history == [EmptyBoard] && currentMove == 0
    {
      history := [EmptyBoard];
      currentMove := 0;
    }

    /**
     * `handlePlay(nextSquares)`: drop every snapshot after the active one,
     * append `nextSquares` and make it the active snapshot. The history stays
     * legal when `nextSquares` is a legal move from the active snapshot.
     */
    method HandlePlay(nextSquares: Board)
      requires Valid()
      modifies this
      ensures Valid()
      ensures history == old(history[..currentMove + 1]) + [nextSquares]
      ensures currentMove == |history| - 1 == old(currentMove) + 1
      ensures old(Legal()) && IsMove(old(CurrentSquares()), nextSquares, MoverAt(old(currentMove))) ==> Legal()
    {
      ghost var wasLegal := Legal();
      if wasLegal && IsMove(CurrentSquares(), nextSquares, MoverAt(currentMove)) {
        AppendIsLegal(history, currentMove, nextSquares);
      }
      history := history[..currentMove + 1] + [nextSquares];
      currentMove := |history| - 1;
    }

    /** `goToPreviousMove`: step back one snapshot, unless already at the first. */
    method GoToPreviousMove()
      requires Valid()
      modifies this
      ensures Valid()
      ensures history == old(history)
      ensures currentMove == if old(currentMove) > 0 then old(currentMove) - 1 else old(currentMove)
      ensures old(Legal()) ==> Legal()
    {
      if currentMove > 0 {
        currentMove := currentMove - 1;
      }
    }

    /** `restartGame`: back to the initial state, from any state. */
    method RestartGame()
      modifies this
      ensures Legal()
      ensures history == [EmptyBoard] && currentMove == 0
    {
      history := [EmptyBoard];
      currentMove := 0;
    }

    /**
     * A click on cell `i` of the active board: `Board.handleClick` with
     * `xIsNext` derived from `currentMove`, and `handlePlay` as `onPlay`.
     * A click on a won board or an occupied cell changes nothing; any other
     * click records the move. Either way a legal history stays legal.
     */
    method Click(i: Cell)
      requires Valid()
      modifies this
      ensures Valid()
      ensures old(CalculateWinner(CurrentSquares())) != Empty || old(CurrentSquares()[i]) != Empty ==>
        history == old(history) && currentMove == old(currentMove)
      ensures old(CalculateWinner(CurrentSquares())) == Empty && old(CurrentSquares()[i]) == Empty ==>
        history == old(history[..currentMove + 1]) + [old(CurrentSquares())[i := MoverAt(old(currentMove))]] &&
        currentMove == |history| - 1 == old(currentMove) + 1
      ensures old(Legal()) ==> Legal()
    {
      var result := HandleClick(CurrentSquares(), i, XIsNext(currentMove));
      if result.Play? {
        AcceptedClickIsMove(CurrentSquares(), i, MoverAt(currentMove), result.nextSquares);
        HandlePlay(result.nextSquares);
      }
    }
  }
}

/**
 * A session driven only through the contracts above: the first player
 * completes column 0 in five moves and a further click is ignored.
 */
method WinScenario() {
  var g := new GameHistory.Game();
  GameHistory.NoWinnerBeforeFifthMove(g.history, 0);
  g.Click(0);
  GameHistory.NoWinnerBeforeFifthMove(g.history, 1);
  g.Click(1);
  GameHistory.NoWinnerBeforeFifthMove(g.history, 2);
  g.Click(3);
  GameHistory.NoWinnerBeforeFifthMove(g.history, 3);
  g.Click(4);
  GameHistory.NoWinnerBeforeFifthMove(g.history, 4);
  g.Click(6);
  assert |g.history| == 6 && g.currentMove == 5;
  assert WinDetection.LineOf(g.CurrentSquares(), 3, WinDetection.X);
  assert WinDetection.CalculateWinner(g.CurrentSquares()) == WinDetection.X;
  ghost var before := g.history;
  g.Click(2);
  assert g.history == before && g.currentMove == 5;
}

/**
 * Stepping back to the empty board and playing there discards the later
 * snapshots; restarting returns to the initial state.
 */
method BranchScenario() {
  var g := new GameHistory.Game();
  GameHistory.NoWinnerBeforeFifthMove(g.history, 0);
  g.Click(0);
  GameHistory.NoWinnerBeforeFifthMove(g.history, 1);
  g.Click(1);
  GameHistory.NoWinnerBeforeFifthMove(g.history, 2);
  g.Click(2);
  assert |g.history| == 4 && g.currentMove == 3;
  g.GoToPreviousMove();
  g.GoToPreviousMove();
  g.GoToPreviousMove();
  assert g.currentMove == 0 && g.CurrentSquares() == WinDetection.EmptyBoard;
  g.GoToPreviousMove();
  assert g.currentMove == 0;
  GameHistory.NoWinnerBeforeFifthMove(g.history, 0);
  g.Click(4);
  assert g.history == [WinDetection.EmptyBoard, WinDetection.EmptyBoard[4 := WinDetection.X]];
  assert g.currentMove == 1;
  g.RestartGame();
  assert g.history == [WinDetection.EmptyBoard] && g.currentMove == 0;
}
