/** Two games played through the public operations of `Game`, as a client
    of the model sees them. */
module Scenarios {
  import opened Rules
  import opened GameState

  /** The boards of the top-row game: each clicked cell is empty when it
      is clicked, and after the fifth move the top row is the first
      complete line. */
  lemma TopRowBoards(b1: Board, b2: Board, b3: Board, b4: Board, b5: Board)
    requires b1 == Place(EmptyBoard, 0, X) && b2 == Place(b1, 4, O) && b3 == Place(b2, 1, X)
    requires b4 == Place(b3, 5, O) && b5 == Place(b4, 2, X)
    ensures EmptyBoard[0].None? && b1[4].None? && b2[1].None? && b3[5].None? && b4[2].None?
    ensures FirstComplete(b5, 0) && b5[0] == Some(X)
  {
  }

  /** The status text for an X win, spelled out. */
  lemma WinnerXText()
    ensures "Winner: " + MarkText(X) == "Winner: X"
  {
  }

  /** X takes the top row while O plays the centre row: after the fifth
      click the status names X and the top row is highlighted. */
  method TopRowWin() returns (status: string, winnerCoordinates: Option<Line>)
    ensures status == "Winner: X"
    ensures winnerCoordinates == Some(Line(0, 1, 2))
  {
    ghost var b1 := Place(EmptyBoard, 0, X);
    ghost var b2 := Place(b1, 4, O);
    ghost var b3 := Place(b2, 1, X);
    ghost var b4 := Place(b3, 5, O);
    ghost var b5 := Place(b4, 2, X);
    TopRowBoards(b1, b2, b3, b4, b5);
    var g := new Game();
    NoWinnerBeforeFifthMove(g.history, 0);
    g.HandleClick(0);
    assert g.CurrentBoard() == b1 && g.stepNumber == 1;
    NoWinnerBeforeFifthMove(g.history, 1);
    g.HandleClick(4);
    assert g.CurrentBoard() == b2 && g.stepNumber == 2;
    NoWinnerBeforeFifthMove(g.history, 2);
    g.HandleClick(1);
    assert g.CurrentBoard() == b3 && g.stepNumber == 3;
    NoWinnerBeforeFifthMove(g.history, 3);
    g.HandleClick(5);
    assert g.CurrentBoard() == b4 && g.stepNumber == 4;
    NoWinnerBeforeFifthMove(g.history, 4);
    g.HandleClick(2);
    assert g.CurrentBoard() == b5;
    WinnerIsFirstComplete(b5, 0);
    assert Winner(b5) == Some(WinnerData(X, Line(0, 1, 2)));
    var board;
    board, status, winnerCoordinates := g.Render();
    WinnerXText();
  }

  /** A move, a jump back to the start and a different move: the first
      move is forgotten, the history holds two snapshots and O is next. */
  method RedoFromStart() returns (length: nat, coordinates: Option<Coord>, xIsNext: bool)
    ensures length == 2
    ensures coordinates == Some(Coord(1, 1))
    ensures !xIsNext
  {
    var g := new Game();
    NoWinnerBeforeFifthMove(g.history, 0);
    g.HandleClick(0);
    g.JumpTo(0);
    NoWinnerBeforeFifthMove(g.history, 0);
    g.HandleClick(4);
    length, coordinates, xIsNext := |g.history|, g.history[1].coordinates, g.xIsNext;
  }
}
