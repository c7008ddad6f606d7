/** The `Game` component of src/index.js: its history of snapshots, the
    current step, whose turn it is, the two transitions and the status line. */
module GameState {
  import opened Rules

  /** `[row, col]` of the move that produced a snapshot. */
  datatype Coord = Coord(row: nat, col: nat)

  /** One entry of the history; the initial one has no coordinate
      (`[null, null]` in the source). */
  datatype Snapshot = Snapshot(squares: Board, coordinates: Option<Coord>)

  const Initial: Snapshot := Snapshot(EmptyBoard, None)

  /** The mark the side to move writes. */
  function MarkFor(xIsNext: bool): Mark {
    if xIsNext then X else O
  }

  /** The coordinate recorded for a click on cell i. */
  function CoordOf(i: Index): (p: Coord)
    ensures p.row < 3 && p.col < 3 && 3 * p.row + p.col == i
  {
    Coord(i / 3, i % 3)
  }

  /** The board with mark m written into cell i: cell i now holds m and
      every other cell is as it was. */
  function Place(board: Board, i: Index, m: Mark): (r: Board)
    ensures r[i] == Some(m)
    ensures forall j :: 0 <= j < 9 && j != i ==> r[j] == board[j]
  {
    board[i := Some(m)]
  }

  /** A click on cell i is acted on: nobody has won and the cell is empty. */
  predicate Playable(board: Board, i: Index) {
    Winner(board).None? && board[i].None?
  }

  /** next follows prev by a legal click at move number step: prev has no
      winner, the clicked cell was empty and now holds the mark of the side
      whose turn step is, and nothing else on the board changed. */
  predicate IsMove(prev: Snapshot, next: Snapshot, step: nat) {
    match next.coordinates
    case None => false
    case Some(p) =>
      p.row < 3 && p.col < 3 &&
      var i := 3 * p.row + p.col;
      Playable(prev.squares, i) &&
      next.squares == Place(prev.squares, i, MarkFor(step % 2 == 0))
  }

  /** A history the game can build: the empty board, then legal moves. */
  ghost predicate LegalHistory(h: seq<Snapshot>) {
    |h| >= 1 && h[0] == Initial &&
    forall k :: 0 <= k < |h| - 1 ==> IsMove(h[k], h[k + 1], k)
  }

  /** After k legal moves X has played ceil(k/2) times and O floor(k/2). */
  lemma {:induction false} CountsAtStep(h: seq<Snapshot>, k: nat)
    requires LegalHistory(h) && k < |h|
    ensures Count(h[k].squares, X) == (k + 1) / 2
    ensures Count(h[k].squares, O) == k / 2
  {
    if k == 0 {
      CountNone(EmptyBoard, X);
      CountNone(EmptyBoard, O);
    } else {
      CountsAtStep(h, k - 1);
      assert IsMove(h[k - 1], h[k], k - 1);
      var p := h[k].coordinates.value;
      var i := 3 * p.row + p.col;
      var m := MarkFor((k - 1) % 2 == 0);
      assert h[k].squares == h[k - 1].squares[i := Some(m)];
      CountPlace(h[k - 1].squares, i, m, X);
      CountPlace(h[k - 1].squares, i, m, O);
    }
  }

  /** The board has nine cells, so a history holds at most ten snapshots. */
  lemma HistoryAtMostTen(h: seq<Snapshot>)
    requires LegalHistory(h)
    ensures |h| <= 10
  {
    var k := |h| - 1;
    CountsAtStep(h, k);
    CountBoth(h[k].squares);
  }

  /** Nobody can have won before the fifth move. */
  lemma NoWinnerBeforeFifthMove(h: seq<Snapshot>, k: nat)
    requires LegalHistory(h) && k < |h| && k < 5
    ensures Winner(h[k].squares) == None
  {
    CountsAtStep(h, k);
    NoWinnerWithFewMarks(h[k].squares);
  }

  /** Only the last snapshot of a history can show a winner: a won board
      accepts no further move. */
  lemma WinnerOnlyAtEnd(h: seq<Snapshot>, k: nat)
    requires LegalHistory(h) && k < |h| - 1
    ensures Winner(h[k].squares) == None
  {
    assert IsMove(h[k], h[k + 1], k);
  }

  /** Dropping the snapshots after step n and appending a legal move made
      from step n leaves a legal history. */
  lemma TruncateAndAppend(h: seq<Snapshot>, n: nat, next: Snapshot)
    requires LegalHistory(h) && n < |h| && IsMove(h[n], next, n)
    ensures LegalHistory(h[..n + 1] + [next])
  {
  }

  /** A legal click at step n, seen on values: the truncated history with the
      new snapshot appended is legal and ends at step n + 1. */
  lemma ClickStep(h: seq<Snapshot>, n: nat, i: Index)
    requires LegalHistory(h) && n < |h| && Playable(h[n].squares, i)
    ensures var h' := h[..n + 1] + [Snapshot(Place(h[n].squares, i, MarkFor(n % 2 == 0)), Some(CoordOf(i)))];
      LegalHistory(h') && |h'| == n + 2
  {
  }

  /** The status line shown above the move list. */
  function Status(board: Board, xIsNext: bool): (s: string)
    ensures (exists j :: 0 <= j < |Lines| && Complete(board, Lines[j])) ==>
      exists j: nat :: FirstComplete(board, j) && s == "Winner: " + MarkText(board[Lines[j].a].value)
    ensures (forall j :: 0 <= j < |Lines| ==> !Complete(board, Lines[j])) ==>
      s == "Next player: " + MarkText(MarkFor(xIsNext))
  {
    match Winner(board)
    case Some(w) => "Winner: " + MarkText(w.winner)
    case None => "Next player: " + (if xIsNext then "X" else "O")
  }

  class Game {
    var history: seq<Snapshot>
    var stepNumber: nat
    var xIsNext: bool

    /** The history is a legal game, the current step is inside it, and X is next
        exactly on even steps. */
    ghost predicate Valid()
      reads this
    {
      LegalHistory(history) && stepNumber < |history| && xIsNext == (stepNumber % 2 == 0)
    }

    /** The game starts with one empty snapshot, at step 0, X to move. */
    constructor ()
      ensures Valid()
      ensures history == [Initial] && stepNumber == 0 && xIsNext
    {
      history := [Snapshot(EmptyBoard, None)];
      stepNumber := 0;
      xIsNext := true;
    }

    /** The board at the current step. */
    function CurrentBoard(): Board
      reads this
      requires stepNumber < |history|
    {
      history[stepNumber].squares
    }

    /** A click on cell i. Ignored when the current board already has a
        winner or the cell is taken; otherwise the future beyond the current
        step is dropped and one new snapshot is appended. */
    method HandleClick(i: Index)
      requires Valid()
      modifies this
      ensures Valid()
      ensures !Playable(old(CurrentBoard()), i) ==>
        history == old(history) && stepNumber == old(stepNumber) && xIsNext == old(xIsNext)
      ensures Playable(old(CurrentBoard()), i) ==>
        && history == old(history[..stepNumber + 1]) +
             [Snapshot(Place(old(CurrentBoard()), i, MarkFor(old(xIsNext))), Some(CoordOf(i)))]
        && stepNumber == old(stepNumber) + 1 == |history| - 1
        && xIsNext == !old(xIsNext)
      ensures Playable(old(CurrentBoard()), i) ==>
        CurrentBoard() == Place(old(CurrentBoard()), i, MarkFor(old(xIsNext)))
    {
      var hist := history[..stepNumber + 1];
      var current := hist[|hist| - 1];
      assert current == history[stepNumber];
      var squares := new Cell[9](k => if k < 9 then current.squares[k] else None);
      assert squares[..] == current.squares;
      var decided := CalculateWinner(squares[..]);
      if decided.Some? || squares[i].Some? {
        return;
      }
      squares[i] := if xIsNext then Some(X) else Some(O);
      var y := i / 3;
      var x := i % 3;
      var next := Snapshot(squares[..], Some(Coord(y, x)));
      assert next == Snapshot(Place(current.squares, i, MarkFor(xIsNext)), Some(CoordOf(i)));
      ClickStep(history, stepNumber, i);
      history := hist + [next];
      stepNumber := |hist|;
      xIsNext := !xIsNext;
    }

    /** A click on entry step of the move list: make it the current step and
        derive the side to move from its parity; the history stays. */
    method JumpTo(step: nat)
      requires Valid() && step < |history|
      modifies this
      ensures Valid()
      ensures history == old(history) && stepNumber == step && xIsNext == (step % 2 == 0)
    {
      stepNumber := step;
      xIsNext := step % 2 == 0;
    }

    /** What the render step derives from the state: the current board,
        the status line and the cells to highlight. When nobody has won,
        the side to move is X exactly when both have played equally often. */
    method Render() returns (board: Board, status: string, winnerCoordinates: Option<Line>)
      requires Valid()
      ensures board == history[stepNumber].squares
      ensures status == Status(board, xIsNext)
      ensures winnerCoordinates == if Winner(board).Some? then Some(Winner(board).value.coordinates) else None
      ensures winnerCoordinates.Some? ==>
        exists j: nat :: FirstComplete(board, j) && winnerCoordinates.value == Lines[j]
      ensures winnerCoordinates.None? ==> (xIsNext <==> Count(board, X) == Count(board, O))
    {
      var current := history[stepNumber];
      board := current.squares;
      var winnerData := CalculateWinner(board);
      winnerCoordinates := None;
      if winnerData.Some? {
        status := "Winner: " + MarkText(winnerData.value.winner);
        winnerCoordinates := Some(winnerData.value.coordinates);
      } else {
        status := "Next player: " + (if xIsNext then "X" else "O");
        CountsAtStep(history, stepNumber);
      }
    }
  }
}
