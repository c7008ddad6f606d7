/** The grid arithmetic of `Board.render` in src/index.js: which cell index
    each (row, column) position shows, and which cells are highlighted. */
module BoardView {
  import opened Rules
  import GameState

  const RowLength: nat := 3
  const CellLength: nat := 3

  /** The index Board.render computes for row r, column c. */
  function Coordinate(r: nat, c: nat): (i: nat)
    ensures i == 3 * r + c
    ensures r < RowLength && c < CellLength ==> i < 9
  {
    (r + c) + r * (CellLength - 1)
  }

  /** The grid formula and the coordinate a click records are inverse:
      a cell shown at (r, c) records [r, c] when clicked. */
  lemma CoordinateRoundTrip(r: nat, c: nat)
    requires r < RowLength && c < CellLength
    ensures GameState.CoordOf(Coordinate(r, c)) == GameState.Coord(r, c)
  {
  }

  /** Every index 0..8 is shown at exactly one position of the grid. */
  lemma GridCoversEachCellOnce(i: Index)
    ensures var p := GameState.CoordOf(i); p.row < RowLength && p.col < CellLength && Coordinate(p.row, p.col) == i
    ensures forall r: nat, c: nat :: r < RowLength && c < CellLength && Coordinate(r, c) == i ==>
      GameState.Coord(r, c) == GameState.CoordOf(i)
  {
  }

  /** The indices of a line, as the source's three-element array. */
  function LineCells(l: Line): seq<Index> {
    [l.a, l.b, l.c]
  }

  /** A cell is highlighted when there are winner coordinates and it is one of them. */
  predicate Highlighted(winnerCoordinates: Option<Line>, i: nat) {
    winnerCoordinates.Some? && i in LineCells(winnerCoordinates.value)
  }

  /** What one rendered square shows. */
  datatype SquareView = SquareView(index: Index, value: Cell, winnerCell: bool)

  /** Highlighted cells of the game's winner all carry the winning mark,
      and there are exactly the three of the winning line. */
  lemma HighlightedCellsHoldWinner(board: Board, i: Index)
    requires Winner(board).Some?
    ensures var w := Winner(board).value;
      Highlighted(Some(w.coordinates), i) ==> board[i] == Some(w.winner)
    ensures var w := Winner(board).value;
      Highlighted(Some(w.coordinates), i) <==> i == w.coordinates.a || i == w.coordinates.b || i == w.coordinates.c
  {
  }

  /** The rows Board.render builds, by its two nested loops. */
  method RenderBoard(squares: Board, winnerCoordinates: Option<Line>) returns (rows: seq<seq<SquareView>>)
    ensures |rows| == RowLength
    ensures forall r :: 0 <= r < |rows| ==> |rows[r]| == CellLength
    ensures forall r, c :: 0 <= r < |rows| && 0 <= c < |rows[r]| ==>
      var i := 3 * r + c;
      rows[r][c] == SquareView(i, squares[i], Highlighted(winnerCoordinates, i))
  {
    rows := [];
    for r := 0 to RowLength
      invariant |rows| == r
      invariant forall r' :: 0 <= r' < r ==> |rows[r']| == CellLength
      invariant forall r', c :: 0 <= r' < r && 0 <= c < |rows[r']| ==>
        var i := 3 * r' + c;
        rows[r'][c] == SquareView(i, squares[i], Highlighted(winnerCoordinates, i))
    {
      var cells := [];
      for c := 0 to CellLength
        invariant |cells| == c
        invariant forall c' :: 0 <= c' < c ==>
          var i := 3 * r + c';
          cells[c'] == SquareView(i, squares[i], Highlighted(winnerCoordinates, i))
      {
        var coordinate := (r + c) + (r * (CellLength - 1));
        var winnerCell := winnerCoordinates.Some? && coordinate in LineCells(winnerCoordinates.value);
        cells := cells + [SquareView(coordinate, squares[coordinate], winnerCell)];
      }
      rows := rows + [cells];
    }
  }
}
