/** Marks, boards, the table of winning lines and the winner scan
    (`calculateWinner` in src/index.js). */
module Rules {

  datatype Option<T> = None | Some(value: T)

  datatype Mark = X | O

  /** A cell is empty (`null` in the source) or holds a player's mark. */
  type Cell = Option<Mark>

  /** A cell index, row-major over the 3x3 grid. */
  type Index = i: nat | i < 9

  /** A board always has exactly nine cells. */
  type Board = s: seq<Cell> | |s| == 9
    witness [None, None, None, None, None, None, None, None, None]

  const EmptyBoard: Board := [None, None, None, None, None, None, None, None, None]

  /** Three cell indices that win when they hold the same mark. */
  datatype Line = Line(a: Index, b: Index, c: Index)

  /** The fixed table the scan walks, in its order: rows, columns, diagonals. */
  const Lines: seq<Line> := [
    Line(0, 1, 2),
    Line(3, 4, 5),
    Line(6, 7, 8),
    Line(0, 3, 6),
    Line(1, 4, 7),
    Line(2, 5, 8),
    Line(0, 4, 8),
    Line(2, 4, 6)
  ]

  /** The object `{winner, coordinates}` the scan returns. */
  datatype WinnerData = WinnerData(winner: Mark, coordinates: Line)

  function MarkText(m: Mark): string {
    match m
    case X => "X"
    case O => "O"
  }

  /** All three cells of the line hold the same mark (an empty cell is falsy). */
  predicate Complete(s: Board, l: Line) {
    s[l.a].Some? && s[l.a] == s[l.b] && s[l.a] == s[l.c]
  }

  /** Line k of the table is complete and no earlier line is. */
  predicate FirstComplete(s: Board, k: nat) {
    k < |Lines| && Complete(s, Lines[k]) &&
    forall j :: 0 <= j < k ==> !Complete(s, Lines[j])
  }

  /** The index of the first complete line at or after entry k of the
      table, or |Lines| when there is none. */
  function FirstCompleteFrom(s: Board, k: nat): (j: nat)
    requires k <= |Lines|
    ensures k <= j <= |Lines|
    ensures j < |Lines| ==> Complete(s, Lines[j])
    ensures forall j' :: k <= j' < j ==> !Complete(s, Lines[j'])
    decreases |Lines| - k
  {
    if k == |Lines| || Complete(s, Lines[k]) then k else FirstCompleteFrom(s, k + 1)
  }

  /** What `calculateWinner` returns for a board (`None` for `null`): the
      mark and the indices of the first complete line in table order. */
  function Winner(s: Board): (r: Option<WinnerData>)
    ensures r.None? <==> forall j :: 0 <= j < |Lines| ==> !Complete(s, Lines[j])
    ensures forall k: nat :: FirstComplete(s, k) ==> r == Some(WinnerData(s[Lines[k].a].value, Lines[k]))
  {
    var j := FirstCompleteFrom(s, 0);
    if j < |Lines| then Some(WinnerData(s[Lines[j].a].value, Lines[j])) else None
  }

  /** Both directions: the reported line is line k exactly when line k is
      the first complete one, and the reported mark is the one on it. */
  lemma WinnerIsFirstComplete(s: Board, k: nat)
    requires k < |Lines|
    ensures FirstComplete(s, k) <==> Winner(s).Some? && Winner(s).value.coordinates == Lines[k]
    ensures FirstComplete(s, k) ==> Winner(s).value.winner == s[Lines[k].a].value
  {
  }

  /** No line appears twice in the table. */
  lemma LinesDistinct(j: nat, k: nat)
    requires j < |Lines| && k < |Lines| && Lines[j] == Lines[k]
    ensures j == k
  {
  }

  /** A reported winner's three cells all hold the reported mark, and the
      reported coordinates are one of the table's lines. */
  lemma WinnerSound(s: Board)
    requires Winner(s).Some?
    ensures Winner(s).value.coordinates in Lines
    ensures var w := Winner(s).value;
      s[w.coordinates.a] == s[w.coordinates.b] == s[w.coordinates.c] == Some(w.winner)
  {
  }

  /** The source's loop: walk the table, return at the first complete line,
      `None` when the loop runs out. */
  method CalculateWinner(squares: Board) returns (r: Option<WinnerData>)
    ensures r == Winner(squares)
  {
    for i := 0 to |Lines|
      invariant forall j :: 0 <= j < i ==> !Complete(squares, Lines[j])
    {
      var line := Lines[i];
      if squares[line.a].Some? && squares[line.a] == squares[line.b] && squares[line.a] == squares[line.c] {
        assert FirstComplete(squares, i);
        return Some(WinnerData(squares[line.a].value, line));
      }
    }
    return None;
  }

  /** How many cells of s hold mark m. */
  function Count(s: seq<Cell>, m: Mark): (n: nat)
    ensures n <= |s|
  {
    if s == [] then 0 else (if s[0] == Some(m) then 1 else 0) + Count(s[1..], m)
  }

  /** A board with no mark on it counts zero of either mark. */
  lemma {:induction false} CountNone(s: seq<Cell>, m: Mark)
    requires forall j :: 0 <= j < |s| ==> s[j].None?
    ensures Count(s, m) == 0
  {
    if s != [] {
      CountNone(s[1..], m);
    }
  }

  /** Writing mark m into an empty cell adds one m and no other mark. */
  lemma {:induction false} CountPlace(s: seq<Cell>, i: nat, m: Mark, m': Mark)
    requires i < |s| && s[i].None?
    ensures Count(s[i := Some(m)], m') == Count(s, m') + (if m == m' then 1 else 0)
  {
    var t := s[i := Some(m)];
    if i == 0 {
      assert t[1..] == s[1..];
    } else {
      assert t[1..] == s[1..][i - 1 := Some(m)];
      CountPlace(s[1..], i - 1, m, m');
    }
  }

  /** Each cell holds at most one mark, so the two counts fit in the board. */
  lemma {:induction false} CountBoth(s: seq<Cell>)
    ensures Count(s, X) + Count(s, O) <= |s|
  {
    if s != [] {
      CountBoth(s[1..]);
    }
  }

  lemma {:induction false} CountAtLeastOne(s: seq<Cell>, a: nat, m: Mark)
    requires a < |s| && s[a] == Some(m)
    ensures Count(s, m) >= 1
  {
    if a > 0 {
      CountAtLeastOne(s[1..], a - 1, m);
    }
  }

  lemma {:induction false} CountAtLeastTwo(s: seq<Cell>, a: nat, b: nat, m: Mark)
    requires a < b < |s| && s[a] == s[b] == Some(m)
    ensures Count(s, m) >= 2
  {
    if a == 0 {
      CountAtLeastOne(s[1..], b - 1, m);
    } else {
      CountAtLeastTwo(s[1..], a - 1, b - 1, m);
    }
  }

  lemma {:induction false} CountAtLeastThree(s: seq<Cell>, a: nat, b: nat, c: nat, m: Mark)
    requires a < b < c < |s| && s[a] == s[b] == s[c] == Some(m)
    ensures Count(s, m) >= 3
  {
    if a == 0 {
      CountAtLeastTwo(s[1..], b - 1, c - 1, m);
    } else {
      CountAtLeastThree(s[1..], a - 1, b - 1, c - 1, m);
    }
  }

  /** A complete line puts three of its mark on the board. */
  lemma CompleteNeedsThree(s: Board, k: nat)
    requires k < |Lines| && Complete(s, Lines[k])
    ensures Count(s, s[Lines[k].a].value) >= 3
    ensures Count(s, X) >= 3 || Count(s, O) >= 3
  {
    var l := Lines[k];
    assert l.a < l.b < l.c;
    CountAtLeastThree(s, l.a, l.b, l.c, s[l.a].value);
    assert s[l.a].value == X || s[l.a].value == O;
  }

  /** With fewer than three of each mark nobody has won. */
  lemma NoWinnerWithFewMarks(s: Board)
    requires Count(s, X) < 3 && Count(s, O) < 3
    ensures Winner(s) == None
  {
    forall k | 0 <= k < |Lines|
      ensures !Complete(s, Lines[k])
    {
      if Complete(s, Lines[k]) {
        CompleteNeedsThree(s, k);
      }
    }
  }
}
