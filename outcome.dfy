/** Outcome detection on the client: the board, the eight winning lines,
    the win test and the draw test of public/script.js. */
module Outcome {

  /** A cell of the board; in the page it is the text '' , 'x' or 'o'. */
  datatype Cell = Empty | X | O

  /** A player is a mark that can be written into a cell. */
  type Player = c: Cell | c != Empty witness X

  /** A board is the row-major snapshot of the nine cells. */
  type Board = b: seq<Cell> | |b| == 9
    witness [Empty, Empty, Empty, Empty, Empty, Empty, Empty, Empty, Empty]

  /** The text a cell shows, as read by the page and sent to the server. */
  function Text(c: Cell): (s: string)
    ensures s == "" <==> c == Empty
    ensures s == "x" <==> c == X
    ensures s == "o" <==> c == O
  {
    match c
    case Empty => ""
    case X => "x"
    case O => "o"
  }

  /** The client's copy of the eight winning lines: three rows, three
      columns, two diagonals, each a triple of cell indices. */
  function WinningConditions(): (lines: seq<seq<nat>>)
    ensures |lines| == 8
    ensures forall k | 0 <= k < |lines| ::
      |lines[k]| == 3 && lines[k][0] < lines[k][1] < lines[k][2] < 9
  {
    [[0, 1, 2],
     [3, 4, 5],
     [6, 7, 8],
     [0, 3, 6],
     [1, 4, 7],
     [2, 5, 8],
     [0, 4, 8],
     [2, 4, 6]]
  }

  /** Every cell of `line` is marked by `player`. */
  predicate Filled(board: Board, player: Player, line: seq<nat>)
    requires forall j | 0 <= j < |line| :: line[j] < 9
  {
    forall j | 0 <= j < |line| :: board[line[j]] == player
  }

  /** checkWin: some winning line has every one of its cells marked by
      `player`. A win takes three distinct cells marked by the player. */
  predicate CheckWin(player: Player, board: Board): (won: bool)
    ensures won ==> exists i: nat, j: nat, k: nat | i < j < k < 9 :: Triple(board, player, i, j, k)
  {
    FilledLinesAreTriples(player, board);
    exists k | 0 <= k < |WinningConditions()| :: Filled(board, player, WinningConditions()[k])
  }

  /** A filled winning line is three cells holding `player`. */
  lemma FilledLinesAreTriples(player: Player, board: Board)
    ensures forall k | 0 <= k < |WinningConditions()| ::
      Filled(board, player, WinningConditions()[k]) ==>
        Triple(board, player, WinningConditions()[k][0], WinningConditions()[k][1], WinningConditions()[k][2])
  {
    forall k | 0 <= k < |WinningConditions()|
      ensures Filled(board, player, WinningConditions()[k]) ==>
        Triple(board, player, WinningConditions()[k][0], WinningConditions()[k][1], WinningConditions()[k][2])
    {
      FilledTriple(player, board, WinningConditions()[k]);
    }
  }

  /** isBoardFull: no cell is empty, that is, the empty mark does not occur
      on the board at all. */
  predicate IsBoardFull(board: Board): (full: bool)
    ensures full <==> Empty !in board
  {
    forall i | 0 <= i < 9 :: board[i] != Empty
  }

  /** The cell in row `row` and column `col` of the 3x3 grid. */
  function At(board: Board, row: nat, col: nat): Cell
    requires row < 3 && col < 3
  {
    board[3 * row + col]
  }

  /** Row `r` of the grid is marked by `player` in all three columns. */
  predicate FullRow(board: Board, player: Player, r: nat)
    requires r < 3
  {
    forall c | 0 <= c < 3 :: At(board, r, c) == player
  }

  /** Column `c` of the grid is marked by `player` in all three rows. */
  predicate FullColumn(board: Board, player: Player, c: nat)
    requires c < 3
  {
    forall r | 0 <= r < 3 :: At(board, r, c) == player
  }

  /** A reference definition of a win, from the geometry of the grid:
      a full row, a full column, or one of the two diagonals. */
  predicate HasGridLine(board: Board, player: Player)
  {
    (exists r: nat | r < 3 :: FullRow(board, player, r)) ||
    (exists c: nat | c < 3 :: FullColumn(board, player, c)) ||
    (forall r: nat, c: nat | r < 3 && c < 3 && r == c :: At(board, r, c) == player) ||
    (forall r: nat, c: nat | r < 3 && c < 3 && r + c == 2 :: At(board, r, c) == player)
  }

  /** Cells `i`, `j` and `k` all hold `player`. */
  predicate Triple(board: Board, player: Player, i: nat, j: nat, k: nat)
    requires i < 9 && j < 9 && k < 9
  {
    board[i] == player && board[j] == player && board[k] == player
  }

  /** A line of three cells is filled exactly when its three cells are. */
  lemma FilledTriple(player: Player, board: Board, line: seq<nat>)
    requires |line| == 3 && line[0] < 9 && line[1] < 9 && line[2] < 9
    ensures Filled(board, player, line) <==> Triple(board, player, line[0], line[1], line[2])
  {
  }

  /** The win test, written out line by line. */
  lemma CheckWinUnfolded(player: Player, board: Board)
    ensures CheckWin(player, board) <==>
      Triple(board, player, 0, 1, 2) || Triple(board, player, 3, 4, 5) ||
      Triple(board, player, 6, 7, 8) || Triple(board, player, 0, 3, 6) ||
      Triple(board, player, 1, 4, 7) || Triple(board, player, 2, 5, 8) ||
      Triple(board, player, 0, 4, 8) || Triple(board, player, 2, 4, 6)
  {
    var w := WinningConditions();
    FilledTriple(player, board, w[0]);
    FilledTriple(player, board, w[1]);
    FilledTriple(player, board, w[2]);
    FilledTriple(player, board, w[3]);
    FilledTriple(player, board, w[4]);
    FilledTriple(player, board, w[5]);
    FilledTriple(player, board, w[6]);
    FilledTriple(player, board, w[7]);
  }

  /** Row `r` and column `r` of the grid as triples of cell indices. */
  lemma RowAndColumnCells(player: Player, board: Board, r: nat)
    requires r < 3
    ensures FullRow(board, player, r) <==> Triple(board, player, 3 * r, 3 * r + 1, 3 * r + 2)
    ensures FullColumn(board, player, r) <==> Triple(board, player, r, r + 3, r + 6)
  {
    assert At(board, r, 0) == board[3 * r] && At(board, 0, r) == board[r];
    assert At(board, r, 1) == board[3 * r + 1] && At(board, 1, r) == board[r + 3];
    assert At(board, r, 2) == board[3 * r + 2] && At(board, 2, r) == board[r + 6];
  }

  /** The two diagonals of the grid as triples of cell indices. */
  lemma DiagonalCells(player: Player, board: Board)
    ensures (forall r: nat, c: nat | r < 3 && c < 3 && r == c :: At(board, r, c) == player)
      <==> Triple(board, player, 0, 4, 8)
    ensures (forall r: nat, c: nat | r < 3 && c < 3 && r + c == 2 :: At(board, r, c) == player)
      <==> Triple(board, player, 2, 4, 6)
  {
    assert At(board, 0, 0) == board[0] && At(board, 1, 1) == board[4] && At(board, 2, 2) == board[8];
    assert At(board, 0, 2) == board[2] && At(board, 2, 0) == board[6];
  }

  /** The geometric definition, written out line by line. */
  lemma HasGridLineUnfolded(player: Player, board: Board)
    ensures HasGridLine(board, player) <==>
      Triple(board, player, 0, 1, 2) || Triple(board, player, 3, 4, 5) ||
      Triple(board, player, 6, 7, 8) || Triple(board, player, 0, 3, 6) ||
      Triple(board, player, 1, 4, 7) || Triple(board, player, 2, 5, 8) ||
      Triple(board, player, 0, 4, 8) || Triple(board, player, 2, 4, 6)
  {
    RowAndColumnCells(player, board, 0);
    RowAndColumnCells(player, board, 1);
    RowAndColumnCells(player, board, 2);
    DiagonalCells(player, board);
    assert (exists r: nat | r < 3 :: FullRow(board, player, r)) <==>
      FullRow(board, player, 0) || FullRow(board, player, 1) || FullRow(board, player, 2);
    assert (exists c: nat | c < 3 :: FullColumn(board, player, c)) <==>
      FullColumn(board, player, 0) || FullColumn(board, player, 1) || FullColumn(board, player, 2);
  }

  /** The eight triples are exactly the rows, columns and diagonals of the
      row-major grid: the win test agrees with the geometric definition. */
  lemma CheckWinIsGridLine(player: Player, board: Board)
    ensures CheckWin(player, board) <==> HasGridLine(board, player)
  {
    CheckWinUnfolded(player, board);
    HasGridLineUnfolded(player, board);
  }

  /** The full board with no line used as the draw example. */
  lemma DrawExample()
    ensures var b: Board := [X, O, X, X, O, O, O, X, X];
      IsBoardFull(b) && !CheckWin(X, b) && !CheckWin(O, b)
  {
    var b: Board := [X, O, X, X, O, O, O, X, X];
    CheckWinUnfolded(X, b);
    CheckWinUnfolded(O, b);
  }
}
