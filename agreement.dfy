/** The client and the server judge the same board: the page sends the text
    of its nine cells, and the server's win test on that array agrees with
    the client's checkWin. */
module Agreement {
  import opened Outcome
  import Server

  /** getGameState: the text of the nine cells, in index order, as the page
      sends it in the body of the request. */
  function Encode(board: Board): (gameState: seq<string>)
    ensures |gameState| == 9
    ensures forall i | 0 <= i < 9 :: gameState[i] == Text(board[i])
  {
    seq(9, i requires 0 <= i < 9 => Text(board[i]))
  }

  /** The two copies of the winning lines are the same list. */
  lemma SameLines()
    ensures Server.WinningConditions() == Outcome.WinningConditions()
  {
  }

  /** A cell of the sent array holds a player's mark exactly when the cell
      of the board does. */
  lemma HoldsIffMarked(board: Board, player: Player, i: nat)
    requires i < 9
    ensures Server.Holds(Encode(board), i, Text(player)) <==> board[i] == player
  {
  }

  /** isPlayerWin on the sent array is checkWin on the board. */
  lemma ServerAgreesWithClient(board: Board, player: Player)
    ensures Server.IsPlayerWin(Encode(board), Text(player)) <==> CheckWin(player, board)
  {
    var g := Encode(board);
    var t := Text(player);
    Server.IsPlayerWinUnfolded(g, t);
    CheckWinUnfolded(player, board);
    forall i: nat | i < 9
      ensures Server.Holds(g, i, t) <==> board[i] == player
    {
      HoldsIffMarked(board, player, i);
    }
  }

  /** The handler hands out the flag exactly for the boards on which `x`
      has a line. */
  lemma FlagIffXWins(board: Board)
    ensures Server.ValidateWin(Encode(board)).Success? <==> CheckWin(X, board)
    ensures Server.ValidateWin(Encode(board)).Success? ==>
      Server.ValidateWin(Encode(board)).flag == Server.Flag
  {
    ServerAgreesWithClient(board, X);
  }

  /** A board on which only `o` has a line, or on which nobody has one, is
      refused. */
  lemma NoXLineRefused(board: Board)
    requires !CheckWin(X, board)
    ensures Server.ValidateWin(Encode(board)) == Server.Failure
  {
    FlagIffXWins(board);
  }
}
