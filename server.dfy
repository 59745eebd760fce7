/** The server's half of server.js: its own copy of the winning lines, the
    win test over the submitted game state, and the decision of the
    POST /validate-win handler. */
module Server {

  /** The flag the handler hands out for a winning board. */
  const Flag: string := "CTF{INSANE-FLAG-Tic-Tac-Toe}"

  /** The JSON the handler answers with: `{ success: true, flag }` or
      `{ success: false }`. */
  datatype Response = Success(flag: string) | Failure

  /** The server's copy of the eight winning lines. */
  function WinningConditions(): (lines: seq<seq<nat>>)
    ensures |lines| == 8
    ensures forall k | 0 <= k < |lines| ::
      |lines[k]| == 3 && lines[k][0] < lines[k][1] < lines[k][2] < 9
  {
    [[0, 1, 2],
     [3, 4, 5],
     [6, 7, 8],
     [0, 3, 6],
     [1, 4, 7],
     [2, 5, 8],
     [0, 4, 8],
     [2, 4, 6]]
  }

  /** `gameState[index] === player`: an index past the end of the submitted
      array reads as undefined, which equals no player. */
  predicate Holds(gameState: seq<string>, index: nat, player: string): (held: bool)
    ensures |gameState| <= index ==> !held
    ensures index < |gameState| ==> (held <==> gameState[index] == player)
  {
    index < |gameState| && gameState[index] == player
  }

  /** Every index of `line` holds `player` in the submitted state. */
  predicate LineHolds(gameState: seq<string>, line: seq<nat>, player: string)
  {
    forall j | 0 <= j < |line| :: Holds(gameState, line[j], player)
  }

  /** isPlayerWin: some winning line is held by `player` in every cell. A
      win takes three distinct entries of the array holding the player. */
  predicate IsPlayerWin(gameState: seq<string>, player: string): (won: bool)
    ensures won ==> exists i, j, k | 0 <= i < j < k < |gameState| ::
      gameState[i] == player && gameState[j] == player && gameState[k] == player
  {
    exists k | 0 <= k < |WinningConditions()| :: LineHolds(gameState, WinningConditions()[k], player)
  }

  /** The cells `i`, `j` and `k` all hold `player`. */
  predicate HoldsTriple(gameState: seq<string>, player: string, i: nat, j: nat, k: nat)
  {
    Holds(gameState, i, player) && Holds(gameState, j, player) && Holds(gameState, k, player)
  }

  /** A line of three indices is held exactly when its three cells are. */
  lemma LineHoldsTriple(gameState: seq<string>, line: seq<nat>, player: string)
    requires |line| == 3
    ensures LineHolds(gameState, line, player) <==>
      HoldsTriple(gameState, player, line[0], line[1], line[2])
  {
  }

  /** The server's win test, written out line by line. */
  lemma IsPlayerWinUnfolded(gameState: seq<string>, player: string)
    ensures IsPlayerWin(gameState, player) <==>
      HoldsTriple(gameState, player, 0, 1, 2) || HoldsTriple(gameState, player, 3, 4, 5) ||
      HoldsTriple(gameState, player, 6, 7, 8) || HoldsTriple(gameState, player, 0, 3, 6) ||
      HoldsTriple(gameState, player, 1, 4, 7) || HoldsTriple(gameState, player, 2, 5, 8) ||
      HoldsTriple(gameState, player, 0, 4, 8) || HoldsTriple(gameState, player, 2, 4, 6)
  {
    var w := WinningConditions();
    LineHoldsTriple(gameState, w[0], player);
    LineHoldsTriple(gameState, w[1], player);
    LineHoldsTriple(gameState, w[2], player);
    LineHoldsTriple(gameState, w[3], player);
    LineHoldsTriple(gameState, w[4], player);
    LineHoldsTriple(gameState, w[5], player);
    LineHoldsTriple(gameState, w[6], player);
    LineHoldsTriple(gameState, w[7], player);
  }

  /** The /validate-win handler: the flag for a game state in which `x`
      holds a line, and a plain failure otherwise. */
  function ValidateWin(gameState: seq<string>): (r: Response)
    ensures r.Success? <==> IsPlayerWin(gameState, "x")
    ensures r.Success? ==> r.flag == Flag
  {
    if IsPlayerWin(gameState, "x") then Success(Flag) else Failure
  }

  /** Only the first nine entries of the submitted array are read: two
      states that agree there get the same answer, whatever follows. */
  lemma {:induction false} OnlyBoardCellsMatter(g1: seq<string>, g2: seq<string>)
    requires forall i: nat | i < 9 :: Holds(g1, i, "x") == Holds(g2, i, "x")
    ensures ValidateWin(g1) == ValidateWin(g2)
  {
    IsPlayerWinUnfolded(g1, "x");
    IsPlayerWinUnfolded(g2, "x");
  }

  /** A line needs three cells, the lowest at index 0 and the highest at
      index 2 at the least: an array of fewer than three entries never wins. */
  lemma ShortStateNeverWins(gameState: seq<string>, player: string)
    requires |gameState| < 3
    ensures !IsPlayerWin(gameState, player)
  {
    IsPlayerWinUnfolded(gameState, player);
  }

  /** The board in which `x` has taken the top row is answered with the flag. */
  lemma TopRowGetsFlag()
    ensures ValidateWin(["x", "x", "x", "o", "o", "", "", "", ""]) == Success(Flag)
  {
    IsPlayerWinUnfolded(["x", "x", "x", "o", "o", "", "", "", ""], "x");
  }

  /** A bare three-entry array holding "x" three times is enough: nothing
      checks the length of the submitted state. */
  lemma ThreeEntriesGetFlag()
    ensures ValidateWin(["x", "x", "x"]) == Success(Flag)
  {
    IsPlayerWinUnfolded(["x", "x", "x"], "x");
  }

  /** A line of "o" alone earns nothing: only `x` lines are rewarded. */
  lemma OLineFails()
    ensures ValidateWin(["o", "o", "o", "x", "x", "", "", "", ""]) == Failure
  {
    IsPlayerWinUnfolded(["o", "o", "o", "x", "x", "", "", "", ""], "x");
  }
}
