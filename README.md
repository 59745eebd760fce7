# Tic-tac-toe outcome, search and win validation, in Dafny

This project models the algorithmic core of a browser tic-tac-toe game with a
capture-the-flag reward:

- **Outcome** (`outcome.dfy`): the page's board of nine cells, its eight
  winning lines, `checkWin` and `isBoardFull`.
- **Search** (`search.dfy`): the computer opponent's `minimax`. It is written
  with alpha-beta bounds and works on copies of the board.
- **Server** (`server.dfy`): the server's own copy of the winning lines,
  `isPlayerWin`, and the decision of the `POST /validate-win` handler. The
  handler hands out the flag for any game state in which `x` holds a line.
- **Agreement** (`agreement.dfy`): the bridge between the two halves. The
  page sends the text of its cells, and the server judges that array exactly
  as the page judges its board.

A board is a sequence of nine cells (`Empty`, `X`, `O`) in row-major order.
A cell's text is `''`, `'x'` or `'o'`.

The search is modelled in the source's own form:

- `Minimax` is a method. It runs the three terminal tests in the source's
  order: an `o` line first, then an `x` line, then no move left.
- `ForEachMove` is the `forEach` loop over the available moves.
- `TryMove` is the loop's callback. It copies the board into a fresh array
  (`board.slice()`), writes the move, recurses with the bounds as they stand,
  keeps the move only on a strictly better score, and tightens `alpha` or
  `beta`.

The callback's `return` once `beta <= alpha` only ends that callback. The
loop goes on, so no move is ever skipped.

Each method is proved against a specification function:

- `Value` is plain minimax without bounds.
- `IsBestMove` says which move is chosen: an empty cell whose value is the
  position's value, and the lowest-indexed such cell.
- The lemmas connect the two: `Value` is the maximum or minimum over the
  moves, some move attains it, and the best move is unique.

Scores are `Finite(n)`, plus the `-Infinity` and `+Infinity` that the best
score and the bounds start from.

## Model

| member | source | states |
|---|---|---|
| Outcome.WinningConditions | public/script.js:14-23 | eight lines of three strictly ascending indices, all below 9, so the three cells of a line are distinct cells of the board |
| Outcome.Text | public/script.js:25-27 | the text of a cell is '' exactly for an empty cell, 'x' exactly for X and 'o' exactly for O |
| Outcome.CheckWin | public/script.js:88-94 | checkWin: some winning line has all its cells marked by the player; a win therefore takes three distinct cells holding the player |
| Outcome.IsBoardFull | public/script.js:96-98 | isBoardFull: every cell is marked, that is, the empty mark does not occur on the board |
| Outcome.CheckWinUnfolded | public/script.js:88-94 | checkWin holds exactly when one of the eight listed triples is marked by the player in all three cells |
| Outcome.CheckWinIsGridLine | public/script.js:14-23 | the win test agrees with an independent geometric definition of a line: a full row, a full column or one of the two diagonals |
| Outcome.DrawExample | public/script.js:96-98 | a full board with no line for either player exists, so a draw is reachable: isBoardFull holds while checkWin fails for both players |
| Search.Max | public/script.js:140 | Math.max on extended scores returns one of its arguments and neither argument is above it |
| Search.Min | public/script.js:145 | Math.min on extended scores returns one of its arguments and neither argument is below it |
| Search.Other | public/script.js:136 | the next player is never the one who just moved |
| Search.AvailableMoves | public/script.js:123-125 | every listed move is an index below 9 whose cell is empty |
| Search.EmptyBelowSound | public/script.js:123-125 | every index the map-and-filter keeps among the first n cells is below n and names an empty cell |
| Search.EmptyBelowComplete | public/script.js:123-125 | every empty cell below n is listed, and the list is strictly ascending, hence free of repeats |
| Search.NoMovesIffFull | public/script.js:96-98 | availableMoves is empty exactly when isBoardFull holds, so the third terminal test is the draw test |
| Search.Initial | public/script.js:131 | the best move before any move is tried has no index and the worst score for the player, so the first move tried is always kept |
| Search.Improves | public/script.js:138-143 | the strict comparison of the callback: a score equal to the kept one never replaces it, and against a finite kept score it is a larger score for o and a smaller one for x |
| Search.Improve | public/script.js:137-147 | the kept move becomes the tried move with its score exactly when the score improves, and otherwise stays; the kept score never gets worse for the player |
| Search.Extremum | public/script.js:137-147 | the score kept after trying a list of scores is one of them and is the largest of them for o and the smallest for x |
| Search.Value | public/script.js:127-129 | the value of every position is -10, 0 or 10 |
| Search.ChildValues | public/script.js:133-136 | there is one child value per move, each -10, 0 or 10 |
| Search.ValueIsMinimax | public/script.js:122-154 | off a terminal board no empty cell scores better for the player to move than the value, and some empty cell attains it |
| Search.BestMoveIsUnique | public/script.js:138-144 | at most one cell is the best move, since ties are broken by the lowest index |
| Search.PlayOnCopy | public/script.js:134-135 | the child board is the caller's board with the one cell `move` set to the player, and nothing else changed |
| Search.TracksStep | public/script.js:137-147 | considering one more move keeps the kept move as the first move whose value is the extremum of the values so far |
| Search.BestMoveFound | public/script.js:153 | after every move is tried, the kept move is the best move and its score is the value of the position |
| Search.TryMove | public/script.js:133-150 | the callback keeps the move exactly when its score is strictly better, raises alpha (o) or lowers beta (x) to that score, and never loosens either bound |
| Search.SearchedStep | public/script.js:133-147 | trying the next move records its child value and keeps the kept move as the first move whose value is the extremum so far |
| Search.ForEachMove | public/script.js:133-151 | after the loop every move has been tried in order, its child value recorded, and the kept move is the first move of maximum (o) or minimum (x) value among all moves; with no moves the initial best move (no index, the worst score) is returned, otherwise the index is one of the moves |
| Search.Minimax | public/script.js:122-154 | 10 with no index if o has a line, else -10 if x has one, else 0 on a full board; otherwise the score is the minimax value and the index is the lowest empty cell that attains it, whatever alpha and beta are |
| Server.WinningConditions | server.js:13-22 | eight lines of three strictly ascending indices below 9 |
| Server.Holds | server.js:38 | `gameState[index] === player`: an index past the end reads as undefined and holds no player; otherwise the entry must equal the player's text |
| Server.IsPlayerWin | server.js:35-41 | isPlayerWin: some winning line has every entry equal to the player's text; a win therefore takes three distinct entries of the array holding it |
| Server.IsPlayerWinUnfolded | server.js:35-41 | isPlayerWin holds exactly when one of the eight triples holds the player's text in all three entries; an entry past the end of the array holds nothing |
| Server.ValidateWin | server.js:25-32 | the handler succeeds exactly when x holds a line, and a success carries the flag 'CTF{INSANE-FLAG-Tic-Tac-Toe}' |
| Server.OnlyBoardCellsMatter | server.js:25-41 | two submitted arrays that agree on where 'x' stands in the first nine entries get the same answer |
| Server.ShortStateNeverWins | server.js:35-41 | an array of fewer than three entries never holds a line |
| Server.TopRowGetsFlag | server.js:27-28 | the board with x on the top row and o on two cells is answered with the flag |
| Server.ThreeEntriesGetFlag | server.js:27-28 | the three-entry array ['x','x','x'] is answered with the flag, because nothing checks length, turn order or legality |
| Server.OLineFails | server.js:29-30 | a board on which only o has a line is refused |
| Agreement.Encode | public/script.js:25-27 | the state sent to the server has nine entries, the text of each cell in index order |
| Agreement.SameLines | server.js:13-22 | the server's winning lines are exactly the client's |
| Agreement.ServerAgreesWithClient | server.js:35-41 | isPlayerWin on the sent state equals checkWin on the board, for either player |
| Agreement.FlagIffXWins | server.js:25-32 | the flag is handed out exactly for the boards on which x has a line |
| Agreement.NoXLineRefused | server.js:29-30 | a board with no x line, including one where only o has a line, is refused |

## Left out

- The page's DOM, sounds, messages and timers are not modelled. This covers
  cell rendering, `handleCellPlayed`, `handleCellClick`, `aiMove` and
  `restartGame`. These are the turn flow around the core, not part of it.
- `requestFlag` and the HTTP transport are not modelled. The handler is a
  function from the submitted `gameState` to its response.
- The server is modelled over a sequence of strings of any length, and the
  handler checks nothing about `gameState` before indexing it (no rejection
  path is invented). This covers an array holding other JSON values too: an
  entry that is not a string never equals `'x'`, just like any string other
  than `'x'`. It also covers a JSON string such as `"xxx"`: indexing it gives
  one-character strings, so it reads as `['x','x','x']` and earns the flag.
  Not modelled: an object with numeric keys such as `{"0":"x","1":"x","2":"x"}`,
  which is indexed the same way and can earn the flag as well; a missing or
  `null` `gameState`, on which `gameState[index]` throws a TypeError
  (server.js:38); and a number or boolean, which holds no entries and always
  fails.
- Search.Value: the value of the empty board is not proved. Exploring the
  whole game tree is beyond what the verifier can unfold.
- Search.Minimax: the copies of the board are modelled as values. The
  caller's board is a sequence that the search cannot change, so the claim
  "the input board is not mutated" holds by construction and is not stated
  as a contract.
- Integer width and floating-point scores are not modelled. Scores are
  mathematical integers, which is exact here, since every score is -10, 0
  or 10.

Three behaviours of the code worth knowing:

- The `return` once `beta <= alpha` (public/script.js:148-150) ends only the
  `forEach` callback. No move is skipped, and the bounds never change the
  result.
- The handler (server.js:25-32) checks neither the length nor the values of
  `gameState`. The short array `['x','x','x']` earns the flag
  (Server.ThreeEntriesGetFlag).
- An `o` line is tested before an `x` line (public/script.js:127-128). A
  board holding both lines scores 10.
