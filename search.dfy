/** The automated opponent's search in public/script.js: minimax written
    with alpha-beta bounds, over copies of the board. */
module Search {
  import opened Outcome

  datatype Option<T> = None | Some(value: T)

  /** A score as the search compares it: a finite outcome score, or one of
      the -Infinity and +Infinity the best score and the bounds start from. */
  datatype Score = NegInf | Finite(n: int) | PosInf

  /** `s < t` on scores extended with the two infinities. */
  predicate Below(s: Score, t: Score)
  {
    match (s, t)
    case (NegInf, NegInf) => false
    case (NegInf, _) => true
    case (Finite(a), Finite(b)) => a < b
    case (Finite(_), PosInf) => true
    case _ => false
  }

  /** Math.max on extended scores. */
  function Max(s: Score, t: Score): (m: Score)
    ensures m == s || m == t
    ensures !Below(m, s) && !Below(m, t)
  {
    if Below(s, t) then t else s
  }

  /** Math.min on extended scores. */
  function Min(s: Score, t: Score): (m: Score)
    ensures m == s || m == t
    ensures !Below(s, m) && !Below(t, m)
  {
    if Below(s, t) then s else t
  }

  /** What the search returns: the chosen cell, absent on a terminal board,
      and the score of the position. */
  datatype SearchResult = SearchResult(index: Option<nat>, score: Score)

  /** The player who moves next. */
  function Other(player: Player): (next: Player)
    ensures next != player
  {
    if player == O then X else O
  }

  /** The number of empty cells; it bounds the depth of the search. */
  function EmptyCount(board: Board): nat
  {
    multiset(board)[Empty]
  }

  /** The indices below `n` whose cell is empty, in ascending order: the
      map-to-index-or-null and filter of the first `n` cells. */
  function EmptyBelow(board: Board, n: nat): (moves: seq<nat>)
    requires n <= 9
  {
    if n == 0 then []
    else EmptyBelow(board, n - 1) + (if board[n - 1] == Empty then [n - 1] else [])
  }

  /** Every index EmptyBelow lists is an empty cell below `n`. */
  lemma {:induction false} EmptyBelowSound(board: Board, n: nat)
    requires n <= 9
    ensures forall j | 0 <= j < |EmptyBelow(board, n)| ::
      EmptyBelow(board, n)[j] < n && board[EmptyBelow(board, n)[j]] == Empty
  {
    if n > 0 {
      EmptyBelowSound(board, n - 1);
    }
  }

  /** availableMoves: the empty cells of the board, in ascending index order. */
  function AvailableMoves(board: Board): (moves: seq<nat>)
    ensures forall j | 0 <= j < |moves| :: moves[j] < 9 && board[moves[j]] == Empty
  {
    EmptyBelowSound(board, 9);
    EmptyBelow(board, 9)
  }

  /** EmptyBelow lists every empty cell below `n`, in strictly ascending
      order. */
  lemma {:induction false} EmptyBelowComplete(board: Board, n: nat)
    requires n <= 9
    ensures forall i: nat | i < n && board[i] == Empty :: i in EmptyBelow(board, n)
    ensures forall j, k | 0 <= j < k < |EmptyBelow(board, n)| ::
      EmptyBelow(board, n)[j] < EmptyBelow(board, n)[k]
  {
    if n > 0 {
      EmptyBelowSound(board, n - 1);
      EmptyBelowComplete(board, n - 1);
    }
  }

  /** Every empty cell is one of the moves; `j` is its position. */
  lemma PositionOfMove(board: Board, i: nat) returns (j: nat)
    requires i < 9 && board[i] == Empty
    ensures j < |AvailableMoves(board)| && AvailableMoves(board)[j] == i
  {
    EmptyBelowComplete(board, 9);
    j :| 0 <= j < |AvailableMoves(board)| && AvailableMoves(board)[j] == i;
  }

  /** The moves are listed in strictly ascending index order. */
  lemma MovesAscend(board: Board, j: nat, k: nat)
    requires j < k < |AvailableMoves(board)|
    ensures AvailableMoves(board)[j] < AvailableMoves(board)[k]
  {
    EmptyBelowComplete(board, 9);
  }

  /** There is no move exactly when isBoardFull holds. */
  lemma NoMovesIffFull(board: Board)
    ensures AvailableMoves(board) == [] <==> IsBoardFull(board)
  {
    var moves := AvailableMoves(board);
    if !IsBoardFull(board) {
      var i: nat :| i < 9 && board[i] == Empty;
      var j := PositionOfMove(board, i);
    }
    if moves != [] {
      assert moves[0] < 9 && board[moves[0]] == Empty;
    }
  }

  /** A board on which the search stops: a line for either player, or no
      empty cell left. */
  predicate Terminal(board: Board)
  {
    CheckWin(O, board) || CheckWin(X, board) || IsBoardFull(board)
  }

  /** The better of the best score so far and a new one, for `player`: the
      new score is kept only when it is strictly larger (for `o`) or
      strictly smaller (for `x`). */
  function Keep(player: Player, best: int, score: int): int
  {
    if player == O then (if best < score then score else best)
    else (if score < best then score else best)
  }

  /** The score the search keeps after trying the scores `scores` in order:
      the largest for `o`, the smallest for `x`. */
  function Extremum(player: Player, scores: seq<int>): (r: int)
    requires |scores| > 0
    ensures r in scores
    ensures forall s | s in scores :: if player == O then s <= r else r <= s
  {
    if |scores| == 1 then scores[0]
    else
      var init := scores[..|scores| - 1];
      assert forall s | s in scores :: s in init || s == scores[|scores| - 1];
      Keep(player, Extremum(player, init), scores[|scores| - 1])
  }

  /** The minimax value of `board` with `player` to move: 10 when `o` has a
      line, -10 when `x` has one, 0 when no cell is left, and otherwise the
      best value of a move, the largest for `o` and the smallest for `x`. */
  function Value(board: Board, player: Player): (v: int)
    ensures v == -10 || v == 0 || v == 10
    decreases EmptyCount(board), 2, 0
  {
    var moves := AvailableMoves(board);
    if CheckWin(O, board) then 10
    else if CheckWin(X, board) then -10
    else if |moves| == 0 then 0
    else Extremum(player, ChildValues(board, player, moves))
  }

  /** The values of the positions reached by the moves in `moves`, in order. */
  function ChildValues(board: Board, player: Player, moves: seq<nat>): (values: seq<int>)
    requires forall j | 0 <= j < |moves| :: moves[j] < 9 && board[moves[j]] == Empty
    ensures |values| == |moves|
    ensures forall v | v in values :: v == -10 || v == 0 || v == 10
    decreases EmptyCount(board), 1, |moves|
  {
    if |moves| == 0 then []
    else
      ChildValues(board, player, moves[..|moves| - 1]) +
      [ChildValue(board, player, moves[|moves| - 1])]
  }

  /** The value of the position after `player` marks the empty cell `move`. */
  function ChildValue(board: Board, player: Player, move: nat): int
    requires move < 9 && board[move] == Empty
    decreases EmptyCount(board), 0, 0
  {
    Value(board[move := player], Other(player))
  }

  /** The `j`-th of the child values belongs to the `j`-th move. */
  lemma {:induction false} ChildValuesAt(board: Board, player: Player, moves: seq<nat>, j: nat)
    requires forall i | 0 <= i < |moves| :: moves[i] < 9 && board[moves[i]] == Empty
    requires j < |moves|
    ensures ChildValues(board, player, moves)[j] == ChildValue(board, player, moves[j])
    decreases |moves|
  {
    var n := |moves|;
    if j < n - 1 {
      ChildValuesAt(board, player, moves[..n - 1], j);
    }
  }

  /** Trying one more score keeps the first score, and afterwards keeps the
      new score only when it is strictly better. */
  lemma ExtremumExtend(player: Player, scores: seq<int>, score: int)
    ensures Extremum(player, scores + [score]) ==
      if scores == [] then score else Keep(player, Extremum(player, scores), score)
  {
    assert (scores + [score])[..|scores|] == scores;
  }

  /** `move` is the move the search settles on: an empty cell whose value is
      the value of the position, and the lowest-indexed such cell. */
  predicate IsBestMove(board: Board, player: Player, move: nat)
  {
    move < 9 && board[move] == Empty &&
    ChildValue(board, player, move) == Value(board, player) &&
    forall j: nat | j < move && board[j] == Empty ::
      ChildValue(board, player, j) != Value(board, player)
  }

  /** On a board that is not terminal the value is the minimax value: no
      move is better for the player to move, and some move attains it. */
  lemma ValueIsMinimax(board: Board, player: Player)
    requires !Terminal(board)
    ensures forall m: nat | m < 9 && board[m] == Empty ::
      if player == O then ChildValue(board, player, m) <= Value(board, player)
      else Value(board, player) <= ChildValue(board, player, m)
    ensures exists m: nat | m < 9 && board[m] == Empty ::
      ChildValue(board, player, m) == Value(board, player)
  {
    var moves := AvailableMoves(board);
    var values := ChildValues(board, player, moves);
    NoMovesIffFull(board);
    assert Value(board, player) == Extremum(player, values);
    forall m: nat | m < 9 && board[m] == Empty
      ensures if player == O then ChildValue(board, player, m) <= Value(board, player)
        else Value(board, player) <= ChildValue(board, player, m)
    {
      var j := PositionOfMove(board, m);
      ChildValuesAt(board, player, moves, j);
      assert values[j] in values;
    }
    var j :| 0 <= j < |values| && values[j] == Extremum(player, values);
    ChildValuesAt(board, player, moves, j);
    assert moves[j] < 9 && board[moves[j]] == Empty;
  }

  /** At most one cell is the best move, so the search result is a function
      of the board and the player alone. */
  lemma BestMoveIsUnique(board: Board, player: Player, m1: nat, m2: nat)
    requires IsBestMove(board, player, m1) && IsBestMove(board, player, m2)
    ensures m1 == m2
  {
  }

  /** The child board of the search: `board.slice()` with `player` then
      written into cell `move` of the copy. The caller's board is a value
      and is left as it was. */
  method PlayOnCopy(board: Board, move: nat, player: Player) returns (newBoard: Board)
    requires move < 9
    ensures newBoard == board[move := player]
  {
    var copy := new Cell[9];
    var i := 0;
    while i < 9
      invariant 0 <= i <= 9
      invariant forall j | 0 <= j < i :: copy[j] == board[j]
    {
      copy[i] := board[i];
      i := i + 1;
    }
    copy[move] := player;
    newBoard := copy[..];
  }

  /** Off a terminal board, the value is the kept score over all moves. */
  lemma ValueOfInner(board: Board, player: Player)
    requires !Terminal(board)
    ensures AvailableMoves(board) != []
    ensures Value(board, player) == Extremum(player, ChildValues(board, player, AvailableMoves(board)))
  {
    NoMovesIffFull(board);
  }

  /** If no move before position `pos` has value `e`, no empty cell below
      the move at `pos` has it either. */
  lemma EarlierCellsDiffer(board: Board, player: Player, pos: nat, e: int)
    requires pos < |AvailableMoves(board)|
    requires forall j | 0 <= j < pos :: ChildValues(board, player, AvailableMoves(board))[j] != e
    ensures forall j: nat | j < AvailableMoves(board)[pos] && board[j] == Empty ::
      ChildValue(board, player, j) != e
  {
    var moves := AvailableMoves(board);
    forall j: nat | j < moves[pos] && board[j] == Empty
      ensures ChildValue(board, player, j) != e
    {
      var jj := PositionOfMove(board, j);
      if pos < jj {
        MovesAscend(board, pos, jj);
      }
      ChildValuesAt(board, player, moves, jj);
    }
  }

  /** A score `score` is strictly better for `player` than the best so far:
      larger for `o`, smaller for `x`. */
  predicate Improves(player: Player, best: SearchResult, score: int): (improves: bool)
    ensures improves ==> best.score != Finite(score)
    ensures best.score.Finite? ==>
      (improves <==> if player == O then best.score.n < score else score < best.score.n)
  {
    if player == O then Below(best.score, Finite(score)) else Below(Finite(score), best.score)
  }

  /** The best move after considering `move` with score `score`. */
  function Improve(player: Player, best: SearchResult, move: nat, score: int): (next: SearchResult)
    ensures Improves(player, best, score) ==> next == SearchResult(Some(move), Finite(score))
    ensures !Improves(player, best, score) ==> next == best
    ensures if player == O then !Below(next.score, best.score) else !Below(best.score, next.score)
  {
    if Improves(player, best, score) then SearchResult(Some(move), Finite(score)) else best
  }

  /** The position of the kept move after considering the move at position `k`. */
  function NextPos(player: Player, best: SearchResult, score: int, k: nat, pos: nat): nat
  {
    if Improves(player, best, score) then k else pos
  }

  /** The best move before any move is tried: no index, and the worst
      score for `player`. */
  function Initial(player: Player): (init: SearchResult)
    ensures init.index == None
    ensures forall score: int :: Improves(player, init, score)
  {
    SearchResult(None, if player == O then NegInf else PosInf)
  }

  /** `best` is what the search holds after trying the first |tried| of
      `moves`, whose values are `tried`: the first of them, at position
      `pos`, whose value is the kept score. */
  predicate Tracks(player: Player, moves: seq<nat>, tried: seq<int>, pos: nat, best: SearchResult)
  {
    |tried| <= |moves| &&
    (|tried| == 0 ==> best == Initial(player)) &&
    (|tried| > 0 ==>
      pos < |tried| &&
      best == SearchResult(Some(moves[pos]), Finite(Extremum(player, tried))) &&
      tried[pos] == Extremum(player, tried) &&
      forall j | 0 <= j < pos :: tried[j] != Extremum(player, tried))
  }

  /** Considering one more move keeps `Tracks`. */
  lemma TracksStep(player: Player, moves: seq<nat>, tried: seq<int>, pos: nat, best: SearchResult,
                   score: int)
    requires |tried| < |moves|
    requires Tracks(player, moves, tried, pos, best)
    ensures Tracks(player, moves, tried + [score], NextPos(player, best, score, |tried|, pos),
                   Improve(player, best, moves[|tried|], score))
  {
    ExtremumExtend(player, tried, score);
    var tried' := tried + [score];
    if tried == [] {
      assert tried' == [score];
    } else {
      var e := Extremum(player, tried);
      assert forall j | 0 <= j < |tried| :: tried'[j] == tried[j];
      if Improves(player, best, score) {
        assert Extremum(player, tried') == score;
        forall j | 0 <= j < |tried|
          ensures tried[j] != score
        {
          assert tried[j] in tried;
        }
      } else {
        assert Extremum(player, tried') == e;
      }
    }
  }

  /** The search has tried the first |tried| of `moves`: `tried` holds their
      values, in order, and `best` is what the search keeps for them. */
  predicate Searched(board: Board, player: Player, moves: seq<nat>, tried: seq<int>, pos: nat,
                     best: SearchResult)
    requires forall j | 0 <= j < |moves| :: moves[j] < 9 && board[moves[j]] == Empty
  {
    |tried| <= |moves| &&
    (forall j | 0 <= j < |tried| :: tried[j] == ChildValue(board, player, moves[j])) &&
    Tracks(player, moves, tried, pos, best)
  }

  /** Trying the next move, whose value is the next child value, keeps
      `Searched`. */
  lemma SearchedStep(board: Board, player: Player, moves: seq<nat>, tried: seq<int>, pos: nat,
                     best: SearchResult)
    requires forall j | 0 <= j < |moves| :: moves[j] < 9 && board[moves[j]] == Empty
    requires |tried| < |moves|
    requires Searched(board, player, moves, tried, pos, best)
    ensures var v := ChildValue(board, player, moves[|tried|]);
      Searched(board, player, moves, tried + [v], NextPos(player, best, v, |tried|, pos),
               Improve(player, best, moves[|tried|], v))
  {
    var v := ChildValue(board, player, moves[|tried|]);
    TracksStep(player, moves, tried, pos, best, v);
    assert forall j | 0 <= j < |tried| :: (tried + [v])[j] == tried[j];
  }

  /** The values tried one by one are the child values of the moves. */
  lemma TriedAreChildValues(board: Board, player: Player, tried: seq<int>)
    requires |tried| == |AvailableMoves(board)|
    requires forall j | 0 <= j < |tried| :: tried[j] == ChildValue(board, player, AvailableMoves(board)[j])
    ensures tried == ChildValues(board, player, AvailableMoves(board))
  {
    var moves := AvailableMoves(board);
    forall j | 0 <= j < |tried|
      ensures tried[j] == ChildValues(board, player, moves)[j]
    {
      ChildValuesAt(board, player, moves, j);
    }
  }

  /** Once every move has been tried, the move kept is the best move and
      its score is the value of the position. */
  lemma BestMoveFound(board: Board, player: Player, tried: seq<int>, pos: nat, best: SearchResult)
    requires !CheckWin(O, board) && !CheckWin(X, board) && AvailableMoves(board) != []
    requires |tried| == |AvailableMoves(board)|
    requires Searched(board, player, AvailableMoves(board), tried, pos, best)
    ensures !Terminal(board)
    ensures best.score == Finite(Value(board, player))
    ensures best.index.Some? && IsBestMove(board, player, best.index.value)
  {
    var moves := AvailableMoves(board);
    TriedAreChildValues(board, player, tried);
    var e := Extremum(player, tried);
    NoMovesIffFull(board);
    ValueOfInner(board, player);
    ChildValuesAt(board, player, moves, pos);
    EarlierCellsDiffer(board, player, pos, e);
  }

  /** The forEach callback for one move: search the child position on a copy
      of the board, keep the move if it is strictly better, and tighten the
      bound of the player to move. Its `return` once beta <= alpha ends only
      this callback. */
  method TryMove(board: Board, player: Player, move: nat, alpha: Score, beta: Score, bestMove: SearchResult)
    returns (bestMove': SearchResult, alpha': Score, beta': Score)
    requires move < 9 && board[move] == Empty
    ensures bestMove' == Improve(player, bestMove, move, ChildValue(board, player, move))
    ensures alpha' == if player == O && Improves(player, bestMove, ChildValue(board, player, move))
      then Max(alpha, Finite(ChildValue(board, player, move))) else alpha
    ensures beta' == if player == X && Improves(player, bestMove, ChildValue(board, player, move))
      then Min(beta, Finite(ChildValue(board, player, move))) else beta
    ensures !Below(alpha', alpha) && !Below(beta, beta')
    decreases EmptyCount(board), 0
  {
    alpha', beta' := alpha, beta;
    bestMove' := bestMove;
    var newBoard := PlayOnCopy(board, move, player);
    var result := Minimax(newBoard, Other(player), alpha, beta);
    if player == O {
      if Below(bestMove'.score, result.score) {
        bestMove' := SearchResult(Some(move), result.score);
        alpha' := Max(alpha', result.score);
      }
    } else {
      if Below(result.score, bestMove'.score) {
        bestMove' := SearchResult(Some(move), result.score);
        beta' := Min(beta', result.score);
      }
    }
    if !Below(alpha', beta') {
      return;
    }
  }

  /** availableMoves.forEach: the callback is run for every move, in order;
      `tried` and `pos` are the values of the moves and the position of the
      move kept. */
  method ForEachMove(board: Board, player: Player, availableMoves: seq<nat>,
                     alpha: Score, beta: Score)
    returns (bestMove: SearchResult, ghost tried: seq<int>, ghost pos: nat)
    requires forall j | 0 <= j < |availableMoves| ::
      availableMoves[j] < 9 && board[availableMoves[j]] == Empty
    ensures |tried| == |availableMoves|
    ensures Searched(board, player, availableMoves, tried, pos, bestMove)
    ensures availableMoves == [] ==> bestMove == Initial(player)
    ensures availableMoves != [] ==> bestMove.index.Some? && bestMove.index.value in availableMoves
    decreases EmptyCount(board), 1
  {
    var alpha', beta' := alpha, beta;
    bestMove := Initial(player);
    tried := [];
    pos := 0;
    var k := 0;
    while k < |availableMoves|
      invariant 0 <= k <= |availableMoves|
      invariant |tried| == k
      invariant Searched(board, player, availableMoves, tried, pos, bestMove)
    {
      var move := availableMoves[k];
      ghost var v := ChildValue(board, player, move);
      SearchedStep(board, player, availableMoves, tried, pos, bestMove);
      pos := NextPos(player, bestMove, v, k, pos);
      bestMove, alpha', beta' := TryMove(board, player, move, alpha', beta', bestMove);
      tried := tried + [v];
      k := k + 1;
    }
  }

  /** minimax(board, player, alpha, beta): 10 when `o` has a line (tested
      first), -10 when `x` has one, 0 with no move left, each without an
      index; otherwise every empty cell is tried in ascending order on a copy
      of the board and the first move with the best score is kept. The
      bounds only end a callback early, never skip a move, so the result is
      the plain minimax value and move whatever `alpha` and `beta` are. */
  method Minimax(board: Board, player: Player, alpha: Score, beta: Score)
    returns (bestMove: SearchResult)
    ensures bestMove.score == Finite(Value(board, player))
    ensures CheckWin(O, board) ==> bestMove == SearchResult(None, Finite(10))
    ensures !CheckWin(O, board) && CheckWin(X, board) ==> bestMove == SearchResult(None, Finite(-10))
    ensures !CheckWin(O, board) && !CheckWin(X, board) && IsBoardFull(board) ==>
      bestMove == SearchResult(None, Finite(0))
    ensures !Terminal(board) ==> bestMove.index.Some? && IsBestMove(board, player, bestMove.index.value)
    decreases EmptyCount(board), 2
  {
    var availableMoves := AvailableMoves(board);

    if CheckWin(O, board) { return SearchResult(None, Finite(10)); }
    if CheckWin(X, board) { return SearchResult(None, Finite(-10)); }
    if |availableMoves| == 0 {
      NoMovesIffFull(board);
      return SearchResult(None, Finite(0));
    }

    ghost var tried, pos;
    bestMove, tried, pos := ForEachMove(board, player, availableMoves, alpha, beta);
    BestMoveFound(board, player, tried, pos, bestMove);
  }
}
