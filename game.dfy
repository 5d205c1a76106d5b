/** The game controller: turn and outcome transitions as pure functions, and
    the `gameController` object whose methods carry them out on the shared
    board array, including the in-place minimax search. */
module Game {
  import opened Board
  import opened Rules
  import Search

  /** The verdict `showResult` reports when a game ends: the mover's win or a
      tie; `Running` while the game goes on. */
  datatype Outcome = Running | Won(winner: Marker) | Tie

  /** The controller's state: the board, the player whose symbol the next
      move writes, whether the game has ended, and the verdict reported. */
  datatype GameState = GameState(board: seq<Cell>, current: Marker, over: bool, outcome: Outcome)

  /** A state in which a move may be made: the game is running and nobody
      has a line. */
  predicate Playable(g: GameState)
  {
    |g.board| == 9 && !g.over && g.outcome == Running
    && !CheckWin(g.board, Human) && !CheckWin(g.board, Ai)
  }

  /** The state between clicks: while the game runs it is the human's turn
      and nobody has a line; once over, either the last mover has a line and
      is reported the winner, or nobody has a line, the board is full and a
      tie is reported. */
  predicate Settled(g: GameState)
  {
    && |g.board| == 9
    && (g.over <==> g.outcome != Running)
    && (!g.over ==> g.current == Human && !CheckWin(g.board, Human) && !CheckWin(g.board, Ai))
    && (g.outcome.Won? ==> g.outcome.winner == g.current && CheckWin(g.board, g.current))
    && (g.outcome == Tie ==> CheckTie(g.board) && !CheckWin(g.board, Human) && !CheckWin(g.board, Ai))
  }

  /** One move without the computer's reply: write the mover's symbol, then
      test for the mover's win, then for a full board, else pass the turn. */
  function Place(g: GameState, index: nat): (r: GameState)
    requires |g.board| == 9 && index < 9
  {
    var b := g.board[index := Taken(g.current)];
    if CheckWin(b, g.current) then g.(board := b, over := true, outcome := Won(g.current))
    else if CheckTie(b) then g.(board := b, over := true, outcome := Tie)
    else g.(board := b, current := Other(g.current))
  }

  /** `makeMove`: the move, and, when the turn passes to the computer, its
      reply. */
  function AfterMove(g: GameState, index: nat): (r: GameState)
    requires Playable(g) && index < 9 && g.board[index] == Empty
    decreases |EmptyCells(g.board)|, 0
  {
    var g1 := Place(g, index);
    if g1.over || g1.current != Ai then g1
    else
      EmptyCellsShrink(g.board, index, g.current);
      PlacingKeepsOpponentLines(g.board, index, g.current, Ai);
      AiTurn(g1)
  }

  /** `makeAiMove`: the computer searches the board and makes the chosen move. */
  function AiTurn(g: GameState): (r: GameState)
    requires Playable(g) && g.current == Ai && !CheckTie(g.board)
    decreases |EmptyCells(g.board)|, 1
  {
    AfterMove(g, Search.Minimax(g.board, Ai).index)
  }

  /** Every move from a playable state ends in a settled state, whoever
      moves. */
  lemma {:induction false} AfterMoveSettles(g: GameState, index: nat)
    requires Playable(g) && index < 9 && g.board[index] == Empty
    ensures Settled(AfterMove(g, index))
    decreases |EmptyCells(g.board)|
  {
    var g1 := Place(g, index);
    PlacingKeepsOpponentLines(g.board, index, g.current, Other(g.current));
    if !g1.over && g1.current == Ai {
      EmptyCellsShrink(g.board, index, g.current);
      AfterMoveSettles(g1, Search.Minimax(g1.board, Ai).index);
    }
  }

  /** A human move on a settled board: a line ends the game as the human's win
      even on a full board; otherwise a full board ends it as a tie; otherwise
      the computer writes its symbol into the empty cell its search chose, and
      the game then ends or returns to the human. */
  lemma HumanTurn(g: GameState, index: nat)
    requires Settled(g) && !g.over && index < 9 && g.board[index] == Empty
    ensures var b1 := g.board[index := Taken(Human)];
            var r := AfterMove(g, index);
      if CheckWin(b1, Human) then r == GameState(b1, Human, true, Won(Human))
      else if CheckTie(b1) then r == GameState(b1, Human, true, Tie)
      else
        var j := Search.Minimax(b1, Ai).index;
        && j < 9 && b1[j] == Empty
        && r.board == b1[j := Taken(Ai)]
        && r.outcome == (if CheckWin(r.board, Ai) then Won(Ai)
                         else if CheckTie(r.board) then Tie
                         else Running)
        && r.over == (r.outcome != Running)
        && r.current == (if r.over then Ai else Human)
  {
    var b1 := g.board[index := Taken(Human)];
    if !CheckWin(b1, Human) && !CheckTie(b1) {
      PlacingKeepsOpponentLines(g.board, index, Human, Ai);
      var j := Search.Minimax(b1, Ai).index;
      var b2 := b1[j := Taken(Ai)];
      PlacingKeepsOpponentLines(b1, j, Ai, Human);
      assert AfterMove(g, index) == AfterMove(GameState(b1, Ai, false, Running), j);
    }
  }

  /** The human completes a line by filling the last empty cell: the game is
      reported as the human's win, not as a tie, although the board is full. */
  lemma WinOnLastCellIsNotATie()
    ensures var g := GameState([Taken(X), Taken(O), Taken(X), Taken(O), Taken(O),
                                Taken(X), Taken(O), Taken(X), Empty], Human, false, Running);
      && Settled(g)
      && CheckTie(g.board[8 := Taken(Human)])
      && AfterMove(g, 8).outcome == Won(Human)
  {
    var g := GameState([Taken(X), Taken(O), Taken(X), Taken(O), Taken(O),
                        Taken(X), Taken(O), Taken(X), Empty], Human, false, Running);
    var b1 := g.board[8 := Taken(Human)];
    assert Occupies(b1, WinningCombinations[5], X);
    forall k | 0 <= k < |WinningCombinations|
      ensures !Occupies(g.board, WinningCombinations[k], X)
      ensures !Occupies(g.board, WinningCombinations[k], O)
    {
      OccupiesTriple(g.board, k, X);
      OccupiesTriple(g.board, k, O);
    }
    HumanTurn(g, 8);
  }

  /** The `gameController` module object. It holds the `gameBoard` singleton
      it reads and writes (`gameBoard.getBoard()` everywhere in the source). */
  class GameController {
    const gameBoard: GameBoard
    var currentPlayer: Marker
    var gameOver: bool
    /** The verdict last shown with `showResult`. */
    var outcome: Outcome

    ghost function State(): GameState
      reads this, gameBoard, gameBoard.board
    {
      GameState(gameBoard.board[..], currentPlayer, gameOver, outcome)
    }

    ghost predicate Valid()
      reads this, gameBoard, gameBoard.board
    {
      gameBoard.Valid() && Settled(State())
    }

    /** Module start-up followed by `setPlayers`: an empty board, the game
        running, the human to move. */
    constructor ()
      ensures Valid() && fresh(gameBoard) && fresh(gameBoard.board)
      ensures State() == GameState(EmptyBoard, Human, false, Running)
    {
      gameBoard := new GameBoard();
      currentPlayer := Human;
      gameOver := false;
      outcome := Running;
      new;
      NoWinOnEmptyBoard(Human);
      NoWinOnEmptyBoard(Ai);
    }

    /** `handleClick`: a click on a filled cell or after the game has ended
        changes nothing; any other click makes the move. */
    method HandleClick(index: nat)
      requires Valid() && index < 9
      modifies this, gameBoard.board
      ensures Valid()
      ensures old(gameBoard.board[index]) != Empty || old(gameOver) ==> State() == old(State())
      ensures old(gameBoard.board[index]) == Empty && !old(gameOver) ==>
                State() == AfterMove(old(State()), index)
    {
      if gameBoard.board[index] == Empty && !gameOver {
        MakeMove(index);
        AfterMoveSettles(old(State()), index);
      }
    }

    /** `makeMove`: write the move, then test the mover's win, then a full
        board, else pass the turn; the computer's turn starts its move. */
    method MakeMove(index: nat)
      requires gameBoard.Valid() && Playable(State())
      requires index < 9 && gameBoard.board[index] == Empty
      modifies this, gameBoard.board
      ensures State() == AfterMove(old(State()), index)
      decreases |EmptyCells(gameBoard.board[..])|, 0
    {
      ghost var g := State();
      gameBoard.UpdateBoard(index, currentPlayer);
      if CheckWin(gameBoard.board[..], currentPlayer) {
        gameOver := true;
        outcome := Won(currentPlayer);
        return;
      }
      if CheckTie(gameBoard.board[..]) {
        gameOver := true;
        outcome := Tie;
        return;
      }
      currentPlayer := Other(currentPlayer);
      if currentPlayer == Ai {
        EmptyCellsShrink(g.board, index, g.current);
        PlacingKeepsOpponentLines(g.board, index, g.current, Ai);
        MakeAiMove();
      }
    }

    /** `makeAiMove`: search the shared board for the computer and move there. */
    method MakeAiMove()
      requires gameBoard.Valid() && Playable(State())
      requires currentPlayer == Ai && !CheckTie(gameBoard.board[..])
      modifies this, gameBoard.board
      ensures State() == AiTurn(old(State()))
      decreases |EmptyCells(gameBoard.board[..])|, 1
    {
      var board := gameBoard.GetBoard();
      var bestMove := Minimax(board, Ai);
      MakeMove(bestMove.index);
    }

    /** `minimax`: the search over the shared array. The terminal tests read
        `gameBoard`'s board, which the source's only caller passes as `board`;
        then every empty cell is tried in ascending order and the first best
        candidate is returned. */
    method Minimax(board: array<Cell>, player: Marker) returns (best: Search.Evaluation)
      requires board == gameBoard.board && board.Length == 9
      modifies board
      ensures board[..] == old(board[..])
      ensures best == Search.Minimax(old(board[..]), player)
      decreases |EmptyCells(board[..])|, 2
    {
      var availableMoves := EmptyCells(board[..]);
      CheckTieIffNoMoves(board[..]);
      if CheckWin(gameBoard.board[..], Human) {
        return Search.Leaf(-1);
      } else if CheckWin(gameBoard.board[..], Ai) {
        return Search.Leaf(1);
      } else if |availableMoves| == 0 {
        return Search.Leaf(0);
      }
      ghost var b := board[..];
      var moves := TryMoves(board, player, availableMoves);
      var bestMove := PickBest(moves, player);
      Search.MinimaxFromScores(b, player, Search.ScoresOf(moves));
      return moves[bestMove];
    }

    /** The search's first loop: every candidate is scored in turn, each
        leaving the shared array as it found it. */
    method TryMoves(board: array<Cell>, player: Marker, availableMoves: seq<nat>)
      returns (moves: seq<Search.Evaluation>)
      requires board == gameBoard.board && board.Length == 9
      requires forall k :: 0 <= k < |availableMoves| ==>
                 availableMoves[k] < 9 && board[availableMoves[k]] == Empty
      modifies board
      ensures board[..] == old(board[..])
      ensures |moves| == |availableMoves|
      ensures forall k :: 0 <= k < |moves| ==>
                moves[k] == Search.Choice(availableMoves[k], Search.ChildScore(old(board[..]), player, availableMoves[k]))
      decreases |EmptyCells(board[..])|, 1
    {
      ghost var b := board[..];
      moves := [];
      for i := 0 to |availableMoves|
        invariant board[..] == b
        invariant |moves| == i
        invariant forall k :: 0 <= k < i ==>
                    moves[k] == Search.Choice(availableMoves[k], Search.ChildScore(b, player, availableMoves[k]))
      {
        var c := availableMoves[i];
        var score := TryMove(board, player, c);
        moves := moves + [Search.Choice(c, score)];
      }
    }

    /** One pass of the first loop: write the side's symbol into the shared
        array, search the other side, and empty the cell again. */
    method TryMove(board: array<Cell>, player: Marker, c: nat) returns (score: int)
      requires board == gameBoard.board && board.Length == 9
      requires c < 9 && board[c] == Empty
      modifies board
      ensures board[..] == old(board[..])
      ensures score == Search.ChildScore(old(board[..]), player, c)
      decreases |EmptyCells(board[..])|, 0
    {
      ghost var b := board[..];
      board[c] := Taken(player);
      assert board[..] == b[c := Taken(player)];
      EmptyCellsShrink(b, c, player);
      var result;
      if player == Ai {
        result := Minimax(board, Human);
      } else {
        result := Minimax(board, Ai);
      }
      board[c] := Empty;
      assert board[..] == b;
      score := result.score;
    }

    /** The search's selection loops: starting from `-Infinity` (computer)
        or `Infinity` (human), keep a candidate only when it is strictly
        better than the best so far. */
    method PickBest(moves: seq<Search.Evaluation>, player: Marker) returns (bestMove: nat)
      requires |moves| > 0
      ensures bestMove == Search.FirstBest(Search.ScoresOf(moves), player == Ai)
    {
      ghost var scores := Search.ScoresOf(moves);
      bestMove := 0;
      if player == Ai {
        var bestScore := MinusInfinity;
        for i := 0 to |moves|
          invariant i == 0 ==> bestScore == MinusInfinity
          invariant 0 < i ==> bestMove == Search.FirstBest(scores[..i], true) && bestScore == Finite(scores[bestMove])
        {
          if 0 < i { Search.FirstBestStep(scores, true, i); }
          if Above(moves[i].score, bestScore) {
            bestScore := Finite(moves[i].score);
            bestMove := i;
          }
        }
      } else {
        var bestScore := PlusInfinity;
        for i := 0 to |moves|
          invariant i == 0 ==> bestScore == PlusInfinity
          invariant 0 < i ==> bestMove == Search.FirstBest(scores[..i], false) && bestScore == Finite(scores[bestMove])
        {
          if 0 < i { Search.FirstBestStep(scores, false, i); }
          if Below(moves[i].score, bestScore) {
            bestScore := Finite(moves[i].score);
            bestMove := i;
          }
        }
      }
      assert scores[..|moves|] == scores;
    }
  }

  /** A best score so far: one of the source's starting values `-Infinity`
      and `Infinity`, or the score of a candidate. */
  datatype Extended = MinusInfinity | PlusInfinity | Finite(value: int)

  /** `x > e`, with every score above `-Infinity` and none above `Infinity`. */
  predicate Above(x: int, e: Extended)
  {
    match e
    case MinusInfinity => true
    case PlusInfinity => false
    case Finite(v) => x > v
  }

  /** `x < e`, with every score below `Infinity` and none below `-Infinity`. */
  predicate Below(x: int, e: Extended)
  {
    match e
    case MinusInfinity => false
    case PlusInfinity => true
    case Finite(v) => x < v
  }
}
