# Tic-tac-toe against an unbeatable computer: a Dafny model of the game logic

This project models the game logic of a browser tic-tac-toe game in which a
human (X) plays the computer (O). The computer picks its moves with a full
minimax search over the game tree. The model covers four parts:

- the `gameBoard` module: a board of nine cells, updated in place and reset;
- win and tie detection: the eight winning combinations, `checkWin` and `checkTie`;
- the `minimax` search: it writes each candidate's symbol into the shared board
  array, searches the other side, erases the symbol again, and keeps the first
  strictly best candidate;
- the controller's turn logic in `makeMove`, `makeAiMove` and `handleClick`.

Files, one module each:

- `board.dfy` (module `Board`): markers, cells, the list of empty cells, and the
  `GameBoard` class that owns the board array.
- `rules.dfy` (module `Rules`): the winning combinations, `CheckWin` and `CheckTie`.
  The combination table is proved to mean "a full row, column or diagonal" of
  the 3x3 grid.
- `search.dfy` (module `Search`): the search as a pure function of the board. This
  is the specification. It also holds the lemmas:
  - the search picks the first best empty cell;
  - a position where the side to move can win at once scores as that side's win;
  - facing an open human threat, every move other than the block loses, so a
    result better than a loss is the block.
- `game.dfy` (module `Game`): the turn transitions as pure functions, and the
  `GameController` class. The class's methods run the search in place on the shared
  array and apply the moves. Each method is proved equal to the pure functions.

The verdict that `showResult` displays at the end of a game is part of the
controller's state: the mover's win or a tie. So the order of the two tests in
`makeMove` can be observed. The `-Infinity` and `Infinity` starting scores of the
selection loops are an explicit extended value, ordered below and above every
integer.

The terminal test of the source's search does not read its `board` parameter.
It reads `gameBoard.getBoard()`. The search's only caller passes
`gameBoard.getBoard()` itself, so the two names denote the same array at every
depth. The model states this aliasing as a precondition of
`GameController.Minimax`: `board == gameBoard.board`.

## Model

| member | source | states |
|---|---|---|
| Board.Other | script.js:84 | the side that moves next is never the side that just moved |
| Board.EmptyCells | script.js:125-130 | the result lists exactly the empty cells of the board, each once, in strictly ascending order |
| Board.EmptyCellsShrink | script.js:144 | writing a symbol into an empty cell removes exactly one candidate; this measure makes the search and the game terminate |
| Board.GameBoard.constructor | script.js:2-3 | a new board is a fresh array of nine empty cells |
| Board.GameBoard.GetBoard | script.js:5 | returns the board array itself, not a copy |
| Board.GameBoard.UpdateBoard | script.js:7-9 | cell `index` holds the player's symbol; the other eight cells are unchanged; an occupied cell is overwritten |
| Board.GameBoard.ResetBoard | script.js:11-13 | the board is replaced by a fresh array of nine empty cells |
| Rules.CheckWin | script.js:104-108 | definition: some winning combination is fully occupied by the symbol; what that means on the grid is the contract of `Rules.CheckWinIsThreeInARow` |
| Rules.Occupies | script.js:106 | true iff every index of the combination is on the board and holds the symbol |
| Rules.CheckTie | script.js:110-112 | true iff no cell is empty; lines of either side play no part |
| Rules.OccupiesTriple | script.js:38-47 | a winning combination is occupied iff its three cells hold the symbol |
| Rules.CheckWinIsThreeInARow | script.js:38-47 | `checkWin` over the eight combinations holds iff the grid has a full row, a full column or a full diagonal of the symbol |
| Rules.CombinationIsThreeInARow | script.js:38-47 | each of the eight combinations is a row, a column or a diagonal of the grid |
| Rules.ThreeInARowIsCombination | script.js:104-108 | every full row, column or diagonal is one of the eight combinations |
| Rules.PlacingKeepsOpponentLines | script.js:104-108 | writing one side's symbol into an empty cell neither creates nor removes a line of the other side |
| Rules.CheckTieIffNoMoves | script.js:110-112 | the board is full iff the search's list of empty cells is empty, so the test at line 136 and `checkTie` agree |
| Rules.NoWinOnEmptyBoard | script.js:3 | neither side has a line on the board of a new game |
| Search.Terminal | script.js:125-138 | the search stops iff the human has a line, the computer has a line, or the list of candidate moves is empty (the source's test at line 136, stated through `EmptyCells` and not through `checkTie`) |
| Search.FirstBest | script.js:158-175 | the position kept is one whose score no other position beats, and it strictly beats every earlier position (tie broken by the first candidate) |
| Search.FirstBestStep | script.js:161-166 | one more pass of the selection loop keeps the best so far unless the new score is strictly better |
| Search.FirstBestIsUnique | script.js:158-175 | the two properties of the kept position determine it uniquely |
| Search.FirstBestAmongCandidates | script.js:159-175 | over candidates in ascending cell order, the kept candidate is not beaten and strictly beats every candidate with a smaller cell index |
| Search.ChildScore | script.js:143-152 | the score after the side takes an empty cell and the other side searches is in {-1, 0, 1} |
| Search.Scores | script.js:140-156 | definition: the closed form of the candidate loop, one `ChildScore` per candidate in candidate order; `Game.GameController.TryMoves` is proved to produce it and `Search.MinimaxPicksFirstBest` states what the search does with it |
| Search.Minimax | script.js:124-178 | the score is in {-1, 0, 1}; a bare score comes back iff the board is terminal; a human line gives -1 and is tested first, then a computer line gives +1, then a full board gives 0; a chosen index is an empty cell |
| Search.MinimaxFromScores | script.js:158-177 | on a board still in play the result is the first best candidate of the candidates' scores |
| Search.MinimaxPicksFirstBest | script.js:125-177 | on a board still in play the result is an empty cell with that move's score; no empty cell beats it; every empty cell with a lower index is strictly worse (maximum for the computer, minimum for the human) |
| Search.ImmediateWinIsFound | script.js:132-152 | if the side to move can complete a line at once, the search scores the position +1 for the computer or -1 for the human |
| Search.ReplyLoses | script.js:132-175 | a computer move that leaves the human's winning cell open, and does not itself win, scores -1 |
| Search.ThreatMustBeBlocked | script.js:132-175 | facing one open human threat with no immediate win, every non-blocking move scores -1, so a result better than -1 is the block |
| Game.Place | script.js:69-84 | definition of one move: write the mover's symbol; a line of the mover ends the game as the mover's win; otherwise a full board ends it as a tie; otherwise the turn passes |
| Game.AfterMove | script.js:69-90 | definition of `makeMove`: `Place`, followed by the computer's turn when the turn passes to the computer |
| Game.AiTurn | script.js:92-102 | definition of `makeAiMove`: `AfterMove` at the index the pure search returns for the computer |
| Game.AfterMoveSettles | script.js:64-90 | after any move the game is either over, with the last mover reported the winner with a line or a tie reported on a full board without lines, or running with the human to move and no line on the board |
| Game.HumanTurn | script.js:69-101 | a human line ends the game with the verdict "human wins", whether or not the board is full; else a full board ends it with the verdict "tie"; else the computer writes O into the empty cell its search chose, and the game ends as the computer's win, ends as a tie, or returns to the human |
| Game.WinOnLastCellIsNotATie | script.js:72-83 | on a concrete settled board, the human fills the last cell and completes a column: the board is full, and the verdict is still the human's win, because the win is tested first |
| Game.GameController.constructor | script.js:30-53 | start-up with `setPlayers`: an empty board, the game running with no verdict, the human to move |
| Game.GameController.HandleClick | script.js:61-67 | a click on a filled cell or after the game is over changes nothing; any other click is `makeMove`; the state between clicks stays settled |
| Game.GameController.MakeMove | script.js:69-90 | the new board, player, game-over flag and verdict are those of the pure transition `AfterMove`: write, test the mover's win, then the tie, then pass the turn, and let the computer move on its turn |
| Game.GameController.MakeAiMove | script.js:92-102 | the computer moves to the index the search returns on the shared board |
| Game.GameController.Minimax | script.js:124-178 | the shared array is exactly restored and the result equals the pure search on the board as it was |
| Game.GameController.TryMoves | script.js:140-156 | the array is restored after all candidates, and each recorded move is its candidate with that move's score |
| Game.GameController.TryMove | script.js:143-154 | the temporary write is undone and the score is that of the candidate |
| Game.GameController.PickBest | script.js:158-175 | starting from `-Infinity` (computer) or `Infinity` (human), the strict comparison loop returns the first best position for the side, for any integer scores |

## Left out

- DOM and browser work are not modelled. This covers `cells`, `render`, `showResult`, `showRestartButton`, the event listeners, `initialize`, `startGame` and `restartGame`'s page reload (script.js:36, 55-59, 114-122, 180-212).
- `handleClick` tests the cell's displayed text (script.js:64). The model tests the board cell, which `render` keeps equal to that text.
- The `availableMoves` list that `makeAiMove` computes from the DOM (script.js:93-98) is never used, so it is not modelled.
- Player names and the `Player` factory (script.js:23-27) are not modelled. A player is its marker. The human plays X and the computer plays O, as `startGame` sets them (script.js:200-201).
- The texts of the messages are not modelled. Only the verdict shown at the end of a game is: the winner or a tie (script.js:74, 80). The turn prompt at script.js:88 is the verdict `Running`.
- Board.GameBoard.UpdateBoard: requires an index in 0..8. An out-of-range index would grow the JavaScript array; no caller passes one.
- Game.GameController.MakeMove: requires that neither side has a line. The source does not check this; it holds because a line always ends the game first.
- Game.GameController.PickBest: requires a non-empty list of moves. On an empty list the source's `bestMove` stays undefined. The search never reaches the loops then, because an empty candidate list is a terminal board.
- The in-place search is split into four methods: `Minimax`, `TryMoves`, `TryMove` and `PickBest`. The statements are the source's and keep its order.
- Search.ImmediateWinIsFound: claims only the score, not the index, and this is what the search does. A move that wins later also scores +1, and the search keeps the first cell with the best score. Take the board O X X / _ O _ / X _ _ with the computer (O) to move. Cell 3 makes a double threat and scores +1, so it is kept over the immediately winning cell 8. This example was worked out by hand and is not proved.
- No claim is proved about the whole game tree, such as "the empty board scores 0 at index 0" or "the computer never loses". Proving one would mean evaluating the search over up to 9! positions in the verifier.
