/** The 9-cell board of the game and the module object that owns it. Cells are
    numbered 0..8 row by row (index = 3 * row + col). */
module Board {

  /** The two symbols a side writes into a cell. */
  datatype Marker = X | O

  /** A cell is empty (the source's '') or holds one side's symbol. */
  datatype Cell = Empty | Taken(marker: Marker)

  /** The human plays X and the computer plays O. */
  const Human: Marker := X
  const Ai: Marker := O

  /** The side that moves after `m`. */
  function Other(m: Marker): (r: Marker)
    ensures r != m
  {
    if m == X then O else X
  }

  /** The board of a new game. */
  const EmptyBoard: seq<Cell> := [Empty, Empty, Empty, Empty, Empty, Empty, Empty, Empty, Empty]

  /** The indices of the empty cells in ascending order, built left to right as
      the source's `reduce` does. */
  function EmptyCells(b: seq<Cell>): (r: seq<nat>)
    ensures forall k :: 0 <= k < |r| ==> r[k] < |b| && b[r[k]] == Empty
    ensures forall i :: 0 <= i < |b| && b[i] == Empty ==> i in r
    ensures forall j, k :: 0 <= j < k < |r| ==> r[j] < r[k]
  {
    if b == [] then []
    else EmptyCells(b[..|b| - 1]) + (if b[|b| - 1] == Empty then [|b| - 1] else [])
  }

  /** Filling an empty cell removes exactly one candidate move: the measure by
      which the search and the game terminate. */
  lemma {:induction false} EmptyCellsShrink(b: seq<Cell>, c: nat, m: Marker)
    requires c < |b| && b[c] == Empty
    ensures |EmptyCells(b[c := Taken(m)])| == |EmptyCells(b)| - 1
  {
    var n := |b|;
    var b' := b[c := Taken(m)];
    if c == n - 1 {
      assert b'[..n - 1] == b[..n - 1];
    } else {
      assert b'[..n - 1] == b[..n - 1][c := Taken(m)];
      EmptyCellsShrink(b[..n - 1], c, m);
    }
  }

  /** The `gameBoard` module: a singleton owning the board array. */
  class GameBoard {
    var board: array<Cell>

    ghost predicate Valid()
      reads this
    {
      board.Length == 9
    }

    constructor ()
      ensures Valid() && fresh(board)
      ensures board[..] == EmptyBoard
    {
      var cells := new Cell[9](_ => Empty);
      assert cells[..] == EmptyBoard;
      board := cells;
    }

    /** Hands out the board array itself, not a copy: callers that write into
        it write into the game's board. */
    method GetBoard() returns (b: array<Cell>)
      ensures b == board
    {
      b := board;
    }

    /** Writes the player's symbol into cell `index`; an occupied cell is
        overwritten without complaint. */
    method UpdateBoard(index: nat, player: Marker)
      requires Valid() && index < 9
      modifies board
      ensures board[..] == old(board[..])[index := Taken(player)]
    {
      board[index] := Taken(player);
    }

    /** Replaces the board by a fresh array of nine empty cells. */
    method ResetBoard()
      modifies this
      ensures Valid() && fresh(board)
      ensures board[..] == EmptyBoard
    {
      board := new Cell[9](_ => Empty);
      assert board[..] == EmptyBoard;
    }
  }
}
