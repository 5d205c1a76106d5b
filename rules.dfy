/** Win and tie detection: the eight winning lines, `checkWin` and `checkTie`. */
module Rules {
  import opened Board

  /** The three rows, the three columns and the two diagonals. */
  const WinningCombinations: seq<seq<nat>> := [
    [0, 1, 2],
    [3, 4, 5],
    [6, 7, 8],
    [0, 3, 6],
    [1, 4, 7],
    [2, 5, 8],
    [0, 4, 8],
    [2, 4, 6]
  ]

  /** `combination.every(index => board[index] === symbol)`; an index off the
      board reads as no symbol. */
  function Occupies(b: seq<Cell>, combination: seq<nat>, m: Marker): (r: bool)
    ensures r <==> forall k :: 0 <= k < |combination| ==>
                      combination[k] < |b| && b[combination[k]] == Taken(m)
  {
    |combination| == 0 ||
    (combination[0] < |b| && b[combination[0]] == Taken(m) && Occupies(b, combination[1..], m))
  }

  /** The side playing `m` has completed one of the winning combinations:
      `winningCombinations.some(combination => ...every...)`. */
  predicate CheckWin(b: seq<Cell>, m: Marker)
  {
    exists k :: 0 <= k < |WinningCombinations| && Occupies(b, WinningCombinations[k], m)
  }

  /** Every cell is filled; whether anybody has won plays no part. */
  function CheckTie(b: seq<Cell>): (r: bool)
    ensures r <==> forall i :: 0 <= i < |b| ==> b[i] != Empty
  {
    |b| == 0 || (b[0] != Empty && CheckTie(b[1..]))
  }

  /** The cell at `row`, `col` of the 3x3 grid. */
  function At(b: seq<Cell>, row: nat, col: nat): Cell
    requires |b| == 9 && row < 3 && col < 3
  {
    b[3 * row + col]
  }

  /** Every cell of grid row `row` holds `m`. */
  ghost predicate RowFull(b: seq<Cell>, m: Marker, row: nat)
    requires |b| == 9 && row < 3
  {
    forall col :: 0 <= col < 3 ==> At(b, row, col) == Taken(m)
  }

  /** Every cell of grid column `col` holds `m`. */
  ghost predicate ColumnFull(b: seq<Cell>, m: Marker, col: nat)
    requires |b| == 9 && col < 3
  {
    forall row :: 0 <= row < 3 ==> At(b, row, col) == Taken(m)
  }

  /** Three in a row in grid terms, independent of the table of combinations:
      a full row, a full column, the main diagonal or the anti-diagonal. */
  ghost predicate ThreeInARow(b: seq<Cell>, m: Marker)
    requires |b| == 9
  {
    var t := Taken(m);
    (exists row :: 0 <= row < 3 && RowFull(b, m, row)) ||
    (exists col :: 0 <= col < 3 && ColumnFull(b, m, col)) ||
    (At(b, 0, 0) == t && At(b, 1, 1) == t && At(b, 2, 2) == t) ||
    (At(b, 0, 2) == t && At(b, 1, 1) == t && At(b, 2, 0) == t)
  }

  /** A winning combination is occupied when its three cells are. */
  lemma OccupiesTriple(b: seq<Cell>, k: nat, m: Marker)
    requires |b| == 9 && k < |WinningCombinations|
    ensures var line := WinningCombinations[k];
      Occupies(b, line, m) <==>
        b[line[0]] == Taken(m) && b[line[1]] == Taken(m) && b[line[2]] == Taken(m)
  {
    var line := WinningCombinations[k];
    assert |line| == 3 && line[0] < 9 && line[1] < 9 && line[2] < 9;
  }

  /** The eight combinations are exactly the rows, columns and diagonals. */
  lemma CheckWinIsThreeInARow(b: seq<Cell>, m: Marker)
    requires |b| == 9
    ensures CheckWin(b, m) <==> ThreeInARow(b, m)
  {
    if CheckWin(b, m) {
      var k :| 0 <= k < 8 && Occupies(b, WinningCombinations[k], m);
      CombinationIsThreeInARow(b, m, k);
    }
    if ThreeInARow(b, m) {
      ThreeInARowIsCombination(b, m);
    }
  }

  lemma CombinationIsThreeInARow(b: seq<Cell>, m: Marker, k: nat)
    requires |b| == 9 && k < 8 && Occupies(b, WinningCombinations[k], m)
    ensures ThreeInARow(b, m)
  {
    OccupiesTriple(b, k, m);
    if k < 3 {
      assert RowFull(b, m, k);
    } else if k < 6 {
      assert ColumnFull(b, m, k - 3);
    }
  }

  lemma ThreeInARowIsCombination(b: seq<Cell>, m: Marker)
    requires |b| == 9 && ThreeInARow(b, m)
    ensures CheckWin(b, m)
  {
    var t := Taken(m);
    var k: nat;
    if exists row :: 0 <= row < 3 && RowFull(b, m, row) {
      var row :| 0 <= row < 3 && RowFull(b, m, row);
      assert At(b, row, 0) == t && At(b, row, 1) == t && At(b, row, 2) == t;
      k := row;
    } else if exists col :: 0 <= col < 3 && ColumnFull(b, m, col) {
      var col :| 0 <= col < 3 && ColumnFull(b, m, col);
      assert At(b, 0, col) == t && At(b, 1, col) == t && At(b, 2, col) == t;
      k := 3 + col;
    } else if At(b, 0, 0) == t && At(b, 1, 1) == t && At(b, 2, 2) == t {
      k := 6;
    } else {
      k := 7;
    }
    OccupiesTriple(b, k, m);
  }

  /** Writing one side's symbol into an empty cell neither creates nor destroys
      a line of the other side. */
  lemma PlacingKeepsOpponentLines(b: seq<Cell>, c: nat, m: Marker, o: Marker)
    requires c < |b| && b[c] == Empty && o != m
    ensures CheckWin(b[c := Taken(m)], o) <==> CheckWin(b, o)
  {
    var b' := b[c := Taken(m)];
    if CheckWin(b', o) {
      var k :| 0 <= k < |WinningCombinations| && Occupies(b', WinningCombinations[k], o);
      assert Occupies(b, WinningCombinations[k], o);
    }
    if CheckWin(b, o) {
      var k :| 0 <= k < |WinningCombinations| && Occupies(b, WinningCombinations[k], o);
      assert Occupies(b', WinningCombinations[k], o);
    }
  }

  /** A full board is exactly one with no empty cell to move to. */
  lemma CheckTieIffNoMoves(b: seq<Cell>)
    ensures CheckTie(b) <==> EmptyCells(b) == []
  {
    if !CheckTie(b) {
      var i :| 0 <= i < |b| && b[i] == Empty;
      assert i in EmptyCells(b);
    }
  }

  /** Nobody has a line on the board of a new game. */
  lemma NoWinOnEmptyBoard(m: Marker)
    ensures !CheckWin(EmptyBoard, m)
  {
    forall k | 0 <= k < |WinningCombinations|
      ensures !Occupies(EmptyBoard, WinningCombinations[k], m)
    {
      assert EmptyBoard[WinningCombinations[k][0]] == Empty;
    }
  }
}
