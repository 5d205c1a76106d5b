/** The minimax search as a pure function of the board: the specification that
    the in-place search of the game controller is proved against. */
module Search {
  import opened Board
  import opened Rules

  /** What one level of the search returns: a bare score on a finished board,
      otherwise the chosen cell and its score. */
  datatype Evaluation = Leaf(score: int) | Choice(index: nat, score: int)

  /** The search stops when either side has a line or no cell is empty; the
      full-board test agrees with the search's own test, an empty list of
      candidate moves. */
  function Terminal(b: seq<Cell>): (r: bool)
    ensures r <==> CheckWin(b, Human) || CheckWin(b, Ai) || EmptyCells(b) == []
  {
    CheckTieIffNoMoves(b);
    CheckWin(b, Human) || CheckWin(b, Ai) || CheckTie(b)
  }

  /** `x` beats `y` for the side that maximizes (the computer) or minimizes (the
      human); the comparison is strict. */
  predicate Better(x: int, y: int, maximize: bool)
  {
    if maximize then x > y else x < y
  }

  /** The first position, scanning left to right, whose score nothing beats:
      the position the source keeps with its strict comparison. */
  function FirstBest(s: seq<int>, maximize: bool): (k: nat)
    requires |s| > 0
    ensures k < |s|
    ensures forall j :: 0 <= j < |s| ==> !Better(s[j], s[k], maximize)
    ensures forall j :: 0 <= j < k ==> Better(s[k], s[j], maximize)
  {
    if |s| == 1 then 0
    else
      var k := FirstBest(s[..|s| - 1], maximize);
      if Better(s[|s| - 1], s[k], maximize) then |s| - 1 else k
  }

  /** Scanning one more score keeps the position found so far unless the new
      score beats it: the step of the source's selection loop. */
  lemma FirstBestStep(s: seq<int>, maximize: bool, i: nat)
    requires 0 < i < |s|
    ensures var k := FirstBest(s[..i], maximize);
      FirstBest(s[..i + 1], maximize) == if Better(s[i], s[k], maximize) then i else k
  {
    assert s[..i + 1][..i] == s[..i];
  }

  /** Only one position is the first one nothing beats. */
  lemma FirstBestIsUnique(s: seq<int>, maximize: bool, k: nat)
    requires k < |s|
    requires forall j :: 0 <= j < |s| ==> !Better(s[j], s[k], maximize)
    requires forall j :: 0 <= j < k ==> Better(s[k], s[j], maximize)
    ensures FirstBest(s, maximize) == k
  {
  }

  /** The score of the game after `player` takes the empty cell `c` and the
      other side moves next. */
  function ChildScore(b: seq<Cell>, player: Marker, c: nat): (r: int)
    requires |b| == 9 && c < 9 && b[c] == Empty
    ensures -1 <= r <= 1
    decreases |EmptyCells(b)|, 0
  {
    EmptyCellsShrink(b, c, player);
    Minimax(b[c := Taken(player)], Other(player)).score
  }

  /** The scores of the candidate moves, in the order of the candidates: the
      closed form of the source's candidate loop. */
  function Scores(b: seq<Cell>, player: Marker, moves: seq<nat>): seq<int>
    requires |b| == 9
    requires forall k :: 0 <= k < |moves| ==> moves[k] < 9 && b[moves[k]] == Empty
    decreases |EmptyCells(b)|, 1
  {
    seq(|moves|, k requires 0 <= k < |moves| => ChildScore(b, player, moves[k]))
  }

  /** The scores of a list of evaluations, in order. */
  function ScoresOf(moves: seq<Evaluation>): seq<int>
  {
    seq(|moves|, k requires 0 <= k < |moves| => moves[k].score)
  }

  /** The search: terminal tests in the source's order (a human line, then a
      computer line, then no move left), otherwise every empty cell in
      ascending order is tried and the first best one kept. */
  function Minimax(b: seq<Cell>, player: Marker): (e: Evaluation)
    requires |b| == 9
    ensures -1 <= e.score <= 1
    ensures e.Leaf? <==> Terminal(b)
    ensures CheckWin(b, Human) ==> e == Leaf(-1)
    ensures !CheckWin(b, Human) && CheckWin(b, Ai) ==> e == Leaf(1)
    ensures !CheckWin(b, Human) && !CheckWin(b, Ai) && CheckTie(b) ==> e == Leaf(0)
    ensures e.Choice? ==> e.index < 9 && b[e.index] == Empty
    decreases |EmptyCells(b)|, 2
  {
    var moves := EmptyCells(b);
    CheckTieIffNoMoves(b);
    if CheckWin(b, Human) then Leaf(-1)
    else if CheckWin(b, Ai) then Leaf(1)
    else if |moves| == 0 then Leaf(0)
    else
      var scores := Scores(b, player, moves);
      var k := FirstBest(scores, player == Ai);
      Choice(moves[k], scores[k])
  }

  /** On a board still in play the search keeps the first best of the
      candidates' scores. */
  lemma MinimaxFromScores(b: seq<Cell>, player: Marker, s: seq<int>)
    requires |b| == 9 && !Terminal(b)
    requires |s| == |EmptyCells(b)| > 0
    requires forall j :: 0 <= j < |s| ==> s[j] == ChildScore(b, player, EmptyCells(b)[j])
    ensures var k := FirstBest(s, player == Ai);
      Minimax(b, player) == Choice(EmptyCells(b)[k], s[k])
  {
    CheckTieIffNoMoves(b);
    assert s == Scores(b, player, EmptyCells(b));
  }

  /** On a board still in play the search picks an empty cell whose score no
      other empty cell beats, and no empty cell with a lower index ties it. */
  lemma {:induction false} MinimaxPicksFirstBest(b: seq<Cell>, player: Marker)
    requires |b| == 9 && !Terminal(b)
    ensures Minimax(b, player).Choice?
    ensures var e := Minimax(b, player);
      && e.index < 9 && b[e.index] == Empty
      && e.score == ChildScore(b, player, e.index)
      && (forall c :: 0 <= c < 9 && b[c] == Empty ==>
            !Better(ChildScore(b, player, c), e.score, player == Ai))
      && (forall c :: 0 <= c < e.index && b[c] == Empty ==>
            Better(e.score, ChildScore(b, player, c), player == Ai))
  {
    var moves := EmptyCells(b);
    CheckTieIffNoMoves(b);
    var scores := Scores(b, player, moves);
    var k := FirstBest(scores, player == Ai);
    var e := Minimax(b, player);
    assert e == Choice(moves[k], scores[k]);
    forall c | 0 <= c < 9 && b[c] == Empty
      ensures !Better(ChildScore(b, player, c), e.score, player == Ai)
      ensures c < e.index ==> Better(e.score, ChildScore(b, player, c), player == Ai)
    {
      assert c in moves;
      var j :| 0 <= j < |moves| && moves[j] == c;
      FirstBestAmongCandidates(moves, scores, player == Ai, j);
    }
  }

  /** Over candidates listed in ascending order, the first best position beats
      every candidate with a smaller cell index. */
  lemma FirstBestAmongCandidates(moves: seq<nat>, s: seq<int>, maximize: bool, j: nat)
    requires |moves| == |s| && j < |s|
    requires forall i, k :: 0 <= i < k < |moves| ==> moves[i] < moves[k]
    ensures var k := FirstBest(s, maximize);
      && !Better(s[j], s[k], maximize)
      && (moves[j] < moves[k] ==> Better(s[k], s[j], maximize))
  {
    var k := FirstBest(s, maximize);
    if moves[j] < moves[k] {
      assert j < k;
    }
  }

  /** When the side to move can complete a line at once, the search scores the
      position as that side's win (+1 for the computer, -1 for the human). */
  lemma ImmediateWinIsFound(b: seq<Cell>, player: Marker, c: nat)
    requires |b| == 9 && !Terminal(b)
    requires c < 9 && b[c] == Empty && CheckWin(b[c := Taken(player)], player)
    ensures Minimax(b, player).score == if player == Ai then 1 else -1
  {
    var b' := b[c := Taken(player)];
    PlacingKeepsOpponentLines(b, c, player, Other(player));
    assert Minimax(b', Other(player)).score == if player == Ai then 1 else -1;
    assert ChildScore(b, player, c) == if player == Ai then 1 else -1;
    MinimaxPicksFirstBest(b, player);
  }

  /** When the human threatens to complete a line at `t` and the computer has
      no immediate win, every computer move other than `t` loses: so the
      search takes `t` unless every move loses. */
  lemma ThreatMustBeBlocked(b: seq<Cell>, t: nat)
    requires |b| == 9 && !Terminal(b)
    requires t < 9 && b[t] == Empty && CheckWin(b[t := Taken(Human)], Human)
    requires forall c :: 0 <= c < 9 && b[c] == Empty ==> !CheckWin(b[c := Taken(Ai)], Ai)
    ensures forall c :: 0 <= c < 9 && b[c] == Empty && c != t ==> ChildScore(b, Ai, c) == -1
    ensures Minimax(b, Ai).score > -1 ==> Minimax(b, Ai).index == t
  {
    forall c | 0 <= c < 9 && b[c] == Empty && c != t
      ensures ChildScore(b, Ai, c) == -1
    {
      ReplyLoses(b, c, t);
    }
    MinimaxPicksFirstBest(b, Ai);
  }

  /** The computer's move at `c` leaves the human's threat at `t` open. */
  lemma ReplyLoses(b: seq<Cell>, c: nat, t: nat)
    requires |b| == 9 && !Terminal(b)
    requires t < 9 && b[t] == Empty && CheckWin(b[t := Taken(Human)], Human)
    requires c < 9 && b[c] == Empty && c != t && !CheckWin(b[c := Taken(Ai)], Ai)
    ensures ChildScore(b, Ai, c) == -1
  {
    var b1 := b[c := Taken(Ai)];
    PlacingKeepsOpponentLines(b, c, Ai, Human);
    assert !CheckTie(b1) by { assert b1[t] == Empty; }
    assert !Terminal(b1);
    var b2 := b1[t := Taken(Human)];
    assert b2 == b[t := Taken(Human)][c := Taken(Ai)];
    PlacingKeepsOpponentLines(b[t := Taken(Human)], c, Ai, Human);
    assert Minimax(b2, Ai) == Leaf(-1);
    assert ChildScore(b1, Human, t) == -1;
    MinimaxPicksFirstBest(b1, Human);
  }
}
