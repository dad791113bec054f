/** The heuristic evaluator (ai/evaluator.go): terminal positions score
    1000 plus the remaining depth for the winner, other positions the sum
    over the eight lines of a per-line potential. The evaluator holds no
    state, so its methods are module-level methods on the board. */
module Evaluator {
  import opened Wrappers
  import opened Pieces
  import opened Moves
  import opened GameBoard
  import Int64

  const Player1Win: int := 1000
  const Player2Win: int := -1000
  const NoWin: int := 0

  // ---------------------------------------------------------------------
  // One line

  /** Player1 shows a piece on `pos`. */
  predicate Player1Top(s: State, pos: Position)
    requires WellFormed(s) && IsWithinBounds(pos)
  {
    TopPiece(s, pos).Some? && TopPiece(s, pos).value.owner == Player1
  }

  /** A piece shows on `pos` and it is not Player1's; the code counts it
      for Player2. */
  predicate OtherTop(s: State, pos: Position)
    requires WellFormed(s) && IsWithinBounds(pos)
  {
    TopPiece(s, pos).Some? && TopPiece(s, pos).value.owner != Player1
  }

  /** Squares among the first `k` of line `l` where Player1 shows. */
  function Player1Count(s: State, l: seq<Position>, k: nat): (n: nat)
    requires WellFormed(s) && IsLine(l) && k <= 3
    ensures n <= k
  {
    if k == 0 then 0 else Player1Count(s, l, k - 1) + (if Player1Top(s, l[k - 1]) then 1 else 0)
  }

  /** Squares among the first `k` of line `l` where anyone else shows. */
  function OtherCount(s: State, l: seq<Position>, k: nat): (n: nat)
    requires WellFormed(s) && IsLine(l) && k <= 3
    ensures n <= k
  {
    if k == 0 then 0 else OtherCount(s, l, k - 1) + (if OtherTop(s, l[k - 1]) then 1 else 0)
  }

  /** The potential of a line from its two counts: nothing when both
      players show, 100 or 10 for two or one Player1 pieces, -100 or -10
      for two or one Player2 pieces, nothing for an empty or a full line. */
  function Potential(p1: nat, p2: nat): int {
    if p1 > 0 && p2 > 0 then 0
    else if p1 == 2 then 100
    else if p1 == 1 then 10
    else if p2 == 2 then -100
    else if p2 == 1 then -10
    else 0
  }

  /** What evaluateLine returns for line `l`. */
  function LineScore(s: State, l: seq<Position>): int
    requires WellFormed(s) && IsLine(l)
  {
    Potential(Player1Count(s, l, 3), OtherCount(s, l, 3))
  }

  /** evaluateLine: count the visible pieces per player, then score. */
  method EvaluateLine(b: Board, line: seq<Position>) returns (score: int)
    requires b.Valid() && IsLine(line)
    ensures score == LineScore(b.Snapshot(), line)
  {
    var s := b.Snapshot();
    var p1PieceCount := 0;
    var p2PieceCount := 0;
    for i := 0 to 3
      invariant p1PieceCount == Player1Count(s, line, i)
      invariant p2PieceCount == OtherCount(s, line, i)
    {
      var top := TopPiece(s, line[i]);
      if top != Nil {
        if top.value.owner == Player1 {
          p1PieceCount := p1PieceCount + 1;
        } else {
          p2PieceCount := p2PieceCount + 1;
        }
      }
    }
    if p1PieceCount > 0 && p2PieceCount > 0 {
      return 0;
    }
    if p1PieceCount == 2 {
      return 100;
    }
    if p1PieceCount == 1 {
      return 10;
    }
    if p2PieceCount == 2 {
      return -100;
    }
    if p2PieceCount == 1 {
      return -10;
    }
    return 0;
  }

  /** The line scores, case by case, in terms of which squares show which
      player. */
  lemma {:induction false} LineScoreCases(s: State, l: seq<Position>)
    requires WellFormed(s) && IsLine(l)
    ensures LineScore(s, l) in {-100, -10, 0, 10, 100}
    ensures (exists i :: 0 <= i < 3 && Player1Top(s, l[i])) && (exists j :: 0 <= j < 3 && OtherTop(s, l[j]))
            ==> LineScore(s, l) == 0
    ensures LineScore(s, l) > 0 <==>
            (forall j :: 0 <= j < 3 ==> !OtherTop(s, l[j])) && Player1Count(s, l, 3) in {1, 2}
    ensures LineScore(s, l) < 0 <==>
            (forall i :: 0 <= i < 3 ==> !Player1Top(s, l[i])) && OtherCount(s, l, 3) in {1, 2}
    ensures (forall i :: 0 <= i < 3 ==> TopPiece(s, l[i]) == Nil) ==> LineScore(s, l) == 0
    ensures OtherCount(s, l, 3) == 0 ==>
            (Player1Count(s, l, 3) == 2 ==> LineScore(s, l) == 100) && (Player1Count(s, l, 3) == 1 ==> LineScore(s, l) == 10)
    ensures Player1Count(s, l, 3) == 0 ==>
            (OtherCount(s, l, 3) == 2 ==> LineScore(s, l) == -100) && (OtherCount(s, l, 3) == 1 ==> LineScore(s, l) == -10)
  {
    CountPositive(s, l, 3);
  }

  /** A count is positive exactly when one of the counted squares shows. */
  lemma {:induction false} CountPositive(s: State, l: seq<Position>, k: nat)
    requires WellFormed(s) && IsLine(l) && k <= 3
    ensures Player1Count(s, l, k) > 0 <==> exists i :: 0 <= i < k && Player1Top(s, l[i])
    ensures OtherCount(s, l, k) > 0 <==> exists i :: 0 <= i < k && OtherTop(s, l[i])
  {
    if k > 0 {
      CountPositive(s, l, k - 1);
    }
  }

  /** A line whose three squares all show one owner scores nothing. */
  lemma FullLineScoresNothing(s: State, l: seq<Position>, p: Player)
    requires WellFormed(s) && IsLine(l) && p != None && LineWon(s, l, p)
    ensures LineScore(s, l) == 0
  {
    assert TopPiece(s, l[0]).value.owner == p && TopPiece(s, l[1]).value.owner == p
        && TopPiece(s, l[2]).value.owner == p;
    if p == Player1 {
      assert Player1Count(s, l, 1) == 1 && Player1Count(s, l, 2) == 2 && Player1Count(s, l, 3) == 3;
    } else {
      assert OtherCount(s, l, 1) == 1 && OtherCount(s, l, 2) == 2 && OtherCount(s, l, 3) == 3;
    }
  }

  // ---------------------------------------------------------------------
  // The whole board

  /** The sum of the scores of the first `k` lines of `ls`. */
  function SumScores(s: State, ls: seq<seq<Position>>, k: nat): (sum: int)
    requires WellFormed(s) && AllLines(ls) && k <= |ls|
    ensures -100 * k <= sum <= 100 * k
  {
    if k == 0 then 0
    else
      LineScoreCases(s, ls[k - 1]);
      SumScores(s, ls, k - 1) + LineScore(s, ls[k - 1])
  }

  /** What calculateHeuristicScore returns: the sum over the eight lines,
      so at most 800 either way. */
  function HeuristicScore(s: State): (h: int)
    requires WellFormed(s)
    ensures -800 <= h <= 800
  {
    SumScores(s, Lines(), 8)
  }

  /** calculateHeuristicScore: add up evaluateLine over the board's lines. */
  method CalculateHeuristicScore(b: Board) returns (score: int)
    requires b.Valid()
    ensures score == HeuristicScore(b.Snapshot())
  {
    var lines := Lines();
    score := 0;
    for i := 0 to |lines|
      invariant score == SumScores(b.Snapshot(), lines, i)
    {
      var lineScore := EvaluateLine(b, lines[i]);
      score := score + lineScore;
    }
  }

  /** The empty board scores nothing. */
  lemma EmptyBoardScoresNothing(s: State)
    requires WellFormed(s) && forall k :: 0 <= k < 9 ==> s.grid[k] == []
    ensures HeuristicScore(s) == 0
  {
    EmptySum(s, Lines(), 8);
  }

  lemma {:induction false} EmptySum(s: State, ls: seq<seq<Position>>, k: nat)
    requires WellFormed(s) && AllLines(ls) && k <= |ls|
    requires forall k :: 0 <= k < 9 ==> s.grid[k] == []
    ensures SumScores(s, ls, k) == 0
  {
    if k > 0 {
      EmptySum(s, ls, k - 1);
      var l := ls[k - 1];
      forall i | 0 <= i < 3
        ensures TopPiece(s, l[i]) == Nil
      {
        assert IsWithinBounds(l[i]) && Idx(l[i]) < 9;
      }
      LineScoreCases(s, l);
    }
  }

  // ---------------------------------------------------------------------
  // Exchanging the colours

  function SwapPiece(p: Piece): Piece {
    Piece(Opponent(p.owner), p.size)
  }

  function SwapStack(st: Stack): (r: Stack)
    ensures |r| == |st| && forall i :: 0 <= i < |st| ==> r[i] == SwapPiece(st[i])
  {
    seq(|st|, i requires 0 <= i < |st| => SwapPiece(st[i]))
  }

  /** The same position with the players' roles exchanged: every piece
      changes owner, the stock rows change hands, the other side moves. */
  function SwapColours(s: State): (r: State)
    requires WellFormed(s)
    ensures WellFormed(r)
  {
    State(seq(9, k requires 0 <= k < 9 => SwapStack(s.grid[k])),
          map[Player1 := s.remaining[Player2], Player2 := s.remaining[Player1]],
          Opponent(s.active))
  }

  lemma SwapTop(s: State, pos: Position)
    requires WellFormed(s) && IsWithinBounds(pos)
    ensures Player1Top(SwapColours(s), pos) <==> OtherTop(s, pos)
    ensures OtherTop(SwapColours(s), pos) <==> Player1Top(s, pos)
  {
    assert SwapColours(s).grid[Idx(pos)] == SwapStack(s.grid[Idx(pos)]);
  }

  lemma {:induction false} SwapCounts(s: State, l: seq<Position>, k: nat)
    requires WellFormed(s) && IsLine(l) && k <= 3
    ensures Player1Count(SwapColours(s), l, k) == OtherCount(s, l, k)
    ensures OtherCount(SwapColours(s), l, k) == Player1Count(s, l, k)
  {
    if k > 0 {
      SwapCounts(s, l, k - 1);
      SwapTop(s, l[k - 1]);
    }
  }

  lemma {:induction false} SwapSum(s: State, ls: seq<seq<Position>>, k: nat)
    requires WellFormed(s) && AllLines(ls) && k <= |ls|
    ensures SumScores(SwapColours(s), ls, k) == -SumScores(s, ls, k)
  {
    if k > 0 {
      SwapSum(s, ls, k - 1);
      SwapCounts(s, ls[k - 1], 3);
    }
  }

  /** The heuristic favours neither player: exchanging the colours negates
      the score of every position. */
  lemma SwapNegatesHeuristic(s: State)
    requires WellFormed(s)
    ensures HeuristicScore(SwapColours(s)) == -HeuristicScore(s)
  {
    SwapSum(s, Lines(), 8);
  }

  // ---------------------------------------------------------------------
  // Evaluate and EvaluateMove

  /** What Evaluate returns: a won position scores 1000 plus the remaining
      depth for the winner (a Go `int` sum, which wraps), any other position
      its heuristic score. */
  function Score(s: State, depthRemaining: int): int
    requires WellFormed(s)
  {
    match Winner(s)
    case Player1 => Int64.Wrap(Player1Win + depthRemaining)
    case Player2 => Int64.Wrap(Player2Win - depthRemaining)
    case None => HeuristicScore(s)
  }

  /** Evaluate: CheckWin, then the terminal score or the heuristic. */
  method Evaluate(b: Board, depthRemaining: int) returns (evaluation: int)
    requires b.Valid()
    ensures evaluation == Score(b.Snapshot(), depthRemaining)
  {
    var winner := b.CheckWin();
    match winner
    case Player1 => evaluation := Int64.Wrap(Player1Win + depthRemaining);
    case Player2 => evaluation := Int64.Wrap(Player2Win - depthRemaining);
    case None => evaluation := CalculateHeuristicScore(b);
  }

  /** With a remaining depth between 0 and the largest that does not
      overflow, a win for Player1 outscores every undecided position, a
      win for Player2 is below all of them, and faster wins score higher. */
  lemma ScoreSeparates(s: State, d: int, e: int)
    requires WellFormed(s) && 0 <= d <= e <= Int64.MaxInt - 1000
    ensures Winner(s) == Player1 ==> Score(s, d) == 1000 + d && Score(s, d) > 800
    ensures Winner(s) == Player2 ==> Score(s, d) == -1000 - d && Score(s, d) < -800
    ensures Winner(s) == None ==> -800 <= Score(s, d) <= 800
    ensures Winner(s) == Player1 ==> Score(s, d) <= Score(s, e)
    ensures Winner(s) == Player2 ==> Score(s, e) <= Score(s, d)
  {
  }

  /** EvaluateMove: make the move, score the heuristic, undo it; the board
      is as it was. */
  method EvaluateMove(b: Board, m: Move) returns (score: int)
    requires b.Valid() && ValidMove(b.Snapshot(), m)
    modifies b
    ensures b.Valid() && b.Snapshot() == old(b.Snapshot())
    ensures score == HeuristicScore(Apply(old(b.Snapshot()), m))
  {
    ghost var s := b.Snapshot();
    UndoInvertsApply(s, m);
    b.MustMakeMove(m);
    score := CalculateHeuristicScore(b);
    b.MustUndoMove(m);
  }
}
