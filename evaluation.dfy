/** The three-valued terminal evaluation (ai/evaluation.go). */
module Evaluation {
  import opened Wrappers
  import opened Pieces
  import opened Moves
  import opened GameBoard

  const Player1Win: int := 1
  const Player2Win: int := -1
  const NoWin: int := 0

  /** Evaluate: the sign of the game from Player1's side; the code's panic
      branch has no counterpart because the winner is always one of the
      three players. */
  function Evaluate(s: State): (e: int)
    requires WellFormed(s)
    ensures e == Player1Win <==> Winner(s) == Player1
    ensures e == Player2Win <==> Winner(s) == Player2
    ensures e == NoWin <==> Winner(s) == None
  {
    match Winner(s)
    case Player1 => Player1Win
    case Player2 => Player2Win
    case None => NoWin
  }

  /** The result is always one of the three constants. */
  lemma EvaluateRange(s: State)
    requires WellFormed(s)
    ensures Evaluate(s) in {Player1Win, NoWin, Player2Win}
  {
  }

  /** `p` shows a piece on square `pos`. */
  predicate Shows(s: State, pos: Position, p: Player)
    requires WellFormed(s) && IsWithinBounds(pos)
  {
    TopPiece(s, pos).Some? && TopPiece(s, pos).value.owner == p
  }

  /** Player1 visible on all of column 0 wins: only row 0 is examined
      before that column, and it contains (0,0). */
  lemma Column0Player1(s: State)
    requires WellFormed(s)
    requires Shows(s, Position(0, 0), Player1) && Shows(s, Position(1, 0), Player1) && Shows(s, Position(2, 0), Player1)
    ensures Evaluate(s) == Player1Win
  {
    var ls := Lines();
    assert LineOwner(s, ls[0]) == None || LineOwner(s, ls[0]) == Player1;
    assert LineOwner(s, ls[1]) == Player1;
    assert FirstOwner(s, ls[1..]) == Player1;
  }

  /** Player2 visible on the main diagonal wins: every row and column
      before the diagonal meets it in a Player2 piece, so none of them is
      Player1's, and the main diagonal is the first diagonal examined. */
  lemma MainDiagonalPlayer2(s: State)
    requires WellFormed(s)
    requires Shows(s, Position(0, 0), Player2) && Shows(s, Position(1, 1), Player2) && Shows(s, Position(2, 2), Player2)
    ensures Evaluate(s) == Player2Win
  {
    var ls := Lines();
    forall i | 0 <= i < 6
      ensures LineOwner(s, ls[i]) == None || LineOwner(s, ls[i]) == Player2
    {
      var j := i / 2;
      var d := Position(j, j);
      assert d in ls[i];
      LineOwnerSpec(s, ls[i]);
    }
    assert LineOwner(s, ls[6]) == Player2;
    FirstFromDiagonal(s, ls);
  }

  /** Helper for MainDiagonalPlayer2: with the first six lines won by
      nobody or by Player2 and the seventh by Player2, the winner is
      Player2. */
  lemma FirstFromDiagonal(s: State, ls: seq<seq<Position>>)
    requires WellFormed(s) && ls == Lines()
    requires forall i :: 0 <= i < 6 ==> LineOwner(s, ls[i]) == None || LineOwner(s, ls[i]) == Player2
    requires LineOwner(s, ls[6]) == Player2
    ensures Winner(s) == Player2
  {
    assert FirstOwner(s, ls[6..]) == Player2;
    assert ls[5..][1..] == ls[6..];
    assert FirstOwner(s, ls[5..]) == Player2;
    assert ls[4..][1..] == ls[5..];
    assert FirstOwner(s, ls[4..]) == Player2;
    assert ls[3..][1..] == ls[4..];
    assert FirstOwner(s, ls[3..]) == Player2;
    assert ls[2..][1..] == ls[3..];
    assert FirstOwner(s, ls[2..]) == Player2;
    assert ls[1..][1..] == ls[2..];
    assert FirstOwner(s, ls[1..]) == Player2;
  }

  /** A board whose only pieces are in column 0, shown by both players
      there (Player1 on row `a`, Player2 on row `b`), has no winner: every row and both diagonals meet an empty
      square of column 1, column 1 and column 2 are empty, and column 0 is
      mixed. */
  lemma MixedColumnNoWin(s: State, a: int, b: int)
    requires WellFormed(s)
    requires forall k :: 0 <= k < 9 && k != 0 && k != 3 && k != 6 ==> s.grid[k] == []
    requires 0 <= a < 3 && 0 <= b < 3 && Shows(s, Position(a, 0), Player1) && Shows(s, Position(b, 0), Player2)
    ensures Evaluate(s) == NoWin
  {
    WinnerSpec(s);
    forall i, p | 0 <= i < 8 && p != None
      ensures !LineWon(s, Lines()[i], p)
    {
      var l := Lines()[i];
      if i == 1 {
        assert l[a] == Position(a, 0) && l[b] == Position(b, 0);
      } else {
        assert l[1].col != 0 && IsWithinBounds(l[1]) && Idx(l[1]) != 0 && Idx(l[1]) != 3 && Idx(l[1]) != 6;
        assert TopPiece(s, l[1]) == Nil;
      }
    }
  }

  /** A placement shows the placed piece on its square and leaves every
      other square and the other stock rows as they were. */
  lemma PlacementShows(s: State, m: Move)
    requires WellFormed(s) && ValidMove(s, m) && m.from == Nil
    ensures var r := Apply(s, m);
      && Shows(r, m.to, m.piece.owner)
      && (forall k :: 0 <= k < 9 && k != Idx(m.to) ==> r.grid[k] == s.grid[k])
      && (forall sz :: sz != m.piece.size ==> Stock(r, m.piece.owner, sz) == Stock(s, m.piece.owner, sz))
      && Stock(r, m.piece.owner, m.piece.size) == Stock(s, m.piece.owner, m.piece.size) - 1
      && (forall o, sz :: o != None && o != m.piece.owner ==> Stock(r, o, sz) == Stock(s, o, sz))
  {
    ValidMoveRules(s, m);
  }

  /** The three-move game of the Player1 test: Small (0,0), Medium (1,0),
      Small (2,0), all Player1, from the fresh board. */
  lemma Player1ColumnGame(s0: State)
    requires s0 == NewState()
    ensures var m1 := Move(Piece(Player1, Small), Nil, Position(0, 0));
      var m2 := Move(Piece(Player1, Medium), Nil, Position(1, 0));
      var m3 := Move(Piece(Player1, Small), Nil, Position(2, 0));
      && ValidMove(s0, m1) && ValidMove(Apply(s0, m1), m2) && ValidMove(Apply(Apply(s0, m1), m2), m3)
      && Evaluate(Apply(Apply(Apply(s0, m1), m2), m3)) == Player1Win
  {
    var m1 := Move(Piece(Player1, Small), Nil, Position(0, 0));
    var m2 := Move(Piece(Player1, Medium), Nil, Position(1, 0));
    var m3 := Move(Piece(Player1, Small), Nil, Position(2, 0));
    var s3 := ThirdPlacement(s0, m1, m2, m3);
    Column0Player1(s3);
  }

  /** The Player2 test: Small (0,0), Medium (1,1), Small (2,2), all
      Player2, from the fresh board. */
  lemma Player2DiagonalGame(s0: State)
    requires s0 == NewState()
    ensures var m1 := Move(Piece(Player2, Small), Nil, Position(0, 0));
      var m2 := Move(Piece(Player2, Medium), Nil, Position(1, 1));
      var m3 := Move(Piece(Player2, Small), Nil, Position(2, 2));
      && ValidMove(s0, m1) && ValidMove(Apply(s0, m1), m2) && ValidMove(Apply(Apply(s0, m1), m2), m3)
      && Evaluate(Apply(Apply(Apply(s0, m1), m2), m3)) == Player2Win
  {
    var m1 := Move(Piece(Player2, Small), Nil, Position(0, 0));
    var m2 := Move(Piece(Player2, Medium), Nil, Position(1, 1));
    var m3 := Move(Piece(Player2, Small), Nil, Position(2, 2));
    var s3 := ThirdPlacement(s0, m1, m2, m3);
    MainDiagonalPlayer2(s3);
  }

  /** The no-win test: Player1 Small (0,0), Player2 Small (1,0),
      Player1 Small (2,0), from the fresh board. */
  lemma MixedColumnGame(s0: State)
    requires s0 == NewState()
    ensures var m1 := Move(Piece(Player1, Small), Nil, Position(0, 0));
      var m2 := Move(Piece(Player2, Small), Nil, Position(1, 0));
      var m3 := Move(Piece(Player1, Small), Nil, Position(2, 0));
      && ValidMove(s0, m1) && ValidMove(Apply(s0, m1), m2) && ValidMove(Apply(Apply(s0, m1), m2), m3)
      && Evaluate(Apply(Apply(Apply(s0, m1), m2), m3)) == NoWin
  {
    var m1 := Move(Piece(Player1, Small), Nil, Position(0, 0));
    var m2 := Move(Piece(Player2, Small), Nil, Position(1, 0));
    var m3 := Move(Piece(Player1, Small), Nil, Position(2, 0));
    var s3 := ThirdPlacement(s0, m1, m2, m3);
    assert Idx(m1.to) == 0 && Idx(m2.to) == 3 && Idx(m3.to) == 6;
    MixedColumnNoWin(s3, 0, 1);
  }

  /** The shape of the three tests: three placements from the fresh board
      on three distinct squares, the third reusing the size and owner of
      the first (the stock holds two of each). Each piece stays visible on
      its square and every other square stays empty. */
  lemma ThirdPlacement(s0: State, m1: Move, m2: Move, m3: Move) returns (s3: State)
    requires s0 == NewState()
    requires m1.from == Nil && m2.from == Nil && m3.from == Nil
    requires IsWithinBounds(m1.to) && IsWithinBounds(m2.to) && IsWithinBounds(m3.to)
    requires m1.to != m2.to && m1.to != m3.to && m2.to != m3.to
    requires m1.piece.owner != None && m2.piece.owner != None
    requires m3.piece == m1.piece != m2.piece
    ensures ValidMove(s0, m1) && ValidMove(Apply(s0, m1), m2) && ValidMove(Apply(Apply(s0, m1), m2), m3)
    ensures s3 == Apply(Apply(Apply(s0, m1), m2), m3) && WellFormed(s3)
    ensures Shows(s3, m1.to, m1.piece.owner) && Shows(s3, m2.to, m2.piece.owner) && Shows(s3, m3.to, m3.piece.owner)
    ensures forall k :: 0 <= k < 9 && k != Idx(m1.to) && k != Idx(m2.to) && k != Idx(m3.to) ==> s3.grid[k] == []
  {
    var s2 := TwoPlacements(s0, m1, m2);
    PlaceOnEmpty(s2, m3);
    s3 := Apply(s2, m3);
    PlacementShows(s2, m3);
    IdxInjective(m3.to, m1.to);
    IdxInjective(m3.to, m2.to);
  }

  /** The first two placements of ThirdPlacement. */
  lemma TwoPlacements(s0: State, m1: Move, m2: Move) returns (s2: State)
    requires s0 == NewState()
    requires m1.from == Nil && m2.from == Nil && IsWithinBounds(m1.to) && IsWithinBounds(m2.to)
    requires m1.to != m2.to && m1.piece.owner != None && m2.piece.owner != None && m1.piece != m2.piece
    ensures ValidMove(s0, m1) && ValidMove(Apply(s0, m1), m2) && s2 == Apply(Apply(s0, m1), m2)
    ensures WellFormed(s2) && Stock(s2, m1.piece.owner, m1.piece.size) == 1
    ensures Shows(s2, m1.to, m1.piece.owner) && Shows(s2, m2.to, m2.piece.owner)
    ensures forall k :: 0 <= k < 9 && k != Idx(m1.to) && k != Idx(m2.to) ==> s2.grid[k] == []
  {
    NewStateFacts(s0);
    PlaceOnEmpty(s0, m1);
    var s1 := Apply(s0, m1);
    PlacementShows(s0, m1);
    IdxInjective(m2.to, m1.to);
    PlaceOnEmpty(s1, m2);
    s2 := Apply(s1, m2);
    PlacementShows(s1, m2);
  }

  /** Distinct squares have distinct indices. */
  lemma IdxInjective(p: Position, q: Position)
    requires IsWithinBounds(p) && IsWithinBounds(q) && p != q
    ensures Idx(p) != Idx(q)
  {
    assert PosOf(Idx(p)) == p && PosOf(Idx(q)) == q;
  }
}
