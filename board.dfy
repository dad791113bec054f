/** The board state machine (game/board.go).

    The Go `Board` holds a 3x3 grid of piece stacks and a stock table
    `RemainingPieces` (a row of three counts per player). The search also
    needs the side to move, which the version of board.go modelled here does
    not store; it is a field of the model, flipped by every move and restored
    by every undo.

    The pure logic is stated on the value `State`; the class `Board` holds
    the same three fields, changes them in place, and each of its methods is
    proved against the functions on `State`. */
module GameBoard {
  import opened Wrappers
  import opened Pieces
  import opened Moves

  /** One square's pieces, bottom first; the last one is visible. */
  type Stack = seq<Piece>

  /** The grid as nine stacks in row-major order (square (row, col) is at
      3 * row + col), the stock table and the side to move. */
  datatype State = State(grid: seq<Stack>, remaining: map<Player, seq<int>>, active: Player)

  predicate Owned(st: Stack) {
    forall i :: 0 <= i < |st| ==> st[i].owner != None
  }

  /** The shape every board has: nine squares, a stock row of three counts
      for each of the two players and for nobody else, and no piece on the
      board without an owner. */
  predicate WellFormed(s: State) {
    && |s.grid| == 9
    && (forall p :: p in s.remaining <==> p != None)
    && (forall p :: p in s.remaining ==> |s.remaining[p]| == 3)
    && forall k :: 0 <= k < 9 ==> Owned(s.grid[k])
  }

  /** isWithinBounds: both coordinates in 0..2. */
  function IsWithinBounds(p: Position): (r: bool)
    ensures r <==> 0 <= p.row < 3 && 0 <= p.col < 3
  {
    !(p.col < 0 || p.col > 2 || p.row < 0 || p.row > 2)
  }

  /** The grid index of an in-bounds square. */
  function Idx(p: Position): (k: nat)
    ensures IsWithinBounds(p) ==> k < 9 && PosOf(k) == p
  {
    if IsWithinBounds(p) then 3 * p.row + p.col else 0
  }

  function PosOf(k: nat): (p: Position)
    requires k < 9
    ensures IsWithinBounds(p)
  {
    var row := if k < 3 then 0 else if k < 6 then 1 else 2;
    Position(row, k - 3 * row)
  }

  lemma IdxOfPos(k: nat)
    requires k < 9
    ensures Idx(PosOf(k)) == k
  {
  }

  /** GetPositionStack: the whole stack of a square. */
  function GetPositionStack(s: State, p: Position): (st: Stack)
    requires WellFormed(s) && IsWithinBounds(p)
    ensures Owned(st)
    ensures st == s.grid[3 * p.row + p.col]
  {
    s.grid[Idx(p)]
  }

  /** TopPiece: the visible piece of a square, nil when it is empty. */
  function TopPiece(s: State, p: Position): (r: Option<Piece>)
    requires WellFormed(s) && IsWithinBounds(p)
    ensures r == Nil <==> GetPositionStack(s, p) == []
    ensures r.Some? ==> r.value == GetPositionStack(s, p)[|GetPositionStack(s, p)| - 1]
    ensures r.Some? ==> r.value.owner != None
  {
    var stack := s.grid[Idx(p)];
    if |stack| == 0 then Nil else Some(stack[|stack| - 1])
  }

  /** The stock count of `owner` for `size`. */
  function Stock(s: State, owner: Player, size: Size): int
    requires WellFormed(s) && owner != None
  {
    s.remaining[owner][size.Rank()]
  }

  /** hasPieceAvailable. An owner without a stock row (None) has nothing
      available. */
  function HasPieceAvailable(s: State, piece: Piece): (r: bool)
    requires WellFormed(s)
    ensures r <==> piece.owner != None && Stock(s, piece.owner, piece.size) >= 1
  {
    piece.owner in s.remaining && s.remaining[piece.owner][piece.size.Rank()] >= 1
  }

  /** AvailablePieces: the pieces of `player` still in stock, smallest first. */
  function AvailablePieces(s: State, player: Player): (pieces: seq<Piece>)
    requires WellFormed(s)
    ensures forall piece :: piece in pieces <==> piece.owner == player && HasPieceAvailable(s, piece)
    ensures forall i, j :: 0 <= i < j < |pieces| ==> pieces[i].size.Rank() < pieces[j].size.Rank()
  {
    (if HasPieceAvailable(s, Piece(player, Small)) then [Piece(player, Small)] else [])
    + (if HasPieceAvailable(s, Piece(player, Medium)) then [Piece(player, Medium)] else [])
    + (if HasPieceAvailable(s, Piece(player, Large)) then [Piece(player, Large)] else [])
  }

  // ---------------------------------------------------------------------
  // Lines and the winner

  function Row(i: int): seq<Position> {
    [Position(i, 0), Position(i, 1), Position(i, 2)]
  }

  function Column(i: int): seq<Position> {
    [Position(0, i), Position(1, i), Position(2, i)]
  }

  predicate IsLine(l: seq<Position>) {
    |l| == 3 && forall i :: 0 <= i < 3 ==> IsWithinBounds(l[i])
  }

  predicate AllLines(ls: seq<seq<Position>>) {
    forall i :: 0 <= i < |ls| ==> IsLine(ls[i])
  }

  /** The eight lines in the order CheckWin examines them: row i then column
      i for i = 0, 1, 2, then the main diagonal and the anti-diagonal. */
  function Lines(): (ls: seq<seq<Position>>)
    ensures |ls| == 8 && AllLines(ls)
  {
    [Row(0), Column(0), Row(1), Column(1), Row(2), Column(2),
     [Position(0, 0), Position(1, 1), Position(2, 2)],
     [Position(0, 2), Position(1, 1), Position(2, 0)]]
  }

  /** checkLine: the common owner of three present pieces, else None. */
  function CheckLine(p1: Option<Piece>, p2: Option<Piece>, p3: Option<Piece>): (w: Player)
    ensures w != None ==> p1.Some? && p2.Some? && p3.Some? && p1.value.owner == w
    ensures p1.Some? && p2.Some? && p3.Some? && p1.value.owner == p2.value.owner == p3.value.owner
            ==> w == p1.value.owner
    ensures w != None ==> p2.value.owner == w && p3.value.owner == w
  {
    if p1 == Nil || p2 == Nil || p3 == Nil then None
    else if p1.value.owner == p2.value.owner && p2.value.owner == p3.value.owner then p1.value.owner
    else None
  }

  function LineOwner(s: State, l: seq<Position>): Player
    requires WellFormed(s) && IsLine(l)
  {
    CheckLine(TopPiece(s, l[0]), TopPiece(s, l[1]), TopPiece(s, l[2]))
  }

  /** `p` owns the visible piece of every square of line `l`. */
  predicate LineWon(s: State, l: seq<Position>, p: Player)
    requires WellFormed(s) && IsLine(l)
  {
    forall i :: 0 <= i < 3 ==> TopPiece(s, l[i]).Some? && TopPiece(s, l[i]).value.owner == p
  }

  /** The owner of the first won line of `ls`, else None. */
  function FirstOwner(s: State, ls: seq<seq<Position>>): Player
    requires WellFormed(s) && AllLines(ls)
  {
    if ls == [] then None
    else
      var w := LineOwner(s, ls[0]);
      if w != None then w else FirstOwner(s, ls[1..])
  }

  /** What CheckWin returns. */
  function Winner(s: State): Player
    requires WellFormed(s)
  {
    FirstOwner(s, Lines())
  }

  lemma LineOwnerSpec(s: State, l: seq<Position>)
    requires WellFormed(s) && IsLine(l)
    ensures LineOwner(s, l) != None ==> LineWon(s, l, LineOwner(s, l))
    ensures forall p :: p != None && LineWon(s, l, p) ==> LineOwner(s, l) == p
  {
  }

  lemma {:induction false} FirstOwnerSpec(s: State, ls: seq<seq<Position>>)
    requires WellFormed(s) && AllLines(ls)
    ensures FirstOwner(s, ls) == None <==>
            forall i, p :: 0 <= i < |ls| && p != None ==> !LineWon(s, ls[i], p)
    ensures FirstOwner(s, ls) != None ==>
            exists i :: 0 <= i < |ls| && LineWon(s, ls[i], FirstOwner(s, ls))
  {
    if ls != [] {
      LineOwnerSpec(s, ls[0]);
      FirstOwnerSpec(s, ls[1..]);
      if LineOwner(s, ls[0]) == None {
        forall i, p | 1 <= i < |ls| && p != None && LineWon(s, ls[i], p)
          ensures LineWon(s, ls[1..][i - 1], p)
        {
          assert ls[1..][i - 1] == ls[i];
        }
        if FirstOwner(s, ls) != None {
          var j :| 0 <= j < |ls[1..]| && LineWon(s, ls[1..][j], FirstOwner(s, ls));
          assert ls[1..][j] == ls[j + 1];
        }
      }
    }
  }

  /** CheckWin returns None exactly when no line has three visible pieces of
      one owner, and otherwise a player that owns such a line. */
  lemma WinnerSpec(s: State)
    requires WellFormed(s)
    ensures Winner(s) == None <==>
            forall i, p :: 0 <= i < 8 && p != None ==> !LineWon(s, Lines()[i], p)
    ensures Winner(s) != None ==> exists i :: 0 <= i < 8 && LineWon(s, Lines()[i], Winner(s))
  {
    FirstOwnerSpec(s, Lines());
  }

  // ---------------------------------------------------------------------
  // Stack and stock updates

  function Pop(s: State, p: Position): (r: State)
    requires WellFormed(s) && IsWithinBounds(p) && GetPositionStack(s, p) != []
    ensures WellFormed(r)
  {
    var st := s.grid[Idx(p)];
    s.(grid := s.grid[Idx(p) := st[..|st| - 1]])
  }

  function Push(s: State, p: Position, piece: Piece): (r: State)
    requires WellFormed(s) && IsWithinBounds(p) && piece.owner != None
    ensures WellFormed(r)
  {
    s.(grid := s.grid[Idx(p) := s.grid[Idx(p)] + [piece]])
  }

  function AdjustStock(s: State, piece: Piece, delta: int): (r: State)
    requires WellFormed(s) && piece.owner != None
    ensures WellFormed(r)
  {
    var row := s.remaining[piece.owner];
    s.(remaining := s.remaining[piece.owner := row[piece.size.Rank() := row[piece.size.Rank()] + delta]])
  }

  // ---------------------------------------------------------------------
  // Validation

  /** The relocation checks of IsValidMove, in order: `from` in bounds, its
      top piece is the moved piece, `to` differs, and lifting the piece
      reveals no winner (of either colour). */
  predicate RelocationAllowed(s: State, m: Move)
    requires WellFormed(s) && m.from.Some?
  {
    var from := m.from.value;
    && IsWithinBounds(from)
    && TopPiece(s, from) == Some(m.piece)
    && m.to != from
    && Winner(Pop(s, from)) == None
  }

  /** What IsValidMove returns on state `s`. */
  predicate ValidMove(s: State, m: Move)
    requires WellFormed(s)
  {
    if !IsWithinBounds(m.to) then false
    else if m.from == Nil && !HasPieceAvailable(s, m.piece) then false
    else if m.from.Some? && !RelocationAllowed(s, m) then false
    else
      match TopPiece(s, m.to)
      case Nil => true
      case Some(top) => m.piece.size.Rank() > top.size.Rank()
  }

  /** The bounds, stock and gobbling rules, each in both directions where
      the code decides by them alone. */
  lemma ValidMoveRules(s: State, m: Move)
    requires WellFormed(s)
    ensures !IsWithinBounds(m.to) ==> !ValidMove(s, m)
    ensures m.from.Some? && !IsWithinBounds(m.from.value) ==> !ValidMove(s, m)
    ensures m.from == Nil && (m.piece.owner == None || Stock(s, m.piece.owner, m.piece.size) < 1)
            ==> !ValidMove(s, m)
    ensures ValidMove(s, m) && TopPiece(s, m.to).Some? ==>
            m.piece.size.Rank() > TopPiece(s, m.to).value.size.Rank()
    ensures m.from == Nil && IsWithinBounds(m.to) && HasPieceAvailable(s, m.piece) ==>
            (ValidMove(s, m) <==> TopPiece(s, m.to) == Nil ||
                                  m.piece.size.Rank() > TopPiece(s, m.to).value.size.Rank())
    ensures m.from.Some? && ValidMove(s, m) ==>
            TopPiece(s, m.from.value) == Some(m.piece) && m.from.value != m.to &&
            Winner(Pop(s, m.from.value)) == None
  {
  }

  /** The zero move places an ownerless piece, which is never in stock. */
  lemma ZeroMoveInvalid(s: State)
    requires WellFormed(s)
    ensures !ValidMove(s, ZeroMove)
  {
  }

  // ---------------------------------------------------------------------
  // Make and undo

  /** The state after a valid move: the piece leaves the top of `from` (a
      relocation) or the stock (a placement), lands on top of `to`, and the
      side to move changes. */
  function Apply(s: State, m: Move): (r: State)
    requires WellFormed(s) && ValidMove(s, m)
    ensures WellFormed(r)
  {
    var lifted := if m.from.Some? then Pop(s, m.from.value) else s;
    var placed := Push(lifted, m.to, m.piece);
    var stocked := if m.from == Nil then AdjustStock(placed, m.piece, -1) else placed;
    stocked.(active := Opponent(s.active))
  }

  /** Make as board.go writes it: placePiece takes the piece from the stock
      for relocations too. */
  function ApplyAsWritten(s: State, m: Move): (r: State)
    requires WellFormed(s) && ValidMove(s, m)
    ensures WellFormed(r)
  {
    var lifted := if m.from.Some? then Pop(s, m.from.value) else s;
    AdjustStock(Push(lifted, m.to, m.piece), m.piece, -1).(active := Opponent(s.active))
  }

  /** A move changes only the squares it names, and the stock only for a
      placement, by one piece. */
  lemma ApplyEffect(s: State, m: Move)
    requires WellFormed(s) && ValidMove(s, m)
    ensures var r := Apply(s, m);
      && r.active == Opponent(s.active)
      && r.grid[Idx(m.to)] == s.grid[Idx(m.to)] + [m.piece]
      && (m.from.Some? ==> r.grid[Idx(m.from.value)] == s.grid[Idx(m.from.value)][..|s.grid[Idx(m.from.value)]| - 1])
      && (forall k :: 0 <= k < 9 && k != Idx(m.to) && (m.from.Some? ==> k != Idx(m.from.value))
                      ==> r.grid[k] == s.grid[k])
      && (forall owner, size :: owner != None ==>
            Stock(r, owner, size) == Stock(s, owner, size) -
              (if m.from == Nil && Piece(owner, size) == m.piece then 1 else 0))
  {
  }

  /** The preconditions of undoing `m`: its piece is on top of `to`. */
  predicate Undoable(s: State, m: Move)
    requires WellFormed(s)
  {
    && IsWithinBounds(m.to)
    && TopPiece(s, m.to) == Some(m.piece)
    && (m.from.Some? ==> IsWithinBounds(m.from.value))
  }

  /** The reverse of Apply: the piece leaves `to` and goes back to `from` or
      to the stock, and the side to move changes back. */
  function Undo(s: State, m: Move): (r: State)
    requires WellFormed(s) && Undoable(s, m)
    ensures WellFormed(r)
  {
    var lifted := Pop(s, m.to);
    var restored := if m.from.Some? then Push(lifted, m.from.value, m.piece)
                    else AdjustStock(lifted, m.piece, 1);
    restored.(active := Opponent(s.active))
  }

  /** Undo after make restores the state exactly. */
  lemma UndoInvertsApply(s: State, m: Move)
    requires WellFormed(s) && ValidMove(s, m)
    ensures Undoable(Apply(s, m), m)
    ensures Undo(Apply(s, m), m) == s
  {
    if m.from.Some? {
      UndoInvertsRelocation(s, m);
    } else {
      UndoInvertsPlacement(s, m);
    }
  }

  lemma UndoInvertsPlacement(s: State, m: Move)
    requires WellFormed(s) && ValidMove(s, m) && m.from == Nil
    ensures Undoable(Apply(s, m), m)
    ensures Undo(Apply(s, m), m) == s
  {
    var t := Idx(m.to);
    var st := s.grid[t];
    var owner, k := m.piece.owner, m.piece.size.Rank();
    var row := s.remaining[owner];
    var r := Apply(s, m);
    assert r.grid == s.grid[t := st + [m.piece]];
    assert r.remaining == s.remaining[owner := row[k := row[k] - 1]];
    assert Undoable(r, m);
    var u := Undo(r, m);
    assert (st + [m.piece])[..|st|] == st;
    assert u.grid == s.grid[t := st + [m.piece]][t := st];
    assert u.grid == s.grid;
    assert row[k := row[k] - 1][k := row[k]] == row;
    assert u.remaining == s.remaining[owner := row[k := row[k] - 1]][owner := row];
    assert u.remaining == s.remaining;
    OpponentInvolution(s.active);
  }

  lemma UndoInvertsRelocation(s: State, m: Move)
    requires WellFormed(s) && ValidMove(s, m) && m.from.Some?
    ensures Undoable(Apply(s, m), m)
    ensures Undo(Apply(s, m), m) == s
  {
    var lifted := Pop(s, m.from.value);
    var placed := Push(lifted, m.to, m.piece);
    var r := Apply(s, m);
    assert r == placed.(active := Opponent(s.active));
    assert Undoable(r, m);
    PopPush(lifted, m.to, m.piece);
    assert Pop(r, m.to) == lifted.(active := r.active);
    PushPop(s, m.from.value);
    OpponentInvolution(s.active);
  }

  /** Popping the piece just pushed gives the state back. */
  lemma PopPush(s: State, p: Position, piece: Piece)
    requires WellFormed(s) && IsWithinBounds(p) && piece.owner != None
    ensures Pop(Push(s, p, piece), p) == s
  {
    var st := s.grid[Idx(p)];
    assert (st + [piece])[..|st|] == st;
  }

  /** Pushing the top piece back after popping it gives the state back. */
  lemma PushPop(s: State, p: Position)
    requires WellFormed(s) && IsWithinBounds(p) && TopPiece(s, p).Some?
    ensures Push(Pop(s, p), p, TopPiece(s, p).value) == s
  {
    var st := s.grid[Idx(p)];
    assert st[..|st| - 1] + [st[|st| - 1]] == st;
  }

  // ---------------------------------------------------------------------
  // Stock conservation

  function CountUpTo(grid: seq<Stack>, piece: Piece, k: nat): nat
    requires k <= |grid|
  {
    if k == 0 then 0 else CountUpTo(grid, piece, k - 1) + multiset(grid[k - 1])[piece]
  }

  /** How many copies of `piece` are on the board, covered ones included. */
  function CountOnBoard(s: State, piece: Piece): nat
    requires WellFormed(s)
  {
    CountUpTo(s.grid, piece, 9)
  }

  /** Every piece is either in stock or on the board: two per owner and
      size, and no stock count below zero. */
  predicate StockConserved(s: State)
    requires WellFormed(s)
  {
    forall owner, size :: owner != None ==>
      0 <= Stock(s, owner, size) && Stock(s, owner, size) + CountOnBoard(s, Piece(owner, size)) == 2
  }

  lemma {:induction false} CountUpToUpdate(grid: seq<Stack>, i: nat, st: Stack, piece: Piece, k: nat)
    requires i < |grid| && k <= |grid|
    ensures CountUpTo(grid[i := st], piece, k) + (if i < k then multiset(grid[i])[piece] else 0)
            == CountUpTo(grid, piece, k) + (if i < k then multiset(st)[piece] else 0)
  {
    if k > 0 {
      CountUpToUpdate(grid, i, st, piece, k - 1);
    }
  }

  lemma CountAfterPush(s: State, p: Position, piece: Piece, q: Piece)
    requires WellFormed(s) && IsWithinBounds(p) && piece.owner != None
    ensures CountOnBoard(Push(s, p, piece), q) == CountOnBoard(s, q) + (if q == piece then 1 else 0)
  {
    var st := s.grid[Idx(p)];
    CountUpToUpdate(s.grid, Idx(p), st + [piece], q, 9);
    assert multiset(st + [piece]) == multiset(st) + multiset{piece};
  }

  lemma CountAfterPop(s: State, p: Position, q: Piece)
    requires WellFormed(s) && IsWithinBounds(p) && GetPositionStack(s, p) != []
    ensures var st := GetPositionStack(s, p);
      CountOnBoard(Pop(s, p), q) + (if q == st[|st| - 1] then 1 else 0) == CountOnBoard(s, q)
  {
    var st := s.grid[Idx(p)];
    CountUpToUpdate(s.grid, Idx(p), st[..|st| - 1], q, 9);
    assert st == st[..|st| - 1] + [st[|st| - 1]];
    assert multiset(st) == multiset(st[..|st| - 1]) + multiset{st[|st| - 1]};
  }

  /** A move keeps every piece accounted for: the stock count plus the
      copies on the board stays two. */
  lemma ApplyKeepsStock(s: State, m: Move)
    requires WellFormed(s) && StockConserved(s) && ValidMove(s, m)
    ensures StockConserved(Apply(s, m))
  {
    var r := Apply(s, m);
    forall owner, size | owner != None
      ensures 0 <= Stock(r, owner, size) && Stock(r, owner, size) + CountOnBoard(r, Piece(owner, size)) == 2
    {
      var q := Piece(owner, size);
      if m.from.Some? {
        var f := m.from.value;
        var lifted := Pop(s, f);
        CountAfterPop(s, f, q);
        CountAfterPush(lifted, m.to, m.piece, q);
        assert r.grid == Push(lifted, m.to, m.piece).grid;
      } else {
        CountAfterPush(s, m.to, m.piece, q);
        assert r.grid == Push(s, m.to, m.piece).grid;
      }
    }
  }

  // ---------------------------------------------------------------------
  // The initial board

  function NewState(): (s: State)
    ensures WellFormed(s)
  {
    State(seq(9, _ => []), map[Player1 := [2, 2, 2], Player2 := [2, 2, 2]], Player1)
  }

  lemma {:induction false} EmptyCount(grid: seq<Stack>, q: Piece, k: nat)
    requires k <= |grid|
    requires forall i :: 0 <= i < |grid| ==> grid[i] == []
    ensures CountUpTo(grid, q, k) == 0
  {
    if k > 0 {
      EmptyCount(grid, q, k - 1);
    }
  }

  /** The initial board: every square empty, two pieces of every size in
      stock for both players, Player1 to move, and every piece accounted
      for. */
  lemma NewStateFacts(s: State)
    requires s == NewState()
    ensures forall k :: 0 <= k < 9 ==> s.grid[k] == []
    ensures forall owner, size :: owner != None ==> Stock(s, owner, size) == 2
    ensures s.active == Player1
    ensures StockConserved(s)
  {
    forall q: Piece ensures CountOnBoard(s, q) == 0 {
      EmptyCount(s.grid, q, 9);
    }
  }

  /** Nobody has won on the initial board. */
  lemma NewStateNoWinner(s: State)
    requires s == NewState()
    ensures Winner(s) == None
  {
    EmptyGridNoWinner(s);
  }

  /** The make of board.go differs from Apply only on relocations, where it
      takes one more copy of the moved piece out of the stock; from any
      stock-conserving state that relocation leaves the piece counted three
      times, so every valid relocation breaks the accounting. */
  lemma AsWrittenBreaksStock(s: State, m: Move)
    requires WellFormed(s) && StockConserved(s) && ValidMove(s, m) && m.from.Some?
    ensures ApplyAsWritten(s, m) == AdjustStock(Apply(s, m), m.piece, -1)
    ensures !StockConserved(ApplyAsWritten(s, m))
  {
    ApplyKeepsStock(s, m);
    var good := Apply(s, m);
    var bad := ApplyAsWritten(s, m);
    assert bad == AdjustStock(good, m.piece, -1);
    assert Stock(bad, m.piece.owner, m.piece.size) == Stock(good, m.piece.owner, m.piece.size) - 1;
    assert CountOnBoard(bad, m.piece) == CountOnBoard(good, m.piece);
  }

  lemma PlaceOnEmpty(s: State, m: Move)
    requires WellFormed(s) && m.from == Nil && IsWithinBounds(m.to) && HasPieceAvailable(s, m.piece)
    requires GetPositionStack(s, m.to) == []
    ensures ValidMove(s, m)
  {
  }

  lemma EmptyGridNoWinner(s: State)
    requires WellFormed(s) && forall k :: 0 <= k < 9 ==> s.grid[k] == []
    ensures Winner(s) == None
  {
    WinnerSpec(s);
    forall i, p | 0 <= i < 8 && p != None
      ensures !LineWon(s, Lines()[i], p)
    {
      var l := Lines()[i];
      assert IsWithinBounds(l[0]) && 3 * l[0].row + l[0].col < 9;
      assert TopPiece(s, l[0]) == Nil;
    }
  }

  /** Player1's opening: a Large piece on (0,0) from the fresh board. */
  lemma PlaceLargeCorner(s0: State)
    requires s0 == NewState()
    ensures var place := NewMove(Player1, Position(0, 0), Large);
      && ValidMove(s0, place)
      && var s1 := Apply(s0, place);
      && StockConserved(s1)
      && s1.grid[0] == [Piece(Player1, Large)]
      && forall k :: 1 <= k < 9 ==> s1.grid[k] == []
  {
    var place := NewMove(Player1, Position(0, 0), Large);
    NewStateFacts(s0);
    PlaceOnEmpty(s0, place);
    ApplyKeepsStock(s0, place);
  }

  /** A lone piece on (0,0) may move to (1,1), and the as-written make
      then breaks the accounting. */
  lemma RelocateFromCorner(s1: State)
    requires WellFormed(s1) && StockConserved(s1)
    requires s1.grid[0] == [Piece(Player1, Large)] && forall k :: 1 <= k < 9 ==> s1.grid[k] == []
    ensures var relocate := Move(Piece(Player1, Large), Some(Position(0, 0)), Position(1, 1));
      && ValidMove(s1, relocate)
      && !StockConserved(ApplyAsWritten(s1, relocate))
  {
    var relocate := Move(Piece(Player1, Large), Some(Position(0, 0)), Position(1, 1));
    var lifted := Pop(s1, Position(0, 0));
    assert lifted.grid[0] == [];
    EmptyGridNoWinner(lifted);
    assert ValidMove(s1, relocate);
    AsWrittenBreaksStock(s1, relocate);
  }

  /** A valid relocation exists in a reachable, stock-conserving state:
      Player1 places a Large piece on (0,0); that piece may then move to
      (1,1), and after the as-written make the stock shows no Large piece
      while one is on the board, so that piece drops out of the accounting. */
  lemma StockBreaksAsWritten(s0: State)
    requires s0 == NewState()
    ensures var place := NewMove(Player1, Position(0, 0), Large);
      ValidMove(s0, place) &&
      var s1 := Apply(s0, place);
      var relocate := Move(Piece(Player1, Large), Some(Position(0, 0)), Position(1, 1));
      && StockConserved(s1)
      && ValidMove(s1, relocate)
      && !StockConserved(ApplyAsWritten(s1, relocate))
  {
    PlaceLargeCorner(s0);
    RelocateFromCorner(Apply(s0, NewMove(Player1, Position(0, 0), Large)));
  }

  // ---------------------------------------------------------------------
  // Move generation

  /** The valid placements of `pieces` onto `pos`, in order. */
  function Placements(s: State, pieces: seq<Piece>, pos: Position): (ms: seq<Move>)
    requires WellFormed(s)
    ensures |ms| <= |pieces|
  {
    if pieces == [] then []
    else
      var m := Move(pieces[|pieces| - 1], Nil, pos);
      Placements(s, pieces[..|pieces| - 1], pos) + (if ValidMove(s, m) then [m] else [])
  }

  lemma PlacementsSnoc(s: State, pieces: seq<Piece>, j: nat, pos: Position)
    requires WellFormed(s) && j < |pieces|
    ensures var m := Move(pieces[j], Nil, pos);
      Placements(s, pieces[..j + 1], pos) ==
      Placements(s, pieces[..j], pos) + (if ValidMove(s, m) then [m] else [])
  {
    assert pieces[..j + 1][..j] == pieces[..j];
  }

  lemma {:induction false} PlacementsSpec(s: State, pieces: seq<Piece>, pos: Position, m: Move)
    requires WellFormed(s)
    ensures m in Placements(s, pieces, pos) <==>
            m.from == Nil && m.to == pos && m.piece in pieces && ValidMove(s, m)
  {
    if pieces != [] {
      var init := pieces[..|pieces| - 1];
      PlacementsSpec(s, init, pos, m);
      assert pieces == init + [pieces[|pieces| - 1]];
    }
  }

  /** The placements for the first `k` squares in row-major order. */
  function MovesUpTo(s: State, player: Player, k: nat): (ms: seq<Move>)
    requires WellFormed(s) && k <= 9
    ensures |ms| <= 3 * k
  {
    if k == 0 then []
    else MovesUpTo(s, player, k - 1) + Placements(s, AvailablePieces(s, player), PosOf(k - 1))
  }

  /** What GetPossibleMoves returns: every valid placement of an available
      piece, square by square in row-major order, smallest piece first. */
  function PossibleMoves(s: State, player: Player): (ms: seq<Move>)
    requires WellFormed(s)
    ensures |ms| <= 27
  {
    MovesUpTo(s, player, 9)
  }

  lemma {:induction false} MovesUpToSpec(s: State, player: Player, k: nat, m: Move)
    requires WellFormed(s) && k <= 9
    ensures m in MovesUpTo(s, player, k) <==>
      m.from == Nil && IsWithinBounds(m.to) && Idx(m.to) < k &&
      m.piece in AvailablePieces(s, player) && ValidMove(s, m)
  {
    if k > 0 {
      MovesUpToSpec(s, player, k - 1, m);
      PlacementsSpec(s, AvailablePieces(s, player), PosOf(k - 1), m);
      if IsWithinBounds(m.to) && Idx(m.to) == k - 1 {
        assert PosOf(k - 1) == m.to;
      }
    }
  }

  /** GetPossibleMoves yields exactly the valid placements of the player's
      available pieces; no relocation is generated. */
  lemma PossibleMovesSpec(s: State, player: Player, m: Move)
    requires WellFormed(s)
    ensures m in PossibleMoves(s, player) <==>
      m.from == Nil && IsWithinBounds(m.to) && m.piece.owner == player &&
      HasPieceAvailable(s, m.piece) && ValidMove(s, m)
  {
    MovesUpToSpec(s, player, 9, m);
  }

  lemma {:induction false} EmptyBoardMovesUpTo(s: State, k: nat)
    requires s == NewState() && k <= 9
    ensures |MovesUpTo(s, Player1, k)| == 3 * k
  {
    if k > 0 {
      EmptyBoardMovesUpTo(s, k - 1);
      EmptySquarePlacements(s, PosOf(k - 1));
    }
  }

  /** On the initial board each square takes each of Player1's three sizes. */
  lemma EmptySquarePlacements(s: State, pos: Position)
    requires s == NewState() && IsWithinBounds(pos)
    ensures |Placements(s, AvailablePieces(s, Player1), pos)| == 3
  {
    var pieces := AvailablePieces(s, Player1);
    assert pieces == [Piece(Player1, Small), Piece(Player1, Medium), Piece(Player1, Large)];
    assert pieces[..2][..1] == [Piece(Player1, Small)];
    assert ValidMove(s, Move(Piece(Player1, Small), Nil, pos));
    assert ValidMove(s, Move(Piece(Player1, Medium), Nil, pos));
    assert ValidMove(s, Move(Piece(Player1, Large), Nil, pos));
    assert |Placements(s, pieces[..2][..1][..0], pos)| == 0;
    assert |Placements(s, pieces[..2][..1], pos)| == 1;
    assert |Placements(s, pieces[..2], pos)| == 2;
  }

  /** On the initial board Player1 has 9 squares x 3 sizes = 27 placements. */
  lemma FreshBoardHas27Moves()
    ensures |PossibleMoves(NewState(), Player1)| == 27
  {
    EmptyBoardMovesUpTo(NewState(), 9);
  }

  // ---------------------------------------------------------------------
  // The mutable board

  class Board {
    var grid: seq<Stack>
    var remaining: map<Player, seq<int>>
    var activePlayer: Player

    function Snapshot(): State
      reads this
    {
      State(grid, remaining, activePlayer)
    }

    predicate Valid()
      reads this
    {
      WellFormed(Snapshot())
    }

    /** NewBoard: empty squares, stock 2/2/2 for both players, Player1 to move. */
    constructor ()
      ensures Valid() && Snapshot() == NewState()
    {
      grid := seq(9, _ => []);
      remaining := map[Player1 := [2, 2, 2], Player2 := [2, 2, 2]];
      activePlayer := Player1;
    }

    /** removePiece: pop the top of a non-empty square (the code panics on
        an empty one). */
    method RemovePiece(p: Position)
      requires Valid() && IsWithinBounds(p) && GetPositionStack(Snapshot(), p) != []
      modifies this
      ensures Valid()
      ensures Snapshot() == Pop(old(Snapshot()), p)
    {
      var stack := grid[Idx(p)];
      grid := grid[Idx(p) := stack[..|stack| - 1]];
    }

    /** placePiece: push `piece` onto `p` and, when it comes from the stock,
        take it from there. */
    method PlacePiece(p: Position, piece: Piece, fromStock: bool)
      requires Valid() && IsWithinBounds(p) && piece.owner != None
      modifies this
      ensures Valid()
      ensures Snapshot() == if fromStock then AdjustStock(Push(old(Snapshot()), p, piece), piece, -1)
                            else Push(old(Snapshot()), p, piece)
    {
      var stack := grid[Idx(p)];
      grid := grid[Idx(p) := stack + [piece]];
      if fromStock {
        var row := remaining[piece.owner];
        remaining := remaining[piece.owner := row[piece.size.Rank() := row[piece.size.Rank()] - 1]];
      }
    }

    /** MustMakeMove: apply a move known to be valid (the code panics
        otherwise). */
    method MustMakeMove(m: Move)
      requires Valid() && ValidMove(Snapshot(), m)
      modifies this
      ensures Valid()
      ensures Snapshot() == Apply(old(Snapshot()), m)
    {
      if m.from.Some? {
        RemovePiece(m.from.value);
      }
      PlacePiece(m.to, m.piece, m.from == Nil);
      activePlayer := Opponent(activePlayer);
    }

    /** MakeMove: reject an invalid move and leave the board alone, else
        apply it. */
    method MakeMove(m: Move) returns (ok: bool)
      requires Valid()
      modifies this
      ensures Valid()
      ensures ok == ValidMove(old(Snapshot()), m)
      ensures Snapshot() == if ok then Apply(old(Snapshot()), m) else old(Snapshot())
    {
      ok := IsValidMove(m);
      if !ok {
        return;
      }
      MustMakeMove(m);
    }

    /** MustUndoMove: the exact inverse of MustMakeMove. */
    method MustUndoMove(m: Move)
      requires Valid() && Undoable(Snapshot(), m)
      modifies this
      ensures Valid()
      ensures Snapshot() == Undo(old(Snapshot()), m)
    {
      RemovePiece(m.to);
      if m.from.Some? {
        PlacePiece(m.from.value, m.piece, false);
      } else {
        var row := remaining[m.piece.owner];
        remaining := remaining[m.piece.owner := row[m.piece.size.Rank() := row[m.piece.size.Rank()] + 1]];
      }
      activePlayer := Opponent(activePlayer);
    }

    /** CheckWin: rows and columns pairwise, then the two diagonals. */
    method CheckWin() returns (winner: Player)
      requires Valid()
      ensures winner == Winner(Snapshot())
    {
      var s := Snapshot();
      var i := 0;
      while i < 3
        invariant 0 <= i <= 3
        invariant Winner(s) == FirstOwner(s, Lines()[2 * i..])
      {
        var ls := Lines()[2 * i..];
        assert ls[0] == Row(i) && ls[1] == Column(i) && ls[1..][1..] == Lines()[2 * i + 2..] by {
          if i == 0 {} else if i == 1 {} else {}
        }
        winner := CheckLine(TopPiece(s, Position(i, 0)), TopPiece(s, Position(i, 1)), TopPiece(s, Position(i, 2)));
        if winner != None {
          return;
        }
        winner := CheckLine(TopPiece(s, Position(0, i)), TopPiece(s, Position(1, i)), TopPiece(s, Position(2, i)));
        if winner != None {
          return;
        }
        i := i + 1;
      }
      var ls := Lines()[6..];
      assert ls[0] == [Position(0, 0), Position(1, 1), Position(2, 2)];
      assert ls[1..][0] == [Position(0, 2), Position(1, 1), Position(2, 0)];
      assert ls[1..][1..] == [];
      winner := CheckLine(TopPiece(s, Position(0, 0)), TopPiece(s, Position(1, 1)), TopPiece(s, Position(2, 2)));
      if winner != None {
        return;
      }
      assert LineOwner(s, ls[0]) == None;
      assert FirstOwner(s, ls) == FirstOwner(s, ls[1..]);
      winner := CheckLine(TopPiece(s, Position(0, 2)), TopPiece(s, Position(1, 1)), TopPiece(s, Position(2, 0)));
      if winner != None {
        return;
      }
      assert LineOwner(s, ls[1..][0]) == None;
      assert FirstOwner(s, ls[1..]) == FirstOwner(s, ls[1..][1..]);
      return None;
    }

    /** IsValidMove: the checks in the code's order. For a relocation it
        lifts the top piece off `from`, asks CheckWin, and puts the stack
        back, so the board is the same afterwards. */
    method IsValidMove(m: Move) returns (valid: bool)
      requires Valid()
      modifies this
      ensures Valid()
      ensures Snapshot() == old(Snapshot())
      ensures valid == ValidMove(old(Snapshot()), m)
    {
      if !IsWithinBounds(m.to) {
        return false;
      }
      if m.from == Nil && !HasPieceAvailable(Snapshot(), m.piece) {
        return false;
      }
      if m.from.Some? {
        var from := m.from.value;
        if !IsWithinBounds(from) {
          return false;
        }
        var pieceOnStack := TopPiece(Snapshot(), from);
        if pieceOnStack == Nil || m.piece != pieceOnStack.value {
          return false;
        }
        if m.to == from {
          return false;
        }
        var originalStack := grid[Idx(from)];
        grid := grid[Idx(from) := originalStack[..|originalStack| - 1]];
        assert Snapshot() == Pop(old(Snapshot()), from);
        var winner := CheckWin();
        grid := grid[Idx(from) := originalStack];
        assert grid == old(grid);
        if winner != None {
          return false;
        }
      }
      var stack := grid[Idx(m.to)];
      if |stack| == 0 {
        return true;
      }
      var topPiece := stack[|stack| - 1];
      return m.piece.size.Rank() > topPiece.size.Rank();
    }

    /** GetPossibleMoves: for each square in row-major order, each available
        piece in size order, keep the valid placements. A placement never
        touches the grid during validation, so the validity test is read
        here as the function it equals. */
    method GetPossibleMoves(player: Player) returns (moves: seq<Move>)
      requires Valid()
      ensures moves == PossibleMoves(Snapshot(), player)
    {
      var s := Snapshot();
      moves := [];
      var row := 0;
      while row < 3
        invariant 0 <= row <= 3
        invariant moves == MovesUpTo(s, player, 3 * row)
      {
        var col := 0;
        while col < 3
          invariant 0 <= col <= 3
          invariant moves == MovesUpTo(s, player, 3 * row + col)
        {
          var pos := Position(row, col);
          var k := 3 * row + col;
          assert PosOf(k) == pos;
          var pieces := AvailablePieces(s, player);
          var square := SquarePlacements(s, pieces, pos);
          assert MovesUpTo(s, player, k + 1) == MovesUpTo(s, player, k) + Placements(s, pieces, pos);
          moves := moves + square;
          col := col + 1;
        }
        assert 3 * row + col == 3 * (row + 1);
        row := row + 1;
      }
      assert 3 * row == 9;
    }
  }

  /** The inner loop of GetPossibleMoves: the valid placements of the
      given pieces on one square, in the order of the pieces. */
  method SquarePlacements(s: State, pieces: seq<Piece>, pos: Position) returns (ms: seq<Move>)
    requires WellFormed(s)
    ensures ms == Placements(s, pieces, pos)
  {
    ms := [];
    var j := 0;
    while j < |pieces|
      invariant 0 <= j <= |pieces|
      invariant ms == Placements(s, pieces[..j], pos)
    {
      var move := Move(pieces[j], Nil, pos);
      var valid := ValidMove(s, move);
      PlacementsSnoc(s, pieces, j, pos);
      if valid {
        ms := ms + [move];
      }
      j := j + 1;
    }
    assert pieces[..j] == pieces;
  }
}
