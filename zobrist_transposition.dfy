/** Whole-board Zobrist hashing and the search's transposition table
    (ai/zobrist_transposition.go). The package keeps its own pair of key
    tables, handed in here as a `Keys` value; the global map becomes a
    `Table` object owned by the caller. */
module ZobristTransposition {
  import opened Wrappers
  import opened Bitwise
  import opened Pieces
  import opened Moves
  import opened GameBoard
  import opened ZobristHash

  // ---------------------------------------------------------------------
  // The hash as a function of the board

  /** The key of `piece` on square `k` (row-major). */
  function PieceKey(keys: Keys, k: nat, piece: Piece): nat
    requires ValidKeys(keys) && k < 9 && piece.owner != None
  {
    GetZobristValue(keys, PosOf(k), piece)
  }

  /** XOR of the keys of every piece of the stack on square `k`, covered
      pieces included. */
  function StackHash(keys: Keys, k: nat, st: Stack): nat
    requires ValidKeys(keys) && k < 9 && Owned(st)
  {
    if st == [] then 0
    else Xor(StackHash(keys, k, st[..|st| - 1]), PieceKey(keys, k, st[|st| - 1]))
  }

  predicate GridShape(grid: seq<Stack>) {
    |grid| == 9 && forall k :: 0 <= k < 9 ==> Owned(grid[k])
  }

  /** XOR of the stack hashes of the first `n` squares. */
  function GridHash(keys: Keys, grid: seq<Stack>, n: nat): nat
    requires ValidKeys(keys) && GridShape(grid) && n <= 9
  {
    if n == 0 then 0 else Xor(GridHash(keys, grid, n - 1), StackHash(keys, n - 1, grid[n - 1]))
  }

  /** What Hash returns: the pieces of all squares, then the side to move.
      The stock does not enter the hash. */
  function HashOf(keys: Keys, s: State): nat
    requires ValidKeys(keys) && WellFormed(s)
  {
    Xor(GridHash(keys, s.grid, 9), GetPlayerZobristValue(keys, s.active))
  }

  /** Hash: XOR the key of every piece of every stack, square by square,
      then the key of the side to move. */
  method Hash(keys: Keys, b: Board) returns (hash: nat)
    requires ValidKeys(keys) && b.Valid()
    ensures hash == HashOf(keys, b.Snapshot())
  {
    var grid := b.grid;
    hash := 0;
    var row := 0;
    while row < 3
      invariant 0 <= row <= 3
      invariant hash == GridHash(keys, grid, 3 * row)
    {
      var col := 0;
      while col < 3
        invariant 0 <= col <= 3
        invariant hash == GridHash(keys, grid, 3 * row + col)
      {
        hash := HashStack(keys, row, col, grid[3 * row + col], hash);
        col := col + 1;
      }
      assert 3 * row + col == 3 * (row + 1);
      row := row + 1;
    }
    assert 3 * row == 9;
    hash := Xor(hash, keys.player[Slot(b.activePlayer)]);
  }

  /** The innermost loop of Hash: toggle the key of every piece of the
      stack on square (row, col), bottom first. */
  method HashStack(keys: Keys, row: nat, col: nat, stack: Stack, start: nat) returns (hash: nat)
    requires ValidKeys(keys) && row < 3 && col < 3 && Owned(stack)
    ensures hash == Xor(start, StackHash(keys, 3 * row + col, stack))
  {
    var k := 3 * row + col;
    assert PosOf(k) == Position(row, col);
    XorZero(start);
    hash := start;
    var i := 0;
    while i < |stack|
      invariant 0 <= i <= |stack|
      invariant hash == Xor(start, StackHash(keys, k, stack[..i]))
    {
      assert stack[..i + 1][..i] == stack[..i];
      XorAssoc(start, StackHash(keys, k, stack[..i]), PieceKey(keys, k, stack[i]));
      hash := Xor(hash, keys.table[row][col][stack[i].ID()]);
      i := i + 1;
    }
    assert stack[..i] == stack;
  }

  lemma {:induction false} StackHashIsWord(keys: Keys, k: nat, st: Stack)
    requires ValidKeys(keys) && k < 9 && Owned(st)
    ensures IsWord(StackHash(keys, k, st))
  {
    if st != [] {
      StackHashIsWord(keys, k, st[..|st| - 1]);
      XorWord(StackHash(keys, k, st[..|st| - 1]), PieceKey(keys, k, st[|st| - 1]));
    }
  }

  lemma {:induction false} GridHashIsWord(keys: Keys, grid: seq<Stack>, n: nat)
    requires ValidKeys(keys) && GridShape(grid) && n <= 9
    ensures IsWord(GridHash(keys, grid, n))
  {
    if n > 0 {
      GridHashIsWord(keys, grid, n - 1);
      StackHashIsWord(keys, n - 1, grid[n - 1]);
      XorWord(GridHash(keys, grid, n - 1), StackHash(keys, n - 1, grid[n - 1]));
    }
  }

  /** The hash fits the `uint64` the code returns. */
  lemma HashIsWord(keys: Keys, s: State)
    requires ValidKeys(keys) && WellFormed(s)
    ensures IsWord(HashOf(keys, s))
  {
    GridHashIsWord(keys, s.grid, 9);
    XorWord(GridHash(keys, s.grid, 9), GetPlayerZobristValue(keys, s.active));
  }

  // ---------------------------------------------------------------------
  // Incremental updates

  /** Replacing the stack of square `i` toggles the old and the new stack
      hash of that square and changes nothing else. */
  lemma {:induction false} GridHashUpdate(keys: Keys, g: seq<Stack>, h: seq<Stack>, i: nat, n: nat)
    requires ValidKeys(keys) && GridShape(g) && GridShape(h) && i < 9 && n <= 9
    requires forall k :: 0 <= k < 9 && k != i ==> h[k] == g[k]
    ensures GridHash(keys, h, n) ==
      if i < n then Xor(Xor(GridHash(keys, g, n), StackHash(keys, i, g[i])), StackHash(keys, i, h[i]))
      else GridHash(keys, g, n)
  {
    if n > 0 {
      GridHashUpdate(keys, g, h, i, n - 1);
      var a := GridHash(keys, g, n - 1);
      var x := StackHash(keys, i, g[i]);
      var y := StackHash(keys, i, h[i]);
      if i == n - 1 {
        XorCancel(a, x);
      } else if i < n - 1 {
        assert h[n - 1] == g[n - 1];
        XorToggleLater(a, x, y, StackHash(keys, n - 1, g[n - 1]));
      } else {
        assert h[n - 1] == g[n - 1];
      }
    }
  }

  /** A toggle of a later square commutes past the replacement of an
      earlier one. */
  lemma XorToggleLater(a: nat, x: nat, y: nat, c: nat)
    ensures Xor(Xor(Xor(a, x), y), c) == Xor(Xor(Xor(a, c), x), y)
  {
    XorSwap(Xor(a, x), y, c);
    XorSwap(a, x, c);
  }

  /** placePiece toggles exactly the key of the placed piece on its square;
      the stock does not enter the hash. */
  lemma PushHash(keys: Keys, s: State, p: Position, piece: Piece)
    requires ValidKeys(keys) && WellFormed(s) && IsWithinBounds(p) && piece.owner != None
    ensures HashOf(keys, Push(s, p, piece)) == Xor(HashOf(keys, s), GetZobristValue(keys, p, piece))
  {
    var t := Push(s, p, piece);
    var i := Idx(p);
    var st := s.grid[i];
    GridHashUpdate(keys, s.grid, t.grid, i, 9);
    assert (st + [piece])[..|st|] == st;
    var g := GridHash(keys, s.grid, 9);
    var v := GetZobristValue(keys, p, piece);
    XorReplace(g, StackHash(keys, i, st), v);
    XorSwap(g, v, GetPlayerZobristValue(keys, s.active));
  }

  /** removePiece toggles exactly the key of the lifted piece on its square. */
  lemma PopHash(keys: Keys, s: State, p: Position)
    requires ValidKeys(keys) && WellFormed(s) && IsWithinBounds(p) && GetPositionStack(s, p) != []
    ensures HashOf(keys, Pop(s, p)) == Xor(HashOf(keys, s), GetZobristValue(keys, p, TopPiece(s, p).value))
  {
    var t := Pop(s, p);
    var i := Idx(p);
    var st := s.grid[i];
    var top := st[|st| - 1];
    assert Push(t, p, top).grid == s.grid by {
      assert st[..|st| - 1] + [top] == st;
    }
    assert Push(t, p, top) == s;
    PushHash(keys, t, p, top);
    XorCancel(HashOf(keys, t), GetZobristValue(keys, p, top));
  }

  /** Handing the turn from `s.active` to `q` toggles both side-to-move keys. */
  lemma TurnHash(keys: Keys, s: State, q: Player)
    requires ValidKeys(keys) && WellFormed(s)
    ensures HashOf(keys, s.(active := q)) ==
            Xor(Xor(HashOf(keys, s), GetPlayerZobristValue(keys, s.active)), GetPlayerZobristValue(keys, q))
  {
    XorCancel(GridHash(keys, s.grid, 9), GetPlayerZobristValue(keys, s.active));
  }

  /** The keys a move toggles: the piece on `from` (a relocation), the piece
      on `to`, and the keys of the side to move before and after. */
  function MoveToggle(keys: Keys, m: Move, active: Player): nat
    requires ValidKeys(keys) && m.piece.owner != None && IsWithinBounds(m.to)
    requires m.from.Some? ==> IsWithinBounds(m.from.value)
  {
    Xor(Xor(Xor(if m.from.Some? then GetZobristValue(keys, m.from.value, m.piece) else 0,
                GetZobristValue(keys, m.to, m.piece)),
            GetPlayerZobristValue(keys, active)),
        GetPlayerZobristValue(keys, Opponent(active)))
  }

  lemma ValidMoveShape(s: State, m: Move)
    requires WellFormed(s) && ValidMove(s, m)
    ensures m.piece.owner != None && IsWithinBounds(m.to)
    ensures m.from.Some? ==> IsWithinBounds(m.from.value)
  {
    if m.from.Some? {
      assert TopPiece(s, m.from.value) == Some(m.piece);
    }
  }

  /** Make changes the hash by exactly the move's toggle. */
  lemma ApplyHash(keys: Keys, s: State, m: Move)
    requires ValidKeys(keys) && WellFormed(s) && ValidMove(s, m)
    ensures m.piece.owner != None && IsWithinBounds(m.to)
    ensures HashOf(keys, Apply(s, m)) == Xor(HashOf(keys, s), MoveToggle(keys, m, s.active))
  {
    ValidMoveShape(s, m);
    var h0 := HashOf(keys, s);
    var f := if m.from.Some? then GetZobristValue(keys, m.from.value, m.piece) else 0;
    var lifted := if m.from.Some? then Pop(s, m.from.value) else s;
    if m.from.Some? {
      PopHash(keys, s, m.from.value);
    } else {
      XorZero(h0);
    }
    assert HashOf(keys, lifted) == Xor(h0, f);
    var placed := Push(lifted, m.to, m.piece);
    PushHash(keys, lifted, m.to, m.piece);
    var stocked := if m.from == Nil then AdjustStock(placed, m.piece, -1) else placed;
    assert stocked.grid == placed.grid && stocked.active == s.active;
    TurnHash(keys, stocked, Opponent(s.active));
    assert Apply(s, m) == stocked.(active := Opponent(s.active));
    XorChain(h0, f, GetZobristValue(keys, m.to, m.piece),
             GetPlayerZobristValue(keys, s.active), GetPlayerZobristValue(keys, Opponent(s.active)));
  }

  /** Undo changes the hash by the toggle of the make it reverts, that is
      the toggle taken with the side to move before the make. */
  lemma UndoHash(keys: Keys, r: State, m: Move)
    requires ValidKeys(keys) && WellFormed(r) && Undoable(r, m)
    ensures m.piece.owner != None
    ensures HashOf(keys, Undo(r, m)) == Xor(HashOf(keys, r), MoveToggle(keys, m, Opponent(r.active)))
  {
    var hr := HashOf(keys, r);
    var f := if m.from.Some? then GetZobristValue(keys, m.from.value, m.piece) else 0;
    var to := GetZobristValue(keys, m.to, m.piece);
    var lifted := Pop(r, m.to);
    PopHash(keys, r, m.to);
    var restored := if m.from.Some? then Push(lifted, m.from.value, m.piece)
                    else AdjustStock(lifted, m.piece, 1);
    if m.from.Some? {
      PushHash(keys, lifted, m.from.value, m.piece);
    } else {
      XorZero(Xor(hr, to));
    }
    assert HashOf(keys, restored) == Xor(Xor(hr, to), f);
    assert restored.active == r.active;
    var pr := GetPlayerZobristValue(keys, r.active);
    var po := GetPlayerZobristValue(keys, Opponent(r.active));
    TurnHash(keys, restored, Opponent(r.active));
    OpponentInvolution(r.active);
    XorSwap(hr, to, f);
    XorSwap(Xor(Xor(hr, f), to), pr, po);
    XorChain(hr, f, to, po, pr);
  }

  /** Make then undo returns the pre-move hash: the same toggle is applied
      twice and XOR is its own inverse. */
  lemma MakeUndoRestoresHash(keys: Keys, s: State, m: Move)
    requires ValidKeys(keys) && WellFormed(s) && ValidMove(s, m)
    ensures Undoable(Apply(s, m), m)
    ensures HashOf(keys, Undo(Apply(s, m), m)) == HashOf(keys, s)
  {
    UndoInvertsApply(s, m);
    ApplyHash(keys, s, m);
    var r := Apply(s, m);
    UndoHash(keys, r, m);
    OpponentInvolution(s.active);
    XorCancel(HashOf(keys, s), MoveToggle(keys, m, s.active));
  }

  /** Redoing an undone move reproduces the post-move hash. */
  lemma RedoReproducesHash(keys: Keys, s: State, m: Move)
    requires ValidKeys(keys) && WellFormed(s) && ValidMove(s, m)
    ensures Undoable(Apply(s, m), m)
    ensures var u := Undo(Apply(s, m), m);
      ValidMove(u, m) && HashOf(keys, Apply(u, m)) == HashOf(keys, Apply(s, m))
  {
    UndoInvertsApply(s, m);
  }

  /** The hash changes under a move exactly when the move's toggle is
      non-zero; the code's tests expect it to change. */
  lemma MoveChangesHash(keys: Keys, s: State, m: Move)
    requires ValidKeys(keys) && WellFormed(s) && ValidMove(s, m)
    ensures m.piece.owner != None && IsWithinBounds(m.to)
    ensures HashOf(keys, Apply(s, m)) != HashOf(keys, s) <==> MoveToggle(keys, m, s.active) != 0
  {
    ApplyHash(keys, s, m);
    XorUnchanged(HashOf(keys, s), MoveToggle(keys, m, s.active));
  }

  lemma {:induction false} EmptyGridHash(keys: Keys, grid: seq<Stack>, n: nat)
    requires ValidKeys(keys) && GridShape(grid) && n <= 9
    requires forall k :: 0 <= k < 9 ==> grid[k] == []
    ensures GridHash(keys, grid, n) == 0
  {
    if n > 0 {
      EmptyGridHash(keys, grid, n - 1);
    }
  }

  /** A fresh board hashes to the key of Player1 to move. */
  lemma NewBoardHash(keys: Keys, s: State)
    requires ValidKeys(keys) && s == NewState()
    ensures HashOf(keys, s) == GetPlayerZobristValue(keys, Player1)
  {
    NewStateFacts(s);
    EmptyGridHash(keys, s.grid, 9);
    XorZero(GetPlayerZobristValue(keys, Player1));
  }

  // ---------------------------------------------------------------------
  // Independence of the visiting order

  /** One piece on one square, as Hash visits it. */
  datatype Occupant = Occupant(square: nat, piece: Piece)

  predicate ValidOccupants(os: seq<Occupant>) {
    forall i :: 0 <= i < |os| ==> os[i].square < 9 && os[i].piece.owner != None
  }

  /** XOR of the keys of a sequence of occupants, in the order given. */
  function XorOf(keys: Keys, os: seq<Occupant>): nat
    requires ValidKeys(keys) && ValidOccupants(os)
  {
    if os == [] then 0
    else Xor(XorOf(keys, os[..|os| - 1]), PieceKey(keys, os[|os| - 1].square, os[|os| - 1].piece))
  }

  function StackOccupants(k: nat, st: Stack): (os: seq<Occupant>)
    ensures |os| == |st|
    ensures forall i :: 0 <= i < |st| ==> os[i] == Occupant(k, st[i])
  {
    if st == [] then [] else StackOccupants(k, st[..|st| - 1]) + [Occupant(k, st[|st| - 1])]
  }

  /** Every piece of the first `n` squares, in the order Hash visits them. */
  function BoardOccupants(grid: seq<Stack>, n: nat): (os: seq<Occupant>)
    requires GridShape(grid) && n <= 9
    ensures ValidOccupants(os)
  {
    if n == 0 then []
    else
      var prefix := BoardOccupants(grid, n - 1);
      var os := prefix + StackOccupants(n - 1, grid[n - 1]);
      assert forall i :: |prefix| <= i < |os| ==> os[i] == Occupant(n - 1, grid[n - 1][i - |prefix|]);
      os
  }

  lemma {:induction false} XorOfConcat(keys: Keys, a: seq<Occupant>, b: seq<Occupant>)
    requires ValidKeys(keys) && ValidOccupants(a) && ValidOccupants(b)
    ensures ValidOccupants(a + b)
    ensures XorOf(keys, a + b) == Xor(XorOf(keys, a), XorOf(keys, b))
  {
    ConcatValid(a, b);
    if b == [] {
      assert a + b == a;
      XorZero(XorOf(keys, a));
    } else {
      var b' := b[..|b| - 1];
      var x := b[|b| - 1];
      XorOfConcat(keys, a, b');
      assert (a + b)[..|a + b| - 1] == a + b' && (a + b)[|a + b| - 1] == x;
      assert XorOf(keys, a + b) == Xor(XorOf(keys, a + b'), PieceKey(keys, x.square, x.piece));
      assert XorOf(keys, b) == Xor(XorOf(keys, b'), PieceKey(keys, x.square, x.piece));
      XorAssoc(XorOf(keys, a), XorOf(keys, b'), PieceKey(keys, x.square, x.piece));
    }
  }

  lemma ConcatValid(a: seq<Occupant>, b: seq<Occupant>)
    requires ValidOccupants(a) && ValidOccupants(b)
    ensures ValidOccupants(a + b)
  {
    forall i | 0 <= i < |a + b|
      ensures (a + b)[i].square < 9 && (a + b)[i].piece.owner != None
    {
      if i < |a| {
        assert (a + b)[i] == a[i];
      } else {
        assert (a + b)[i] == b[i - |a|];
      }
    }
  }

  /** Taking one occupant out of the middle of a sequence removes exactly
      its key. */
  lemma XorOfRemove(keys: Keys, l: seq<Occupant>, x: Occupant, r: seq<Occupant>)
    requires ValidKeys(keys) && ValidOccupants(l + [x] + r)
    ensures ValidOccupants(l + r) && x.square < 9 && x.piece.owner != None
    ensures XorOf(keys, l + [x] + r) == Xor(XorOf(keys, l + r), PieceKey(keys, x.square, x.piece))
  {
    var all := l + [x] + r;
    assert x == all[|l|];
    assert ValidOccupants(l) && ValidOccupants(r) && ValidOccupants([x]) by {
      assert forall i :: 0 <= i < |l| ==> l[i] == all[i];
      assert forall i :: 0 <= i < |r| ==> r[i] == all[|l| + 1 + i];
    }
    XorOfConcat(keys, l, r);
    XorOfConcat(keys, l + [x], r);
    XorOfConcat(keys, l, [x]);
    var kx := PieceKey(keys, x.square, x.piece);
    assert XorOf(keys, [x]) == kx by {
      assert [x][..0] == [];
      XorZero(kx);
    }
    XorSwap(XorOf(keys, l), XorOf(keys, r), kx);
  }

  /** Removing the last element of `a` and one equal element of `b` keeps
      the two multisets equal. */
  lemma MultisetSplit<T>(a: seq<T>, b: seq<T>) returns (l: seq<T>, r: seq<T>)
    requires a != [] && multiset(a) == multiset(b)
    ensures b == l + [a[|a| - 1]] + r
    ensures multiset(a[..|a| - 1]) == multiset(l + r)
  {
    var x := a[|a| - 1];
    assert a == a[..|a| - 1] + [x];
    assert x in multiset(b);
    var j :| 0 <= j < |b| && b[j] == x;
    l, r := b[..j], b[j + 1..];
    assert b == l + [x] + r;
    assert multiset(a) == multiset(a[..|a| - 1]) + multiset{x};
    assert multiset(b) == multiset(l) + multiset{x} + multiset(r);
    assert multiset(l + r) == multiset(l) + multiset(r);
    assert multiset(a[..|a| - 1]) == multiset(a) - multiset{x};
    assert multiset(l + r) == multiset(b) - multiset{x};
  }

  /** The XOR of a sequence of occupants depends only on its multiset. */
  lemma {:induction false} XorOfPermutation(keys: Keys, a: seq<Occupant>, b: seq<Occupant>)
    requires ValidKeys(keys) && ValidOccupants(a) && ValidOccupants(b)
    requires multiset(a) == multiset(b)
    ensures XorOf(keys, a) == XorOf(keys, b)
    decreases |a|
  {
    if a == [] {
      assert |b| == |multiset(b)| == 0;
    } else {
      var l, r := MultisetSplit(a, b);
      XorOfRemove(keys, l, a[|a| - 1], r);
      XorOfPermutation(keys, a[..|a| - 1], l + r);
    }
  }

  lemma {:induction false} StackHashIsXor(keys: Keys, k: nat, st: Stack)
    requires ValidKeys(keys) && k < 9 && Owned(st)
    ensures ValidOccupants(StackOccupants(k, st))
    ensures StackHash(keys, k, st) == XorOf(keys, StackOccupants(k, st))
  {
    if st != [] {
      var st' := st[..|st| - 1];
      StackHashIsXor(keys, k, st');
      var os := StackOccupants(k, st);
      assert os[..|os| - 1] == StackOccupants(k, st');
    }
  }

  lemma {:induction false} GridHashIsXor(keys: Keys, grid: seq<Stack>, n: nat)
    requires ValidKeys(keys) && GridShape(grid) && n <= 9
    ensures GridHash(keys, grid, n) == XorOf(keys, BoardOccupants(grid, n))
  {
    if n > 0 {
      GridHashIsXor(keys, grid, n - 1);
      StackHashIsXor(keys, n - 1, grid[n - 1]);
      XorOfConcat(keys, BoardOccupants(grid, n - 1), StackOccupants(n - 1, grid[n - 1]));
    }
  }

  /** Hash does not depend on the order in which squares or the pieces of
      a stack are visited: any enumeration of the board's (square, piece)
      pairs, each as often as it occurs, gives the same hash. */
  lemma HashAnyOrder(keys: Keys, s: State, os: seq<Occupant>)
    requires ValidKeys(keys) && WellFormed(s)
    requires multiset(os) == multiset(BoardOccupants(s.grid, 9))
    ensures ValidOccupants(os)
    ensures HashOf(keys, s) == Xor(XorOf(keys, os), GetPlayerZobristValue(keys, s.active))
  {
    var all := BoardOccupants(s.grid, 9);
    forall i | 0 <= i < |os|
      ensures os[i].square < 9 && os[i].piece.owner != None
    {
      assert os[i] in multiset(all);
      var j :| 0 <= j < |all| && all[j] == os[i];
    }
    GridHashIsXor(keys, s.grid, 9);
    XorOfPermutation(keys, all, os);
  }

  // ---------------------------------------------------------------------
  // The transposition table

  /** The score the search uses for "no winner", returned by a miss. */
  const NoWin: int := 0

  datatype EntryType = Exact | LowerBound | UpperBound

  datatype TTEntry = TTEntry(evaluation: int, depth: int, bestMove: Move, entryType: EntryType)

  /** The three results of lookupHash. */
  datatype Probe = Probe(found: bool, evaluation: int, bestMove: Move)

  const Miss: Probe := Probe(false, NoWin, ZeroMove)

  /** An entry at sufficient depth helps pruning: always when exact, a lower
      bound only at or above beta, an upper bound only at or below alpha. */
  predicate Usable(e: TTEntry, alpha: int, beta: int) {
    match e.entryType
    case Exact => true
    case LowerBound => e.evaluation >= beta
    case UpperBound => e.evaluation <= alpha
  }

  /** The window semantics of a search result: `v` returned for the window
      (alpha, beta) where `m` is the true value. Inside the window `v` is
      exact; at or below alpha it bounds `m` from above; at or above beta it
      bounds `m` from below. */
  predicate FailSoft(alpha: int, beta: int, v: int, m: int) {
    (v < beta ==> m <= v) && (alpha < v ==> v <= m)
  }

  /** An entry is sound for a position whose true value is `m` when its
      type says what its evaluation is: the value, a lower bound or an
      upper bound. */
  predicate SoundFor(e: TTEntry, m: int) {
    match e.entryType
    case Exact => e.evaluation == m
    case LowerBound => e.evaluation <= m
    case UpperBound => m <= e.evaluation
  }

  /** Every entry holds the zero move. */
  predicate NoMoves(entries: map<nat, TTEntry>) {
    forall h :: h in entries ==> entries[h].bestMove == ZeroMove
  }

  /** What storeHash leaves in the map: the new entry, without a best move,
      if the key is new or the new depth is strictly greater; otherwise the
      map unchanged. */
  function StoreIn(entries: map<nat, TTEntry>, hash: nat, evaluation: int, depth: int, entryType: EntryType)
    : (r: map<nat, TTEntry>)
    ensures r.Keys == entries.Keys + {hash}
    ensures forall h :: h in entries && h != hash ==> r[h] == entries[h]
    ensures hash in entries ==> r[hash].depth == if depth > entries[hash].depth then depth else entries[hash].depth
    ensures NoMoves(entries) ==> NoMoves(r)
  {
    if hash !in entries || depth > entries[hash].depth then
      entries[hash := TTEntry(evaluation, depth, ZeroMove, entryType)]
    else entries
  }

  /** The global map of the code as an object. */
  class Table {
    var entries: map<nat, TTEntry>

    constructor ()
      ensures entries == map[]
    {
      entries := map[];
    }

    /** lookupHash: a miss for an absent key or a shallower entry, else a
        hit exactly when the entry is usable for the window. */
    function LookupHash(hash: nat, depth: int, alpha: int, beta: int): (r: Probe)
      reads this
      ensures hash !in entries || entries[hash].depth < depth ==> r == Miss
      ensures r.found ==> hash in entries && r.evaluation == entries[hash].evaluation &&
                          r.bestMove == entries[hash].bestMove
      ensures !r.found ==> r == Miss
    {
      if hash !in entries || entries[hash].depth < depth then Miss
      else
        var entry := entries[hash];
        if Usable(entry, alpha, beta) then Probe(true, entry.evaluation, entry.bestMove)
        else Miss
    }

    /** storeHash: keep the deeper entry; the best move is not recorded. */
    method StoreHash(hash: nat, evaluation: int, depth: int, entryType: EntryType)
      modifies this
      ensures entries == StoreIn(old(entries), hash, evaluation, depth, entryType)
    {
      if hash !in entries || depth > entries[hash].depth {
        entries := entries[hash := TTEntry(evaluation, depth, ZeroMove, entryType)];
      }
    }
  }

  /** At sufficient depth the entry type decides: an exact entry always
      hits, a lower bound iff it is at least beta, an upper bound iff it is
      at most alpha. */
  lemma LookupRules(t: Table, hash: nat, depth: int, alpha: int, beta: int)
    requires hash in t.entries && t.entries[hash].depth >= depth
    ensures var e := t.entries[hash];
      && (e.entryType == Exact ==> t.LookupHash(hash, depth, alpha, beta).found)
      && (e.entryType == LowerBound ==> (t.LookupHash(hash, depth, alpha, beta).found <==> e.evaluation >= beta))
      && (e.entryType == UpperBound ==> (t.LookupHash(hash, depth, alpha, beta).found <==> e.evaluation <= alpha))
  {
  }

  /** A hit on a sound entry is a correct fail-soft answer for the window. */
  lemma HitIsFailSoft(t: Table, hash: nat, depth: int, alpha: int, beta: int, m: int)
    requires hash in t.entries && SoundFor(t.entries[hash], m)
    requires t.LookupHash(hash, depth, alpha, beta).found
    ensures FailSoft(alpha, beta, t.LookupHash(hash, depth, alpha, beta).evaluation, m)
  {
  }

  /** A store at a depth no greater than the entry's leaves the map alone,
      in particular one at equal depth. */
  lemma StoreKeepsDeeper(entries: map<nat, TTEntry>, hash: nat, evaluation: int, depth: int, entryType: EntryType)
    requires hash in entries && depth <= entries[hash].depth
    ensures StoreIn(entries, hash, evaluation, depth, entryType) == entries
  {
  }

  /** A store into a new key or at a greater depth writes the entry. */
  lemma StoreWrites(entries: map<nat, TTEntry>, hash: nat, evaluation: int, depth: int, entryType: EntryType)
    requires hash !in entries || depth > entries[hash].depth
    ensures StoreIn(entries, hash, evaluation, depth, entryType)[hash] == TTEntry(evaluation, depth, ZeroMove, entryType)
  {
  }

  /** Since storeHash never records a move, every lookup of a table filled
      only by it reports the zero move, hit or miss. */
  lemma LookupNeverMoves(t: Table, hash: nat, depth: int, alpha: int, beta: int)
    requires NoMoves(t.entries)
    ensures t.LookupHash(hash, depth, alpha, beta).bestMove == ZeroMove
  {
  }
}
