/** Fail-soft alpha-beta minimax with a transposition table
    (ai/minimax.go). The search is proved against plain minimax over the
    same move lists; the board is handed back as it was found. */
module Minimax {
  import opened Wrappers
  import opened Pieces
  import opened Moves
  import opened GameBoard
  import opened ZobristHash
  import opened Int64
  import ZT = ZobristTransposition

  const Player1Win: int := 1000
  const Player2Win: int := -1000
  const NoWin: int := 0

  /** Evaluate: a won position scores 1000 plus the remaining depth for
      Player1, minus that for Player2 (Go `int` sums, which wrap), any
      other position 0. */
  function Evaluate(s: State, depthRemaining: int): (e: int)
    requires WellFormed(s)
    ensures InRange(e)
  {
    match Winner(s)
    case Player1 => Wrap(Player1Win + depthRemaining)
    case Player2 => Wrap(Player2Win - depthRemaining)
    case None => NoWin
  }

  /** isMaximizingPlayer: Player1 maximizes. */
  function IsMaximizingPlayer(p: Player): (r: bool)
    ensures r <==> p == Player1
  {
    p == Player1
  }

  /** The result mapping of SolvePosition. */
  function Verdict(evaluation: int): (w: Player)
    ensures w == None <==> evaluation == NoWin
    ensures w == Player1 <==> evaluation >= Player1Win
  {
    if evaluation == NoWin then None
    else if evaluation >= Player1Win then Player1
    else Player2
  }

  /** For a remaining depth that does not overflow, the verdict of the
      terminal score is the winner, and faster wins score further from 0. */
  lemma VerdictOfEvaluate(s: State, d: int, e: int)
    requires WellFormed(s) && 0 <= d <= e <= MaxInt - Player1Win
    ensures Verdict(Evaluate(s, d)) == Winner(s)
    ensures Winner(s) == Player1 ==> Evaluate(s, d) == Player1Win + d
    ensures Winner(s) == Player2 ==> Evaluate(s, d) == Player2Win - d
    ensures Winner(s) == None ==> Evaluate(s, d) == NoWin
    ensures Winner(s) == Player1 ==> Player1Win <= Evaluate(s, d) <= Evaluate(s, e)
    ensures Winner(s) == Player2 ==> Evaluate(s, e) <= Evaluate(s, d) <= Player2Win
  {
  }

  // ---------------------------------------------------------------------
  // Plain minimax, the reference

  lemma PossibleMovesValid(s: State)
    requires WellFormed(s)
    ensures forall m :: m in PossibleMoves(s, s.active) ==> ValidMove(s, m)
  {
    forall m | m in PossibleMoves(s, s.active)
      ensures ValidMove(s, m)
    {
      PossibleMovesSpec(s, s.active, m);
    }
  }

  /** Plain minimax over the moves the search generates, in the same
      order. Its definition is NodeValue; naming it one step away lets a
      contract mention the value of a position without laying open how
      that position is evaluated. */
  function Value(s: State, depth: nat, maximizing: bool): (v: int)
    requires WellFormed(s)
    ensures InRange(v)
    decreases depth, 2
  {
    NodeValue(s, depth, maximizing)
  }

  /** The evaluation at depth 0 or on a won board, else the best child
      value for the side, from MinInt or MaxInt. */
  function NodeValue(s: State, depth: nat, maximizing: bool): (v: int)
    requires WellFormed(s)
    ensures InRange(v)
    decreases depth, 1
  {
    if depth == 0 || Winner(s) != None then Evaluate(s, depth)
    else
      PossibleMovesValid(s);
      var moves := PossibleMoves(s, s.active);
      var children := Children(s, moves, depth, maximizing);
      BestBounds(children, |moves|, maximizing);
      Best(children, |moves|, maximizing)
  }

  /** The values of the positions the moves lead to, searched one level
      shallower for the other side. */
  function Children(s: State, moves: seq<Move>, depth: nat, maximizing: bool): (vs: seq<int>)
    requires WellFormed(s) && depth > 0
    requires forall m :: m in moves ==> ValidMove(s, m)
    ensures |vs| == |moves|
    ensures forall i :: 0 <= i < |vs| ==> InRange(vs[i])
    decreases depth, 0
  {
    seq(|moves|, i requires 0 <= i < |moves| => Value(Apply(s, moves[i]), depth - 1, !maximizing))
  }

  /** The bound a side starts from: MinInt for the maximizer, MaxInt for
      the minimizer. */
  function Initial(maximizing: bool): int {
    if maximizing then MinInt else MaxInt
  }

  /** The best of the first `k` values for the side: their maximum
      starting from MinInt, or their minimum starting from MaxInt. */
  function Best(vs: seq<int>, k: nat, maximizing: bool): (v: int)
    requires k <= |vs|
  {
    if k == 0 then Initial(maximizing)
    else if maximizing then Max(Best(vs, k - 1, true), vs[k - 1])
    else Min(Best(vs, k - 1, false), vs[k - 1])
  }

  /** Best bounds every value it has seen and, after at least one, is one
      of them; it stays in range when the values do. */
  lemma {:induction false} BestBounds(vs: seq<int>, k: nat, maximizing: bool)
    requires k <= |vs|
    ensures forall i :: 0 <= i < k ==>
      if maximizing then vs[i] <= Best(vs, k, maximizing) else Best(vs, k, maximizing) <= vs[i]
    ensures (forall i :: 0 <= i < k ==> InRange(vs[i])) ==>
      && InRange(Best(vs, k, maximizing))
      && (k > 0 ==> exists i :: 0 <= i < k && Best(vs, k, maximizing) == vs[i])
  {
    if k > 0 {
      BestBounds(vs, k - 1, maximizing);
      if (forall i :: 0 <= i < k ==> InRange(vs[i])) && k > 1 && Best(vs, k, maximizing) != vs[k - 1] {
        var j :| 0 <= j < k - 1 && Best(vs, k - 1, maximizing) == vs[j];
      }
    }
  }

  /** One step of the maximizing loop keeps the fail-soft relation between
      the running maximum and the best child value so far: a child searched
      with the window (max(alpha, maxEval), beta) is enough. */
  lemma MaxStep(alpha: int, beta: int, maxEval: int, best: int, eval: int, child: int)
    requires ZT.FailSoft(alpha, beta, maxEval, best)
    requires ZT.FailSoft(Max(alpha, maxEval), beta, eval, child)
    ensures ZT.FailSoft(alpha, beta, Max(maxEval, eval), Max(best, child))
  {
  }

  /** The same for the minimizing loop with the window (alpha, min(beta, minEval)). */
  lemma MinStep(alpha: int, beta: int, minEval: int, best: int, eval: int, child: int)
    requires ZT.FailSoft(alpha, beta, minEval, best)
    requires ZT.FailSoft(alpha, Min(beta, minEval), eval, child)
    ensures ZT.FailSoft(alpha, beta, Min(minEval, eval), Min(best, child))
  {
  }

  /** A beta cutoff: a maximum that has reached beta stays fail-soft
      whatever the remaining children would have added. */
  lemma MaxCutoff(alpha: int, beta: int, maxEval: int, part: int, total: int)
    requires ZT.FailSoft(alpha, beta, maxEval, part) && beta <= maxEval && part <= total
    ensures ZT.FailSoft(alpha, beta, maxEval, total)
  {
  }

  /** An alpha cutoff: a minimum that has fallen to alpha stays fail-soft
      whatever the remaining children would have added. */
  lemma MinCutoff(alpha: int, beta: int, minEval: int, part: int, total: int)
    requires ZT.FailSoft(alpha, beta, minEval, part) && minEval <= alpha && total <= part
    ensures ZT.FailSoft(alpha, beta, minEval, total)
  {
  }

  /** More values can only raise a maximum and lower a minimum. */
  lemma {:induction false} BestMonotone(vs: seq<int>, i: nat, k: nat, maximizing: bool)
    requires i <= k <= |vs|
    ensures maximizing ==> Best(vs, i, true) <= Best(vs, k, true)
    ensures !maximizing ==> Best(vs, k, false) <= Best(vs, i, false)
    decreases k - i
  {
    if i < k {
      BestMonotone(vs, i, k - 1, maximizing);
    }
  }

  /** A side without a legal move, with nobody having won, scores the worst
      value for itself, so SolvePosition reports it as the loser. */
  lemma NoMovesLoses(s: State, depth: nat)
    requires WellFormed(s) && depth > 0 && Winner(s) == None && s.active != None
    requires PossibleMoves(s, s.active) == []
    ensures Value(s, depth, true) == MinInt && Value(s, depth, false) == MaxInt
    ensures Verdict(Value(s, depth, IsMaximizingPlayer(s.active))) == Opponent(s.active)
  {
  }

  /** At the full window a fail-soft answer is the exact value. */
  lemma FullWindowExact(v: int, m: int)
    requires InRange(v) && InRange(m) && ZT.FailSoft(MinInt, MaxInt, v, m)
    ensures v == m
  {
  }

  /** The window a child is searched with once the children before it
      gave `best`: alpha raised to it for the maximizer, beta lowered to
      it for the minimizer. */
  function WindowLow(alpha: int, best: int, maximizing: bool): int {
    if maximizing then Max(alpha, best) else alpha
  }

  function WindowHigh(beta: int, best: int, maximizing: bool): int {
    if maximizing then beta else Min(beta, best)
  }

  /** The loop goes on while that window is not empty. */
  predicate Open(alpha: int, beta: int, best: int, maximizing: bool) {
    WindowLow(alpha, best, maximizing) < WindowHigh(beta, best, maximizing)
  }

  /** The `j`-th explored result was searched with the window the results
      before it left, which was still open, and is fail-soft against the
      `j`-th child's value. */
  predicate ExploredAt(alpha: int, beta: int, children: seq<int>, explored: seq<int>, j: nat, maximizing: bool)
    requires j < |explored| && j < |children|
  {
    var best := Best(explored, j, maximizing);
    && Open(alpha, beta, best, maximizing)
    && ZT.FailSoft(WindowLow(alpha, best, maximizing), WindowHigh(beta, best, maximizing), explored[j], children[j])
  }

  /** `explored` are the results of the first children, searched in order. */
  predicate Explored(alpha: int, beta: int, children: seq<int>, explored: seq<int>, maximizing: bool) {
    && |explored| <= |children|
    && forall j :: 0 <= j < |explored| ==> ExploredAt(alpha, beta, children, explored, j, maximizing)
  }

  /** `k` is the first index whose result is the best of `explored`, or -1
      when no result got past the initial bound. */
  predicate FirstBest(explored: seq<int>, k: int, maximizing: bool) {
    && -1 <= k < |explored|
    && (k == -1 <==> Best(explored, |explored|, maximizing) == Initial(maximizing))
    && (0 <= k ==>
         && explored[k] == Best(explored, |explored|, maximizing)
         && forall j :: 0 <= j < k ==> explored[j] != explored[k])
  }

  /** Best of a prefix ignores what is appended after it. */
  lemma {:induction false} BestPrefix(vs: seq<int>, x: int, k: nat, maximizing: bool)
    requires k <= |vs|
    ensures Best(vs + [x], k, maximizing) == Best(vs, k, maximizing)
    decreases k
  {
    if k > 0 {
      BestPrefix(vs, x, k - 1, maximizing);
    }
  }

  /** Searching one more child, with the window left by the ones before it
      while that window is open, extends the explored results. */
  lemma ExploredSnoc(alpha: int, beta: int, children: seq<int>, explored: seq<int>, eval: int, maximizing: bool)
    requires Explored(alpha, beta, children, explored, maximizing) && |explored| < |children|
    requires Open(alpha, beta, Best(explored, |explored|, maximizing), maximizing)
    requires ZT.FailSoft(WindowLow(alpha, Best(explored, |explored|, maximizing), maximizing),
                         WindowHigh(beta, Best(explored, |explored|, maximizing), maximizing),
                         eval, children[|explored|])
    ensures Explored(alpha, beta, children, explored + [eval], maximizing)
  {
    var e := explored + [eval];
    forall j | 0 <= j < |e|
      ensures ExploredAt(alpha, beta, children, e, j, maximizing)
    {
      BestPrefix(explored, eval, j, maximizing);
      if j < |explored| {
        assert ExploredAt(alpha, beta, children, explored, j, maximizing);
        assert e[j] == explored[j];
      }
    }
  }

  /** The index of the first best result moves to a new result exactly when
      it strictly improves on the best so far. */
  lemma FirstBestSnoc(explored: seq<int>, k: int, eval: int, maximizing: bool)
    requires FirstBest(explored, k, maximizing)
    ensures var best := Best(explored, |explored|, maximizing);
      var improves := if maximizing then eval > best else eval < best;
      FirstBest(explored + [eval], if improves then |explored| else k, maximizing)
  {
    var e := explored + [eval];
    var best := Best(explored, |explored|, maximizing);
    BestPrefix(explored, eval, |explored|, maximizing);
    BestBounds(explored, |explored|, maximizing);
    BestMonotone(explored, 0, |explored|, maximizing);
    assert Best(e, |e|, maximizing) == if maximizing then Max(best, eval) else Min(best, eval);
    if 0 <= k {
      assert e[k] == explored[k];
      forall j | 0 <= j < k
        ensures e[j] == explored[j]
      {
      }
    }
  }

  /** Values all strictly on the losing side of `x`, with the initial bound
      too, keep their best strictly there as well. */
  lemma {:induction false} BestStrict(vs: seq<int>, k: nat, x: int, maximizing: bool)
    requires k <= |vs|
    requires maximizing ==> MinInt < x && forall j :: 0 <= j < k ==> vs[j] < x
    requires !maximizing ==> x < MaxInt && forall j :: 0 <= j < k ==> x < vs[j]
    ensures maximizing ==> Best(vs, k, true) < x
    ensures !maximizing ==> x < Best(vs, k, false)
    decreases k
  {
    if k > 0 {
      BestStrict(vs, k - 1, x, maximizing);
    }
  }

  /** The first best child searched inside the window is exact: its result
      beat the window's bound on the improving side and stayed inside the
      window on the other. */
  lemma FirstBestExact(alpha: int, beta: int, children: seq<int>, explored: seq<int>, k: int, maximizing: bool)
    requires Explored(alpha, beta, children, explored, maximizing) && FirstBest(explored, k, maximizing)
    requires InRange(alpha) && InRange(beta)
    requires 0 <= k && alpha < explored[k] < beta
    ensures children[k] == explored[k]
  {
    BestBounds(explored, |explored|, maximizing);
    forall j | 0 <= j < k
      ensures if maximizing then explored[j] < explored[k] else explored[k] < explored[j]
    {
    }
    BestStrict(explored, k, explored[k], maximizing);
    assert ExploredAt(alpha, beta, children, explored, k, maximizing);
  }

  /** The results of the children explored so far are, taken together,
      fail-soft against the best of those children's values; once the loop
      has stopped, either after every child or because the window closed,
      against the best of all of them. */
  lemma {:induction false} ExploredFailSoft(alpha: int, beta: int, children: seq<int>, explored: seq<int>, k: nat, maximizing: bool)
    requires Explored(alpha, beta, children, explored, maximizing) && k <= |explored|
    ensures ZT.FailSoft(alpha, beta, Best(explored, k, maximizing), Best(children, k, maximizing))
    decreases k
  {
    if k > 0 {
      ExploredFailSoft(alpha, beta, children, explored, k - 1, maximizing);
      assert ExploredAt(alpha, beta, children, explored, k - 1, maximizing);
      if maximizing {
        MaxStep(alpha, beta, Best(explored, k - 1, true), Best(children, k - 1, true), explored[k - 1], children[k - 1]);
      } else {
        MinStep(alpha, beta, Best(explored, k - 1, false), Best(children, k - 1, false), explored[k - 1], children[k - 1]);
      }
    }
  }

  /** When the loop has stopped the explored results are fail-soft against
      the best of all the children. */
  lemma LoopFailSoft(alpha: int, beta: int, children: seq<int>, explored: seq<int>, maximizing: bool)
    requires alpha < beta && Explored(alpha, beta, children, explored, maximizing)
    requires |explored| < |children| ==> !Open(alpha, beta, Best(explored, |explored|, maximizing), maximizing)
    ensures ZT.FailSoft(alpha, beta, Best(explored, |explored|, maximizing), Best(children, |children|, maximizing))
  {
    var k := |explored|;
    ExploredFailSoft(alpha, beta, children, explored, k, maximizing);
    BestMonotone(children, k, |children|, maximizing);
    if k < |children| {
      if maximizing {
        MaxCutoff(alpha, beta, Best(explored, k, true), Best(children, k, true), Best(children, |children|, true));
      } else {
        MinCutoff(alpha, beta, Best(explored, k, false), Best(children, k, false), Best(children, |children|, false));
      }
    }
  }

  // ---------------------------------------------------------------------
  // The search

  /** minimax. The table probe comes first, but every entry holds the zero
      move, which is never a valid move, so a hit is never returned; then
      the terminal test; then the children (SearchMoves), and the result is
      stored as a bound for the side. */
  method Search(b: Board, table: ZT.Table, keys: Keys, depth: int, alpha: int, beta: int, maximizing: bool)
    returns (evaluation: int, bestMove: Move)
    requires b.Valid() && ValidKeys(keys) && ZT.NoMoves(table.entries)
    requires 0 <= depth && InRange(alpha) && InRange(beta) && alpha < beta
    modifies b, table
    ensures b.Valid() && b.Snapshot() == old(b.Snapshot())
    ensures ZT.NoMoves(table.entries)
    ensures InRange(evaluation)
    ensures ZT.FailSoft(alpha, beta, evaluation, Value(old(b.Snapshot()), depth, maximizing))
    ensures bestMove == ZeroMove || bestMove in PossibleMoves(old(b.Snapshot()), old(b.activePlayer))
    ensures depth == 0 || Winner(old(b.Snapshot())) != None ==>
      evaluation == Evaluate(old(b.Snapshot()), depth) && bestMove == ZeroMove
    ensures bestMove == ZeroMove ==>
      depth == 0 || Winner(old(b.Snapshot())) != None || evaluation == Initial(maximizing)
    ensures bestMove != ZeroMove ==>
      && 0 < depth && Winner(old(b.Snapshot())) == None && ValidMove(old(b.Snapshot()), bestMove)
      && (alpha < evaluation < beta ==> Value(Apply(old(b.Snapshot()), bestMove), depth - 1, !maximizing) == evaluation)
    decreases depth, 2
  {
    var hash := ZT.Hash(keys, b);
    var probe := table.LookupHash(hash, depth, alpha, beta);
    if probe.found {
      ZT.LookupNeverMoves(table, hash, depth, alpha, beta);
      ZeroMoveInvalid(b.Snapshot());
      var valid := b.IsValidMove(probe.bestMove);
      if valid {
        assert false;
      }
    }

    var winner := b.CheckWin();
    if depth == 0 || winner != None {
      evaluation := Evaluate(b.Snapshot(), depth);
      table.StoreHash(hash, evaluation, depth, ZT.Exact);
      return evaluation, ZeroMove;
    }

    ghost var s := b.Snapshot();
    var moves := b.GetPossibleMoves(b.activePlayer);
    PossibleMovesValid(s);
    ghost var children := Children(s, moves, depth, maximizing);
    ChildrenValues(s, moves, depth, maximizing);
    ghost var explored, bestIndex;
    evaluation, bestMove, explored, bestIndex := SearchMoves(b, table, keys, s, moves, children, depth, alpha, beta, maximizing);
    ValueUnfold(s, depth, maximizing);
    ZeroMoveInvalid(s);
    if maximizing {
      table.StoreHash(hash, evaluation, depth, ZT.LowerBound);
    } else {
      table.StoreHash(hash, evaluation, depth, ZT.UpperBound);
    }
  }

  /** `children` are the values of the positions `moves` lead to, searched
      one level shallower for the other side. The fact is keyed on the
      child position, so that it is only used where that position is
      mentioned. */
  predicate ChildValues(s: State, moves: seq<Move>, children: seq<int>, depth: int, maximizing: bool)
    requires WellFormed(s) && depth > 0
    requires forall m :: m in moves ==> ValidMove(s, m)
  {
    && |children| == |moves|
    && forall j {:trigger Apply(s, moves[j])} :: 0 <= j < |moves| ==>
         children[j] == Value(Apply(s, moves[j]), depth - 1, !maximizing)
  }

  /** Children computes the child values. */
  lemma ChildrenValues(s: State, moves: seq<Move>, depth: nat, maximizing: bool)
    requires WellFormed(s) && depth > 0
    requires forall m :: m in moves ==> ValidMove(s, m)
    ensures ChildValues(s, moves, Children(s, moves, depth, maximizing), depth, maximizing)
  {
  }

  /** Value of a position that is not terminal: the best child value. */
  lemma ValueUnfold(s: State, depth: nat, maximizing: bool)
    requires WellFormed(s) && depth > 0 && Winner(s) == None
    ensures forall m :: m in PossibleMoves(s, s.active) ==> ValidMove(s, m)
    ensures Value(s, depth, maximizing) ==
      Best(Children(s, PossibleMoves(s, s.active), depth, maximizing), |PossibleMoves(s, s.active)|, maximizing)
  {
    PossibleMovesValid(s);
  }

  /** The loop over the children of minimax: each is made, searched with
      the current window and undone, the window narrowing after each child
      and the loop stopping once it is empty. The result is fail-soft
      against the best of all the children's values. */
  method SearchMoves(b: Board, table: ZT.Table, keys: Keys, ghost s: State, moves: seq<Move>,
                     ghost children: seq<int>, depth: int, alpha: int, beta: int, maximizing: bool)
    returns (evaluation: int, bestMove: Move, ghost explored: seq<int>, ghost bestIndex: int)
    requires b.Valid() && b.Snapshot() == s && ValidKeys(keys) && ZT.NoMoves(table.entries)
    requires forall m :: m in moves ==> ValidMove(s, m)
    requires 0 < depth && InRange(alpha) && InRange(beta) && alpha < beta
    requires ChildValues(s, moves, children, depth, maximizing)
    modifies b, table
    ensures b.Valid() && b.Snapshot() == s
    ensures ZT.NoMoves(table.entries)
    ensures InRange(evaluation)
    ensures ZT.FailSoft(alpha, beta, evaluation, Best(children, |moves|, maximizing))
    ensures Explored(alpha, beta, children, explored, maximizing)
    ensures evaluation == Best(explored, |explored|, maximizing)
    ensures |explored| < |moves| ==> !Open(alpha, beta, evaluation, maximizing)
    ensures FirstBest(explored, bestIndex, maximizing)
    ensures bestIndex == -1 ==> bestMove == ZeroMove
    ensures 0 <= bestIndex ==> bestMove == moves[bestIndex]
    ensures 0 <= bestIndex && alpha < evaluation < beta ==> children[bestIndex] == evaluation
    decreases depth, 1
  {
    var maxEval, minEval := MinInt, MaxInt;
    var a, bt := alpha, beta;
    bestMove := ZeroMove;
    explored, bestIndex := [], -1;
    var i := 0;
    while i < |moves|
      invariant 0 <= i <= |moves| && |explored| == i
      invariant b.Valid() && b.Snapshot() == s
      invariant ZT.NoMoves(table.entries)
      invariant InRange(maxEval) && InRange(minEval)
      invariant maximizing ==> maxEval == Best(explored, i, true)
      invariant !maximizing ==> minEval == Best(explored, i, false)
      invariant maximizing ==> bt == beta && a == Max(alpha, maxEval)
      invariant !maximizing ==> a == alpha && bt == Min(beta, minEval)
      invariant a < bt
      invariant Explored(alpha, beta, children, explored, maximizing)
      invariant FirstBest(explored, bestIndex, maximizing)
      invariant bestIndex == -1 ==> bestMove == ZeroMove
      invariant 0 <= bestIndex ==> bestMove == moves[bestIndex]
      decreases |moves| - i
    {
      var move := moves[i];
      var eval := SearchChild(b, table, keys, s, moves, children, i, depth, a, bt, maximizing);
      ExploredSnoc(alpha, beta, children, explored, eval, maximizing);
      FirstBestSnoc(explored, bestIndex, eval, maximizing);
      BestPrefix(explored, eval, i, maximizing);

      if maximizing {
        if eval > maxEval {
          maxEval := eval;
          bestMove := move;
          bestIndex := i;
        }
        a := Max(a, maxEval);
      } else {
        if eval < minEval {
          minEval := eval;
          bestMove := move;
          bestIndex := i;
        }
        bt := Min(bt, minEval);
      }
      explored := explored + [eval];
      i := i + 1;

      if bt <= a {
        break;
      }
    }
    evaluation := if maximizing then maxEval else minEval;
    LoopFailSoft(alpha, beta, children, explored, maximizing);
    if 0 <= bestIndex && alpha < evaluation < beta {
      FirstBestExact(alpha, beta, children, explored, bestIndex, maximizing);
    }
  }

  /** One child: make the move, search it one level shallower for the other
      side, undo the move. */
  method SearchChild(b: Board, table: ZT.Table, keys: Keys, ghost s: State, moves: seq<Move>,
                     ghost children: seq<int>, i: nat, depth: int, alpha: int, beta: int, maximizing: bool)
    returns (evaluation: int)
    requires b.Valid() && b.Snapshot() == s && ValidKeys(keys) && ZT.NoMoves(table.entries)
    requires forall m :: m in moves ==> ValidMove(s, m)
    requires i < |moves| && 0 < depth && InRange(alpha) && InRange(beta) && alpha < beta
    requires ChildValues(s, moves, children, depth, maximizing)
    modifies b, table
    ensures b.Valid() && b.Snapshot() == s
    ensures ZT.NoMoves(table.entries)
    ensures InRange(evaluation)
    ensures ZT.FailSoft(alpha, beta, evaluation, children[i])
    decreases depth, 0
  {
    var move := moves[i];
    assert children[i] == Value(Apply(s, moves[i]), depth - 1, !maximizing);
    UndoInvertsApply(s, move);
    b.MustMakeMove(move);
    evaluation := SearchValue(b, table, keys, depth - 1, alpha, beta, !maximizing);
    b.MustUndoMove(move);
  }

  /** The recursive call as the loop over the children uses it: only the
      fail-soft value of minimax, the board restored. */
  method SearchValue(b: Board, table: ZT.Table, keys: Keys, depth: int, alpha: int, beta: int, maximizing: bool)
    returns (evaluation: int)
    requires b.Valid() && ValidKeys(keys) && ZT.NoMoves(table.entries)
    requires 0 <= depth && InRange(alpha) && InRange(beta) && alpha < beta
    modifies b, table
    ensures b.Valid() && b.Snapshot() == old(b.Snapshot())
    ensures ZT.NoMoves(table.entries)
    ensures InRange(evaluation)
    ensures ZT.FailSoft(alpha, beta, evaluation, Value(old(b.Snapshot()), depth, maximizing))
    decreases depth, 3
  {
    var bestMove;
    evaluation, bestMove := Search(b, table, keys, depth, alpha, beta, maximizing);
  }

  /** SolvePosition: search the full window for the side to move and map
      the value to a winner. */
  method SolvePosition(b: Board, table: ZT.Table, keys: Keys, maxDepth: int) returns (winner: Player)
    requires b.Valid() && ValidKeys(keys) && ZT.NoMoves(table.entries) && 0 <= maxDepth
    modifies b, table
    ensures b.Valid() && b.Snapshot() == old(b.Snapshot())
    ensures winner == Verdict(Value(old(b.Snapshot()), maxDepth, IsMaximizingPlayer(old(b.activePlayer))))
  {
    var evaluation, _ := Search(b, table, keys, maxDepth, MinInt, MaxInt, IsMaximizingPlayer(b.activePlayer));
    FullWindowExact(evaluation, Value(b.Snapshot(), maxDepth, IsMaximizingPlayer(b.activePlayer)));
    winner := Verdict(evaluation);
  }

  /** GetBestMove: the move the full-window search settles on. It is the
      zero move only on a finished or depth-0 position, or when every child
      is worth the initial bound; otherwise it is a legal move whose child
      reaches the position's value, provided that value is not itself a
      bound (by ChildBeyondValue no other child does better). */
  method GetBestMove(b: Board, table: ZT.Table, keys: Keys, maxDepth: int) returns (bestMove: Move)
    requires b.Valid() && ValidKeys(keys) && ZT.NoMoves(table.entries) && 0 <= maxDepth
    modifies b, table
    ensures b.Valid() && b.Snapshot() == old(b.Snapshot())
    ensures bestMove == ZeroMove || bestMove in PossibleMoves(old(b.Snapshot()), old(b.activePlayer))
    ensures var s, max := old(b.Snapshot()), IsMaximizingPlayer(old(b.activePlayer));
      bestMove == ZeroMove ==> maxDepth == 0 || Winner(s) != None || Value(s, maxDepth, max) == Initial(max)
    ensures var s, max := old(b.Snapshot()), IsMaximizingPlayer(old(b.activePlayer));
      bestMove != ZeroMove ==>
        && 0 < maxDepth && Winner(s) == None && ValidMove(s, bestMove)
        && (MinInt < Value(s, maxDepth, max) < MaxInt ==> Value(Apply(s, bestMove), maxDepth - 1, !max) == Value(s, maxDepth, max))
  {
    var evaluation, move := Search(b, table, keys, maxDepth, MinInt, MaxInt, IsMaximizingPlayer(b.activePlayer));
    FullWindowExact(evaluation, Value(b.Snapshot(), maxDepth, IsMaximizingPlayer(b.activePlayer)));
    bestMove := move;
  }

  /** No child is worth more than the position to the side that moves:
      the maximizer's value is at least, the minimizer's at most, every
      child value. */
  lemma ChildBeyondValue(s: State, depth: nat, maximizing: bool, m: Move)
    requires WellFormed(s) && depth > 0 && Winner(s) == None && m in PossibleMoves(s, s.active)
    ensures ValidMove(s, m)
    ensures maximizing ==> Value(Apply(s, m), depth - 1, !maximizing) <= Value(s, depth, maximizing)
    ensures !maximizing ==> Value(s, depth, maximizing) <= Value(Apply(s, m), depth - 1, !maximizing)
  {
    PossibleMovesValid(s);
    var moves := PossibleMoves(s, s.active);
    var children := Children(s, moves, depth, maximizing);
    var i :| 0 <= i < |moves| && moves[i] == m;
    ChildrenValues(s, moves, depth, maximizing);
    ValueUnfold(s, depth, maximizing);
    BestBounds(children, |moves|, maximizing);
    assert children[i] == Value(Apply(s, moves[i]), depth - 1, !maximizing);
  }
}
