/** The transposition table as an object of its own
    (ai/transposition_table.go): a map from 64-bit position hashes to
    evaluated entries, consulted against an alpha-beta window. Unlike the
    package-level table it records the best move. */
module Transposition {
  import opened Moves

  /** The score a miss reports, the package's NoWin. */
  const NoWin: int := 0

  datatype BoundType = ExactBound | LowerBound | UpperBound

  datatype TTEntry = TTEntry(evaluation: int, depth: int, bestMove: Move, boundType: BoundType)

  /** The three results of LookupHash. */
  datatype Probe = Probe(found: bool, evaluation: int, bestMove: Move)

  const Miss: Probe := Probe(false, NoWin, ZeroMove)

  /** An entry deep enough helps pruning when it is exact, a lower bound at
      or above beta, or an upper bound at or below alpha. */
  predicate Usable(e: TTEntry, alpha: int, beta: int) {
    match e.boundType
    case ExactBound => true
    case LowerBound => e.evaluation >= beta
    case UpperBound => e.evaluation <= alpha
  }

  /** What LookupHash returns for a map of entries. */
  function Lookup(entries: map<nat, TTEntry>, hash: nat, depth: int, alpha: int, beta: int): (r: Probe)
    ensures hash !in entries || entries[hash].depth < depth ==> r == Miss
    ensures r.found ==> hash in entries && r == Probe(true, entries[hash].evaluation, entries[hash].bestMove)
    ensures !r.found ==> r == Miss
  {
    if hash !in entries || entries[hash].depth < depth then Miss
    else if Usable(entries[hash], alpha, beta) then
      Probe(true, entries[hash].evaluation, entries[hash].bestMove)
    else Miss
  }

  /** What StoreHash leaves in the map: the new entry if the key is new or
      the new depth strictly greater, otherwise the map unchanged. */
  function Store(entries: map<nat, TTEntry>, hash: nat, evaluation: int, depth: int,
                 boundType: BoundType, bestMove: Move): (r: map<nat, TTEntry>)
    ensures r.Keys == entries.Keys + {hash}
    ensures forall h :: h in entries && h != hash ==> r[h] == entries[h]
    ensures hash in entries ==> r[hash].depth == if depth > entries[hash].depth then depth else entries[hash].depth
    ensures hash !in entries || depth > entries[hash].depth ==> r[hash] == TTEntry(evaluation, depth, bestMove, boundType)
    ensures hash in entries && depth <= entries[hash].depth ==> r[hash] == entries[hash]
  {
    if hash !in entries || depth > entries[hash].depth then
      entries[hash := TTEntry(evaluation, depth, bestMove, boundType)]
    else entries
  }

  class TranspositionTable {
    var entries: map<nat, TTEntry>

    /** NewTranspositionTable: an empty table. */
    constructor ()
      ensures entries == map[]
    {
      entries := map[];
    }

    /** LookupHash reads the table and changes nothing. */
    method LookupHash(hash: nat, depth: int, alpha: int, beta: int)
      returns (found: bool, evaluation: int, bestMove: Move)
      ensures Probe(found, evaluation, bestMove) == Lookup(entries, hash, depth, alpha, beta)
    {
      if hash !in entries || entries[hash].depth < depth {
        return false, NoWin, ZeroMove;
      }
      var entry := entries[hash];
      if entry.boundType == ExactBound {
        return true, entry.evaluation, entry.bestMove;
      } else if entry.boundType == LowerBound && entry.evaluation >= beta {
        return true, entry.evaluation, entry.bestMove;
      } else if entry.boundType == UpperBound && entry.evaluation <= alpha {
        return true, entry.evaluation, entry.bestMove;
      }
      return false, NoWin, ZeroMove;
    }

    /** StoreHash keeps the deeper entry. */
    method StoreHash(hash: nat, evaluation: int, depth: int, boundType: BoundType, bestMove: Move)
      modifies this
      ensures entries == Store(old(entries), hash, evaluation, depth, boundType, bestMove)
    {
      if hash !in entries || depth > entries[hash].depth {
        entries := entries[hash := TTEntry(evaluation, depth, bestMove, boundType)];
      }
    }
  }

  /** Every lookup in a new table misses. */
  lemma EmptyTableMisses(hash: nat, depth: int, alpha: int, beta: int)
    ensures Lookup(map[], hash, depth, alpha, beta) == Miss
  {
  }

  /** At sufficient depth: an exact entry hits, a lower bound hits iff it
      reaches beta, an upper bound hits iff it is at most alpha. */
  lemma LookupRules(entries: map<nat, TTEntry>, hash: nat, depth: int, alpha: int, beta: int)
    requires hash in entries && entries[hash].depth >= depth
    ensures var e := entries[hash];
      var r := Lookup(entries, hash, depth, alpha, beta);
      && (e.boundType == ExactBound ==> r.found)
      && (e.boundType == LowerBound ==> (r.found <==> e.evaluation >= beta))
      && (e.boundType == UpperBound ==> (r.found <==> e.evaluation <= alpha))
  {
  }

  /** A store at equal or smaller depth over an existing entry is a no-op. */
  lemma StoreKeepsDeeper(entries: map<nat, TTEntry>, hash: nat, evaluation: int, depth: int,
                         boundType: BoundType, bestMove: Move)
    requires hash in entries && depth <= entries[hash].depth
    ensures Store(entries, hash, evaluation, depth, boundType, bestMove) == entries
  {
  }

  /** After an exact entry is stored into an empty slot, a lookup at the
      same or a smaller depth returns it, whatever the window. */
  lemma ExactStoreHits(entries: map<nat, TTEntry>, hash: nat, evaluation: int, depth: int,
                       bestMove: Move, depth': int, alpha: int, beta: int)
    requires hash !in entries && depth' <= depth
    ensures Lookup(Store(entries, hash, evaluation, depth, ExactBound, bestMove), hash, depth', alpha, beta)
            == Probe(true, evaluation, bestMove)
  {
  }

  /** A store is invisible to lookups of every other key. */
  lemma StoreIsolated(entries: map<nat, TTEntry>, hash: nat, evaluation: int, depth: int,
                      boundType: BoundType, bestMove: Move, other: nat, depth': int, alpha: int, beta: int)
    requires other != hash
    ensures Lookup(Store(entries, hash, evaluation, depth, boundType, bestMove), other, depth', alpha, beta)
            == Lookup(entries, other, depth', alpha, beta)
  {
  }
}
