/** The Zobrist keys of the game package (game/zobrist_hash.go). The code
    fills both tables from a random generator at start-up; here they are a
    value handed to every operation, and every property holds for any
    tables of the right shape. */
module ZobristHash {
  import opened Bitwise
  import opened Pieces
  import opened Moves

  /** `table[row][col][id]`: one 64-bit key per square and piece ID;
      `player[slot]`: one key per player slot (None, Player1, Player2). */
  datatype Keys = Keys(table: seq<seq<seq<nat>>>, player: seq<nat>)

  /** The shape of the two arrays, every key a 64-bit word. Only the slots
      of Player1 and Player2 are filled at start-up, so the slot of None
      keeps the zero value. */
  predicate ValidKeys(keys: Keys) {
    && |keys.table| == 3
    && (forall r :: 0 <= r < 3 ==> |keys.table[r]| == 3)
    && (forall r, c :: 0 <= r < 3 && 0 <= c < 3 ==> |keys.table[r][c]| == 6)
    && (forall r, c, i :: 0 <= r < 3 && 0 <= c < 3 && 0 <= i < 6 ==> IsWord(keys.table[r][c][i]))
    && |keys.player| == 3
    && keys.player[0] == 0
    && (forall i :: 0 <= i < 3 ==> IsWord(keys.player[i]))
  }

  /** The integer value of a Player, which the code uses as an array index. */
  function Slot(p: Player): (i: nat)
    ensures i < 3
    ensures i == 0 <==> p == None
    ensures p == Player1 <==> i == 1
  {
    match p
    case None => 0
    case Player1 => 1
    case Player2 => 2
  }

  /** GetZobristValue: the key of `piece` on `pos`; the first three IDs
      belong to Player1, the last three to Player2, by increasing size. */
  function GetZobristValue(keys: Keys, pos: Position, piece: Piece): (v: nat)
    requires ValidKeys(keys)
    requires 0 <= pos.row < 3 && 0 <= pos.col < 3 && piece.owner != None
    ensures IsWord(v)
    ensures v == keys.table[pos.row][pos.col][(if piece.owner == Player1 then 0 else 3) + piece.size.Rank()]
  {
    keys.table[pos.row][pos.col][piece.ID()]
  }

  /** GetPlayerZobristValue: the side-to-move key; None contributes 0. */
  function GetPlayerZobristValue(keys: Keys, p: Player): (v: nat)
    requires ValidKeys(keys)
    ensures IsWord(v)
    ensures p == None ==> v == 0
    ensures p != None ==> v == keys.player[if p == Player1 then 1 else 2]
  {
    keys.player[Slot(p)]
  }
}
