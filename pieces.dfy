/** Players, piece sizes and pieces (game/pieces.go). */
module Pieces {

  /** `None` is the zero value: "no owner" and "no winner". */
  datatype Player = None | Player1 | Player2

  /** Sizes are ordered by their rank Small(0) < Medium(1) < Large(2);
      gobbling compares ranks. */
  datatype Size = Small | Medium | Large {
    function Rank(): (r: nat)
      ensures r < 3
    {
      match this
      case Small => 0
      case Medium => 1
      case Large => 2
    }
  }

  datatype Piece = Piece(owner: Player, size: Size) {
    /** Index of the piece among the six owned pieces (two owners, three
        sizes); used to select a Zobrist key. */
    function ID(): (id: nat)
      requires owner != None
      ensures id < 6
      ensures id / 3 == (if owner == Player1 then 0 else 1) && id % 3 == size.Rank()
    {
      (if owner == Player1 then 0 else 3) + size.Rank()
    }
  }

  /** The zero value `Piece{}`: owner None, size Small. */
  const ZeroPiece: Piece := Piece(None, Small)

  function SizeOfRank(k: nat): (s: Size)
    requires k < 3
    ensures s.Rank() == k
  {
    if k == 0 then Small else if k == 1 then Medium else Large
  }

  /** The other player; `None` has no opponent. */
  function Opponent(p: Player): (q: Player)
    ensures p == Player1 <==> q == Player2
    ensures p == Player2 <==> q == Player1
    ensures p == None <==> q == None
  {
    match p
    case Player1 => Player2
    case Player2 => Player1
    case None => None
  }

  lemma OpponentInvolution(p: Player)
    ensures Opponent(Opponent(p)) == p
    ensures p != None ==> Opponent(p) != p
  {
  }

  /** Rank is injective, so the gobbling comparison is a strict total order
      on sizes. */
  lemma SizeOrder(a: Size, b: Size)
    ensures Small.Rank() < Medium.Rank() < Large.Rank()
    ensures a.Rank() == b.Rank() <==> a == b
    ensures a.Rank() < b.Rank() || a.Rank() == b.Rank() || b.Rank() < a.Rank()
  {
  }

  /** Two owned pieces share an ID only if they are the same piece. */
  lemma IDInjective(a: Piece, b: Piece)
    requires a.owner != None && b.owner != None
    ensures a.ID() == b.ID() <==> a == b
  {
  }
}
