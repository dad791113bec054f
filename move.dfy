/** Moves (game/move.go). A move either places `piece` from the stock
    (`from` is nil) or relocates the top piece of `from`. */
module Moves {
  import opened Wrappers
  import opened Pieces

  datatype Position = Position(row: int, col: int)

  datatype Move = Move(piece: Piece, from: Option<Position>, to: Position) {
    /** A relocation is tagged by the zero piece. */
    predicate MovesExistingPiece() {
      piece == ZeroPiece
    }

    predicate PlacesNewPiece() {
      !MovesExistingPiece()
    }
  }

  /** The zero value `Move{}`. Its `To` is a position value here, so it is the
      origin rather than a nil pointer. */
  const ZeroMove: Move := Move(ZeroPiece, Nil, Position(0, 0))

  /** A placement of a new piece of `size` owned by `player` onto `to`. */
  function NewMove(player: Player, to: Position, size: Size): (m: Move)
    requires player != None
    ensures m.from == Nil && m.to == to
    ensures m.piece.owner == player && m.piece.size == size
    ensures m.PlacesNewPiece()
  {
    Move(Piece(player, size), Nil, to)
  }

  /** A relocation from `from` to `to`; the piece is left as the zero piece. */
  function NewMoveExisting(from: Position, to: Position): (m: Move)
    ensures m.from == Some(from) && m.to == to
    ensures m.MovesExistingPiece()
  {
    Move(ZeroPiece, Some(from), to)
  }

  /** Exactly one of the two tags holds for every move. */
  lemma TagsExclusive(m: Move)
    ensures m.MovesExistingPiece() != m.PlacesNewPiece()
    ensures m.MovesExistingPiece() <==> m.piece.owner == None && m.piece.size == Small
  {
  }
}
