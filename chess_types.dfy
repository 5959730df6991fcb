/** The values the script exchanges with the chess library: squares, pieces and moves. */
module ChessTypes {

  datatype Option<T> = None | Some(value: T)

  /** A square index as the chess library numbers them: file + 8 * rank, a1 = 0, h8 = 63. */
  type Square = s: int | 0 <= s < 64

  /** The side to move (`board.turn`). */
  datatype Side = White | Black

  datatype PieceType = Pawn | Knight | Bishop | Rook | Queen | King

  datatype Piece = Piece(pieceType: PieceType, color: Side)

  /** A move as the chess library represents it; a move built from two clicks has no promotion. */
  datatype Move = Move(fromSquare: Square, toSquare: Square, promotion: Option<PieceType>)
}
