/** The board as the move generators see it.

    The board itself is not part of this model: it is an occupancy oracle. A
    snapshot says what every integer coordinate holds; the four queries the
    generators use (`is_valid_move`, `has_empty_block`, `has_friend`,
    `has_opponent`) are read off it. Because one square holds one thing, the
    three occupancy queries exclude each other, and an off-board square answers
    none of them -- the contract the King and Knight generators rely on, since
    they never ask `is_valid_move` themselves. */
module Chessboard {

  datatype Color = White | Black

  /** The closed set of piece variants. */
  datatype Kind = Bishop | Rook | Queen | King | Pawn | Knight

  /** What one square holds, whoever asks. */
  datatype Square = OffBoard | Vacant | Occupied(owner: Color)

  /** A board snapshot and the orientation setting that decides which way pawns advance. */
  datatype Board = Board(at: (int, int) -> Square, gameMode: int)

  /** A destination square (x, y). */
  type Move = (int, int)

  predicate IsValidMove(b: Board, x: int, y: int) {
    b.at(x, y) != OffBoard
  }

  predicate HasEmptyBlock(b: Board, x: int, y: int) {
    b.at(x, y) == Vacant
  }

  /** The square holds a piece of the asking piece's colour `c`. */
  predicate HasFriend(b: Board, c: Color, x: int, y: int) {
    b.at(x, y) == Occupied(c)
  }

  /** The square holds a piece of the other colour. */
  predicate HasOpponent(b: Board, c: Color, x: int, y: int) {
    b.at(x, y).Occupied? && b.at(x, y).owner != c
  }

  predicate OnBoard(x: int, y: int) {
    0 <= x < 8 && 0 <= y < 8
  }

  /** The board answers `is_valid_move` exactly for the 8 x 8 squares. */
  ghost predicate WellFormed(b: Board) {
    forall x: int, y: int :: IsValidMove(b, x, y) <==> OnBoard(x, y)
  }
}
