/** Concrete positions on an empty 8 x 8 board, checked against the generators. */
module Scenarios {
  import opened Chessboard
  import MoveSpec
  import Pieces

  /** An 8 x 8 board with nothing on it; off-board squares are invalid. */
  function EmptyBoard(gameMode: int): (b: Board)
    ensures WellFormed(b)
    ensures forall x: int, y: int :: OnBoard(x, y) ==> HasEmptyBlock(b, x, y)
  {
    Board((x: int, y: int) => if OnBoard(x, y) then Vacant else OffBoard, gameMode)
  }

  /** On the empty board a ray runs over every on-board step and stops at the
      first off-board one (or after step 8). */
  lemma {:induction false} EmptyRayLength(c: Color, x: int, y: int, d: MoveSpec.Dir, pkd: bool, i: int, n: int)
    requires 1 <= i <= n + 1 && n <= 8
    requires forall j :: i <= j <= n ==> OnBoard(MoveSpec.Step(x, y, d, j).0, MoveSpec.Step(x, y, d, j).1)
    requires n < 8 ==> !OnBoard(MoveSpec.Step(x, y, d, n + 1).0, MoveSpec.Step(x, y, d, n + 1).1)
    ensures |MoveSpec.Ray(EmptyBoard(0), c, x, y, d, pkd, i)| == n - i + 1
    decreases n - i
  {
    if i <= n {
      EmptyRayLength(c, x, y, d, pkd, i + 1, n);
    }
  }

  /** A knight in the centre reaches all eight of its squares. */
  lemma KnightInCentre()
    ensures MoveSpec.Knight(EmptyBoard(0), White, 4, 4, false) ==
      [(5, 2), (6, 3), (3, 6), (2, 5), (5, 6), (6, 5), (3, 2), (2, 3)]
  {
  }

  /** A rook in the corner has seven squares along each open line: 14 in all. */
  lemma RookInCorner()
    ensures |MoveSpec.Rook(EmptyBoard(0), White, 0, 0, false)| == 14
  {
  }

  /** A king in the corner has three squares. */
  lemma KingInCorner()
    ensures MoveSpec.King(EmptyBoard(0), White, 0, 0, false) == [(0, 1), (1, 0), (1, 1)]
  {
    var b := EmptyBoard(0);
    var v := MoveSpec.KingVertical;
    assert MoveSpec.Steps(b, White, 0, 0, MoveSpec.KingHorizontal, false) == [(0, 1)];
    assert MoveSpec.Steps(b, White, 0, 0, v[5..], false) == [];
    assert MoveSpec.Steps(b, White, 0, 0, v[4..], false) == [];
    assert MoveSpec.Steps(b, White, 0, 0, v[3..], false) == [];
    assert MoveSpec.Steps(b, White, 0, 0, v[2..], false) == [];
    assert MoveSpec.Steps(b, White, 0, 0, v[1..], false) == [(1, 1)];
  }

  /** An unmoved pawn with both squares ahead empty may advance one or two;
      once it has moved, only one. */
  method PawnDoubleAdvanceOnlyFirst() returns (first: seq<Move>, later: seq<Move>)
    ensures (2, 4) in first && (3, 4) in first
    ensures (3, 4) in later && (4, 4) !in later
  {
    var history := new Pieces.History();
    var pawn := new Pieces.Piece(Pawn, White, 1, 4, history);
    var b := EmptyBoard(0);
    first := pawn.PawnMoves(b, false);
    pawn.SetPosition(2, 4, false);
    later := pawn.PawnMoves(b, false);
  }
}
