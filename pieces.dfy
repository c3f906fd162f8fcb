/** Chess pieces: their mutable position and "moved" flag, the undo stacks they
    share, and the candidate-move generator of each kind.

    The three undo stacks live in one `History` object that every piece holds a
    reference to, so a push by one piece and a pop by another meet on the same
    stack, as with class-level lists. The generators read the piece's
    coordinates, colour and flag and build their list step by step; each is
    proved to produce exactly the list its reference function in `MoveSpec`
    describes. */
module Pieces {
  import opened Chessboard
  import MoveSpec

  /** Undo stacks shared by all pieces: captured pieces, former "moved" flags,
      and former coordinates (x pushed before y). */
  class History {
    var eatenPieces: seq<Piece>
    var moveHistory: seq<bool>
    var positionHistory: seq<int>

    constructor ()
      ensures eatenPieces == [] && moveHistory == [] && positionHistory == []
    {
      eatenPieces := [];
      moveHistory := [];
      positionHistory := [];
    }
  }

  class Piece {
    const kind: Kind
    const color: Color
    const history: History
    var x: int
    var y: int
    var moved: bool

    /** A new piece has not moved. */
    constructor (kind: Kind, color: Color, x: int, y: int, history: History)
      ensures this.kind == kind && this.color == color && this.history == history
      ensures this.x == x && this.y == y && !moved
    {
      this.kind := kind;
      this.color := color;
      this.history := history;
      this.x := x;
      this.y := y;
      this.moved := false;
    }

    // -------------------------------------------------------------------------
    // Undo history

    /** Pops the most recently captured piece. */
    method GetLastEaten() returns (piece: Piece)
      requires history.eatenPieces != []
      modifies history`eatenPieces
      ensures piece == old(history.eatenPieces[|history.eatenPieces| - 1])
      ensures history.eatenPieces == old(history.eatenPieces[..|history.eatenPieces| - 1])
    {
      piece := history.eatenPieces[|history.eatenPieces| - 1];
      history.eatenPieces := history.eatenPieces[..|history.eatenPieces| - 1];
    }

    /** Pushes a captured piece. */
    method SetLastEaten(piece: Piece)
      modifies history`eatenPieces
      ensures history.eatenPieces == old(history.eatenPieces) + [piece]
    {
      history.eatenPieces := history.eatenPieces + [piece];
    }

    /** Moves the piece and marks it as moved; with `keepHistory` the former
        x, y go onto the position stack and the former flag onto the move
        stack, otherwise the stacks are left alone. */
    method SetPosition(nx: int, ny: int, keepHistory: bool)
      modifies this`x, this`y, this`moved, history`positionHistory, history`moveHistory
      ensures x == nx && y == ny && moved
      ensures history.positionHistory ==
        old(history.positionHistory) + (if keepHistory then [old(x), old(y)] else [])
      ensures history.moveHistory ==
        old(history.moveHistory) + (if keepHistory then [old(moved)] else [])
    {
      if keepHistory {
        history.positionHistory := history.positionHistory + [x];
        history.positionHistory := history.positionHistory + [y];
        history.moveHistory := history.moveHistory + [moved];
      }
      x := nx;
      y := ny;
      moved := true;
    }

    /** Pops y, then x, off the position stack into the coordinates. */
    method SetOldPosition()
      requires |history.positionHistory| >= 2
      modifies this`x, this`y, history`positionHistory
      ensures x == old(history.positionHistory[|history.positionHistory| - 2])
      ensures y == old(history.positionHistory[|history.positionHistory| - 1])
      ensures history.positionHistory == old(history.positionHistory[..|history.positionHistory| - 2])
    {
      var n := |history.positionHistory|;
      var positionY := history.positionHistory[n - 1];
      history.positionHistory := history.positionHistory[..n - 1];
      var positionX := history.positionHistory[n - 2];
      history.positionHistory := history.positionHistory[..n - 2];
      y := positionY;
      x := positionX;
    }

    /** Pops the "moved" flag off the move stack. */
    method SetMovedPrevious()
      requires |history.moveHistory| >= 1
      modifies this`moved, history`moveHistory
      ensures moved == old(history.moveHistory[|history.moveHistory| - 1])
      ensures history.moveHistory == old(history.moveHistory[..|history.moveHistory| - 1])
    {
      var n := |history.moveHistory|;
      moved := history.moveHistory[n - 1];
      history.moveHistory := history.moveHistory[..n - 1];
    }

    // -------------------------------------------------------------------------
    // Candidate moves

    method BishopMoves(b: Board, preventKingDeath: bool) returns (moves: seq<Move>)
      ensures moves == MoveSpec.Bishop(b, color, x, y, preventKingDeath)
    {
      moves := SlideAlong(b, color, x, y, MoveSpec.BishopDirs, preventKingDeath);
    }

    method RookVerticalMoves(b: Board, preventKingDeath: bool) returns (moves: seq<Move>)
      ensures moves == MoveSpec.Rays(b, color, x, y, MoveSpec.RookVerticalDirs, preventKingDeath)
    {
      moves := SlideAlong(b, color, x, y, MoveSpec.RookVerticalDirs, preventKingDeath);
    }

    method RookHorizontalMoves(b: Board, preventKingDeath: bool) returns (moves: seq<Move>)
      ensures moves == MoveSpec.Rays(b, color, x, y, MoveSpec.RookHorizontalDirs, preventKingDeath)
    {
      moves := SlideAlong(b, color, x, y, MoveSpec.RookHorizontalDirs, preventKingDeath);
    }

    method RookMoves(b: Board, preventKingDeath: bool) returns (moves: seq<Move>)
      ensures moves == MoveSpec.Rook(b, color, x, y, preventKingDeath)
    {
      var vertical := RookVerticalMoves(b, preventKingDeath);
      var horizontal := RookHorizontalMoves(b, preventKingDeath);
      moves := vertical + horizontal;
    }

    /** The rook's candidates followed by the bishop's, from this square and in
        this colour. */
    method QueenMoves(b: Board, preventKingDeath: bool) returns (moves: seq<Move>)
      ensures moves == MoveSpec.Queen(b, color, x, y, preventKingDeath)
    {
      var rook := RookMoves(b, preventKingDeath);
      var bishop := BishopMoves(b, preventKingDeath);
      moves := rook + bishop;
    }

    method KingHorizontalMoves(b: Board, preventKingDeath: bool) returns (moves: seq<Move>)
      ensures moves == MoveSpec.Steps(b, color, x, y, MoveSpec.KingHorizontal, preventKingDeath)
    {
      moves := [];
      var ops := [1, -1];
      for k := 0 to 2
        invariant moves == MoveSpec.Steps(b, color, x, y, MoveSpec.KingHorizontal[..k], preventKingDeath)
      {
        var ny := y + ops[k];
        MoveSpec.StepsSnoc(b, color, x, y, MoveSpec.KingHorizontal[..k], (0, ops[k]), preventKingDeath);
        assert MoveSpec.KingHorizontal[..k + 1] == MoveSpec.KingHorizontal[..k] + [(0, ops[k])];
        if MoveSpec.Admits(b, color, (x, ny), preventKingDeath) {
          moves := moves + [(x, ny)];
        }
      }
      assert MoveSpec.KingHorizontal[..2] == MoveSpec.KingHorizontal;
    }

    method KingVerticalMoves(b: Board, preventKingDeath: bool) returns (moves: seq<Move>)
      ensures moves == MoveSpec.Steps(b, color, x, y, MoveSpec.KingVertical, preventKingDeath)
    {
      moves := [];
      ghost var tried: seq<(int, int)> := [];
      var ops := [1, -1];
      for k := 0 to 2
        invariant tried == MoveSpec.KingVertical[..3 * k]
        invariant moves == MoveSpec.Steps(b, color, x, y, tried, preventKingDeath)
      {
        var s := ops[k];
        var nx := x + s;
        MoveSpec.StepsSnoc(b, color, x, y, tried, (s, 0), preventKingDeath);
        tried := tried + [(s, 0)];
        if MoveSpec.Admits(b, color, (nx, y), preventKingDeath) {
          moves := moves + [(nx, y)];
        }
        assert moves == MoveSpec.Steps(b, color, x, y, tried, preventKingDeath);
        MoveSpec.StepsSnoc(b, color, x, y, tried, (s, 1), preventKingDeath);
        tried := tried + [(s, 1)];
        if MoveSpec.Admits(b, color, (nx, y + 1), preventKingDeath) {
          moves := moves + [(nx, y + 1)];
        }
        assert moves == MoveSpec.Steps(b, color, x, y, tried, preventKingDeath);
        MoveSpec.StepsSnoc(b, color, x, y, tried, (s, -1), preventKingDeath);
        tried := tried + [(s, -1)];
        if MoveSpec.Admits(b, color, (nx, y - 1), preventKingDeath) {
          moves := moves + [(nx, y - 1)];
        }
        assert moves == MoveSpec.Steps(b, color, x, y, tried, preventKingDeath);
        assert tried == MoveSpec.KingVertical[..3 * (k + 1)] by {
          assert MoveSpec.KingVertical[..3 * (k + 1)] == MoveSpec.KingVertical[..3 * k] + [(s, 0), (s, 1), (s, -1)];
        }
      }
      assert tried == MoveSpec.KingVertical;
    }

    method KingMoves(b: Board, preventKingDeath: bool) returns (moves: seq<Move>)
      ensures moves == MoveSpec.King(b, color, x, y, preventKingDeath)
    {
      var horizontal := KingHorizontalMoves(b, preventKingDeath);
      var vertical := KingVerticalMoves(b, preventKingDeath);
      moves := horizontal + vertical;
    }

    method KnightMoves(b: Board, preventKingDeath: bool) returns (moves: seq<Move>)
      ensures moves == MoveSpec.Knight(b, color, x, y, preventKingDeath)
    {
      moves := [];
      var combinations := MoveSpec.KnightOffsets;
      for k := 0 to |combinations|
        invariant moves == MoveSpec.Steps(b, color, x, y, combinations[..k], preventKingDeath)
      {
        var nx := x + combinations[k].0;
        var ny := y + combinations[k].1;
        MoveSpec.StepsSnoc(b, color, x, y, combinations[..k], combinations[k], preventKingDeath);
        assert combinations[..k + 1] == combinations[..k] + [combinations[k]];
        if MoveSpec.Admits(b, color, (nx, ny), preventKingDeath) {
          moves := moves + [(nx, ny)];
        }
      }
      assert combinations[..|combinations|] == combinations;
    }

    method PawnMoves(b: Board, preventKingDeath: bool) returns (moves: seq<Move>)
      ensures MoveSpec.PawnCandidates(b, color, x, y, moved, preventKingDeath, moves)
    {
      moves := [];
      var direction;
      if (b.gameMode == 0 && color == White) || (b.gameMode == 1 && color == Black) {
        direction := 1;
      } else {
        direction := -1;
      }
      var fx := x + direction;
      if HasEmptyBlock(b, fx, y) && !preventKingDeath {
        moves := moves + [(fx, y)];
        if !moved && HasEmptyBlock(b, fx + direction, y) {
          moves := moves + [(fx + direction, y)];
        }
      }
      if IsValidMove(b, fx, y - 1) {
        if HasOpponent(b, color, fx, y - 1) ||
           ((HasEmptyBlock(b, fx, y - 1) || HasFriend(b, color, fx, y - 1)) && preventKingDeath) {
          moves := moves + [(fx, y - 1)];
        }
      }
      if IsValidMove(b, x + direction, y + 1) {
        if HasOpponent(b, color, fx, y + 1) ||
           ((HasEmptyBlock(b, fx, y + 1) || HasFriend(b, color, fx, y + 1)) && preventKingDeath) {
          moves := moves + [(fx, y + 1)];
        }
      }
    }

    /** The candidates of this piece's kind. Every candidate is a valid square
        (on the 8 x 8 grid when the board is well formed) and, unless probing
        king-danger squares, none holds a friend. */
    method GetMoves(b: Board, preventKingDeath: bool) returns (moves: seq<Move>)
      ensures forall m :: m in moves ==> IsValidMove(b, m.0, m.1)
      ensures WellFormed(b) ==> forall m :: m in moves ==> OnBoard(m.0, m.1)
      ensures !preventKingDeath ==> forall m :: m in moves ==> !HasFriend(b, color, m.0, m.1)
      ensures kind == Bishop ==> moves == MoveSpec.Bishop(b, color, x, y, preventKingDeath)
      ensures kind == Rook ==> moves == MoveSpec.Rook(b, color, x, y, preventKingDeath)
      ensures kind == Queen ==> moves == MoveSpec.Queen(b, color, x, y, preventKingDeath)
      ensures kind == King ==> moves == MoveSpec.King(b, color, x, y, preventKingDeath)
      ensures kind == Knight ==> moves == MoveSpec.Knight(b, color, x, y, preventKingDeath)
      ensures kind == Pawn ==> MoveSpec.PawnCandidates(b, color, x, y, moved, preventKingDeath, moves)
    {
      match kind
      case Bishop =>
        moves := BishopMoves(b, preventKingDeath);
        forall m | m in moves ensures MoveSpec.Admits(b, color, m, preventKingDeath) {
          MoveSpec.BishopReach(b, color, x, y, preventKingDeath, m);
        }
      case Rook =>
        moves := RookMoves(b, preventKingDeath);
        forall m | m in moves ensures MoveSpec.Admits(b, color, m, preventKingDeath) {
          MoveSpec.RookReach(b, color, x, y, preventKingDeath, m);
        }
      case Queen =>
        moves := QueenMoves(b, preventKingDeath);
        forall m | m in moves ensures MoveSpec.Admits(b, color, m, preventKingDeath) {
          MoveSpec.QueenReach(b, color, x, y, preventKingDeath, m);
        }
      case King =>
        moves := KingMoves(b, preventKingDeath);
        forall m | m in moves ensures MoveSpec.Admits(b, color, m, preventKingDeath) {
          MoveSpec.KingReach(b, color, x, y, preventKingDeath, m);
        }
      case Knight =>
        moves := KnightMoves(b, preventKingDeath);
        forall m | m in moves ensures MoveSpec.Admits(b, color, m, preventKingDeath) {
          MoveSpec.KnightReach(b, color, x, y, preventKingDeath, m);
        }
      case Pawn =>
        moves := PawnMoves(b, preventKingDeath);
    }
  }

  /** The rays of `dirs` from (x, y), one direction after the other. */
  method SlideAlong(b: Board, c: Color, x: int, y: int, dirs: seq<MoveSpec.Dir>, pkd: bool) returns (moves: seq<Move>)
    ensures moves == MoveSpec.Rays(b, c, x, y, dirs, pkd)
  {
    moves := [];
    for k := 0 to |dirs|
      invariant moves == MoveSpec.Rays(b, c, x, y, dirs[..k], pkd)
    {
      var ray := Slide(b, c, x, y, dirs[k], pkd);
      assert MoveSpec.Rays(b, c, x, y, [dirs[k]], pkd) == ray + MoveSpec.Rays(b, c, x, y, [], pkd);
      MoveSpec.RaysAppend(b, c, x, y, dirs[..k], [dirs[k]], pkd);
      assert dirs[..k + 1] == dirs[..k] + [dirs[k]];
      moves := moves + ray;
    }
    assert dirs[..|dirs|] == dirs;
  }

  /** One ray from (x, y) in direction `d`, walked for up to 8 steps: an empty
      square is taken and the walk goes on; an opponent, or a friend while
      probing, is taken and ends the walk; an invalid square or a friend
      otherwise ends it. */
  method Slide(b: Board, c: Color, x: int, y: int, d: MoveSpec.Dir, pkd: bool) returns (ray: seq<Move>)
    ensures ray == MoveSpec.Ray(b, c, x, y, d, pkd, 1)
  {
    ray := [];
    var i := 1;
    while i < 9
      invariant 1 <= i <= 9
      invariant ray + MoveSpec.Ray(b, c, x, y, d, pkd, i) == MoveSpec.Ray(b, c, x, y, d, pkd, 1)
    {
      var sq := MoveSpec.Step(x, y, d, i);
      if !IsValidMove(b, sq.0, sq.1) || (HasFriend(b, c, sq.0, sq.1) && !pkd) {
        assert MoveSpec.Ray(b, c, x, y, d, pkd, i) == [];
        break;
      }
      if HasEmptyBlock(b, sq.0, sq.1) {
        assert MoveSpec.Ray(b, c, x, y, d, pkd, i) == [sq] + MoveSpec.Ray(b, c, x, y, d, pkd, i + 1);
        ray := ray + [sq];
      }
      if HasOpponent(b, c, sq.0, sq.1) || (HasFriend(b, c, sq.0, sq.1) && pkd) {
        assert MoveSpec.Ray(b, c, x, y, d, pkd, i) == [sq];
        ray := ray + [sq];
        break;
      }
      i := i + 1;
    }
  }

  /** One simulate-then-rollback cycle of a piece's own history: moving with
      history kept, then popping the position and the flag, restores the
      piece and leaves the shared stacks as they were. */
  method TrialAndRestore(p: Piece, nx: int, ny: int)
    modifies p, p.history
    ensures p.x == old(p.x) && p.y == old(p.y) && p.moved == old(p.moved)
    ensures p.history.positionHistory == old(p.history.positionHistory)
    ensures p.history.moveHistory == old(p.history.moveHistory)
    ensures p.history.eatenPieces == old(p.history.eatenPieces)
  {
    p.SetPosition(nx, ny, true);
    p.SetOldPosition();
    p.SetMovedPrevious();
  }

  /** A capture inside a trial: the mover's state and the captured piece are
      pushed, and popping in reverse order gives back both. */
  method CaptureAndRestore(p: Piece, captured: Piece) returns (back: Piece)
    modifies p, p.history
    ensures back == captured
    ensures p.x == old(p.x) && p.y == old(p.y) && p.moved == old(p.moved)
    ensures p.history.positionHistory == old(p.history.positionHistory)
    ensures p.history.moveHistory == old(p.history.moveHistory)
    ensures p.history.eatenPieces == old(p.history.eatenPieces)
  {
    p.SetPosition(captured.x, captured.y, true);
    p.SetLastEaten(captured);
    back := p.GetLastEaten();
    p.SetOldPosition();
    p.SetMovedPrevious();
  }

  /** Two pieces sharing the stacks: properly nested trials restore both. */
  method NestedTrials(a: Piece, b: Piece, ax: int, ay: int, bx: int, bY: int)
    requires a != b && a.history == b.history
    modifies a, b, a.history
    ensures a.x == old(a.x) && a.y == old(a.y) && a.moved == old(a.moved)
    ensures b.x == old(b.x) && b.y == old(b.y) && b.moved == old(b.moved)
    ensures a.history.positionHistory == old(a.history.positionHistory)
    ensures a.history.moveHistory == old(a.history.moveHistory)
  {
    a.SetPosition(ax, ay, true);
    b.SetPosition(bx, bY, true);
    b.SetOldPosition();
    b.SetMovedPrevious();
    a.SetOldPosition();
    a.SetMovedPrevious();
  }

  /** Two pieces sharing the stacks: when the first pops before the second, it
      receives the second piece's former square, not its own. */
  method CrossedTrials(a: Piece, b: Piece, ax: int, ay: int, bx: int, bY: int)
    requires a != b && a.history == b.history
    modifies a, b, a.history
    ensures a.x == old(b.x) && a.y == old(b.y)
  {
    a.SetPosition(ax, ay, true);
    b.SetPosition(bx, bY, true);
    a.SetOldPosition();
  }
}
