/** Reference definitions of the candidate squares each piece kind generates,
    and what they mean geometrically.

    A sliding piece walks along each of its directions for at most 8 steps; a
    stepping piece tries each entry of a fixed offset table. The functions here
    say which squares come out, in which order; the lemmas say which squares
    those are in terms of the board alone: distance, direction, occupancy of
    the target and of every square in between. */
module MoveSpec {
  import opened Chessboard

  /** A direction as a pair of signs in {-1, 0, 1}: add, subtract, or keep the coordinate. */
  type Dir = (int, int)

  predicate Unit(d: Dir) {
    -1 <= d.0 <= 1 && -1 <= d.1 <= 1 && d != (0, 0)
  }

  /** `a` moved by `i` according to sign `s` (operator.add, operator.sub, or unchanged). */
  function Shift(a: int, s: int, i: int): int {
    if s > 0 then a + i else if s < 0 then a - i else a
  }

  /** The square `i` steps from (x, y) in direction `d`. */
  function Step(x: int, y: int, d: Dir, i: int): Move {
    (Shift(x, d.0, i), Shift(y, d.1, i))
  }

  function Abs(n: int): nat {
    if n < 0 then -n else n
  }

  function Sign(n: int): int {
    if n > 0 then 1 else if n < 0 then -1 else 0
  }

  /** Chebyshev distance from (x, y) to `m`. */
  function Dist(x: int, y: int, m: Move): nat {
    if Abs(m.0 - x) < Abs(m.1 - y) then Abs(m.1 - y) else Abs(m.0 - x)
  }

  /** The direction that leads from (x, y) towards `m`. */
  function DirOf(x: int, y: int, m: Move): Dir {
    (Sign(m.0 - x), Sign(m.1 - y))
  }

  predicate Diagonal(x: int, y: int, m: Move) {
    Abs(m.0 - x) == Abs(m.1 - y)
  }

  predicate Orthogonal(x: int, y: int, m: Move) {
    m.0 == x || m.1 == y
  }

  /** The inclusion rule of every generator: the square is empty, or holds an
      opponent, or holds a friend while king-danger squares are being probed. */
  predicate Admits(b: Board, c: Color, m: Move, pkd: bool) {
    HasEmptyBlock(b, m.0, m.1) || HasOpponent(b, c, m.0, m.1) || (HasFriend(b, c, m.0, m.1) && pkd)
  }

  /** Every square strictly between (x, y) and `m`, on the line towards `m`, is empty. */
  ghost predicate Clear(b: Board, x: int, y: int, m: Move) {
    forall j :: 1 <= j < Dist(x, y, m) ==>
      HasEmptyBlock(b, Step(x, y, DirOf(x, y, m), j).0, Step(x, y, DirOf(x, y, m), j).1)
  }

  /** What a sliding piece on (x, y) can reach on some line: at most 8 squares
      away, admitted, and nothing in the way. */
  ghost predicate SlideTarget(b: Board, c: Color, x: int, y: int, m: Move, pkd: bool) {
    1 <= Dist(x, y, m) <= 8 && Admits(b, c, m, pkd) && Clear(b, x, y, m)
  }

  // ---------------------------------------------------------------------------
  // Sliding pieces

  /** The squares one ray yields from step `i` on: empty squares are taken and
      the walk goes on; the first admitted occupied square is taken and ends it;
      an invalid square or a friend (when not probing) ends it untaken. */
  function Ray(b: Board, c: Color, x: int, y: int, d: Dir, pkd: bool, i: int): seq<Move>
    decreases 9 - i
  {
    if i > 8 then []
    else
      var sq := Step(x, y, d, i);
      if !IsValidMove(b, sq.0, sq.1) || (HasFriend(b, c, sq.0, sq.1) && !pkd) then []
      else if HasEmptyBlock(b, sq.0, sq.1) then [sq] + Ray(b, c, x, y, d, pkd, i + 1)
      else [sq]
  }

  /** The rays of `dirs`, one after the other. */
  function Rays(b: Board, c: Color, x: int, y: int, dirs: seq<Dir>, pkd: bool): seq<Move> {
    if dirs == [] then []
    else Ray(b, c, x, y, dirs[0], pkd, 1) + Rays(b, c, x, y, dirs[1..], pkd)
  }

  /** (add, add), (add, sub), (sub, add), (sub, sub). */
  const BishopDirs: seq<Dir> := [(1, 1), (1, -1), (-1, 1), (-1, -1)]
  /** The rook's first pass changes x, the second y. */
  const RookVerticalDirs: seq<Dir> := [(1, 0), (-1, 0)]
  const RookHorizontalDirs: seq<Dir> := [(0, 1), (0, -1)]

  function Bishop(b: Board, c: Color, x: int, y: int, pkd: bool): seq<Move> {
    Rays(b, c, x, y, BishopDirs, pkd)
  }

  function Rook(b: Board, c: Color, x: int, y: int, pkd: bool): seq<Move> {
    Rays(b, c, x, y, RookVerticalDirs, pkd) + Rays(b, c, x, y, RookHorizontalDirs, pkd)
  }

  function Queen(b: Board, c: Color, x: int, y: int, pkd: bool): seq<Move> {
    Rook(b, c, x, y, pkd) + Bishop(b, c, x, y, pkd)
  }

  // ---------------------------------------------------------------------------
  // Stepping pieces

  /** The admitted squares among (x, y) + each offset, in table order. */
  function Steps(b: Board, c: Color, x: int, y: int, offsets: seq<(int, int)>, pkd: bool): seq<Move> {
    if offsets == [] then []
    else
      var m := (x + offsets[0].0, y + offsets[0].1);
      (if Admits(b, c, m, pkd) then [m] else []) + Steps(b, c, x, y, offsets[1..], pkd)
  }

  /** The king's horizontal pass: y + 1, then y - 1. */
  const KingHorizontal: seq<(int, int)> := [(0, 1), (0, -1)]
  /** The king's vertical pass: for x + 1, then x - 1, the squares at y, y + 1, y - 1. */
  const KingVertical: seq<(int, int)> := [(1, 0), (1, 1), (1, -1), (-1, 0), (-1, 1), (-1, -1)]
  /** The product of the sign pairs (add, sub), (sub, add), (add, add), (sub, sub)
      with the magnitudes (1, 2), (2, 1), in the order the product enumerates them. */
  const KnightOffsets: seq<(int, int)> :=
    [(1, -2), (2, -1), (-1, 2), (-2, 1), (1, 2), (2, 1), (-1, -2), (-2, -1)]

  function King(b: Board, c: Color, x: int, y: int, pkd: bool): seq<Move> {
    Steps(b, c, x, y, KingHorizontal, pkd) + Steps(b, c, x, y, KingVertical, pkd)
  }

  function Knight(b: Board, c: Color, x: int, y: int, pkd: bool): seq<Move> {
    Steps(b, c, x, y, KnightOffsets, pkd)
  }

  predicate KnightJump(dx: int, dy: int) {
    (Abs(dx) == 1 && Abs(dy) == 2) || (Abs(dx) == 2 && Abs(dy) == 1)
  }

  // ---------------------------------------------------------------------------
  // Pawns

  /** +1 when game mode 0 has white moving up the x axis or mode 1 has black doing so, else -1. */
  function Forward(gameMode: int, c: Color): int {
    if (gameMode == 0 && c == White) || (gameMode == 1 && c == Black) then 1 else -1
  }

  /** A diagonal square a pawn takes: valid, and an opponent, or (when probing)
      empty or a friend. */
  predicate PawnTakes(b: Board, c: Color, x: int, y: int, pkd: bool) {
    IsValidMove(b, x, y) &&
    (HasOpponent(b, c, x, y) || ((HasEmptyBlock(b, x, y) || HasFriend(b, c, x, y)) && pkd))
  }

  /** The candidate list of a pawn on (x, y): the single advance, the double
      advance, the two diagonals -- each present exactly when its rule allows,
      nothing else, nothing twice. */
  ghost predicate PawnCandidates(b: Board, c: Color, x: int, y: int, moved: bool, pkd: bool, moves: seq<Move>) {
    var dir := Forward(b.gameMode, c);
    var fx := x + dir;
    && ((fx, y) in moves <==> !pkd && HasEmptyBlock(b, fx, y))
    && ((fx + dir, y) in moves <==>
          !pkd && HasEmptyBlock(b, fx, y) && !moved && HasEmptyBlock(b, fx + dir, y))
    && ((fx, y - 1) in moves <==> PawnTakes(b, c, fx, y - 1, pkd))
    && ((fx, y + 1) in moves <==> PawnTakes(b, c, fx, y + 1, pkd))
    && (forall m :: m in moves ==> m == (fx, y) || m == (fx + dir, y) || m == (fx, y - 1) || m == (fx, y + 1))
    && (forall i, j :: 0 <= i < j < |moves| ==> moves[i] != moves[j])
  }

  // ---------------------------------------------------------------------------
  // Lemmas: geometry of a step

  lemma StepGeometry(x: int, y: int, d: Dir, n: int)
    requires Unit(d) && n >= 1
    ensures Dist(x, y, Step(x, y, d, n)) == n
    ensures DirOf(x, y, Step(x, y, d, n)) == d
  {
  }

  lemma LineStep(x: int, y: int, m: Move)
    requires Dist(x, y, m) >= 1
    requires Diagonal(x, y, m) || Orthogonal(x, y, m)
    ensures Unit(DirOf(x, y, m))
    ensures m == Step(x, y, DirOf(x, y, m), Dist(x, y, m))
  {
  }

  // ---------------------------------------------------------------------------
  // Lemmas: one ray

  /** The ray from step `i` is the contiguous run of steps i, i+1, ...; every
      square on it is admitted; every square but the last is empty; and it
      stops only at step 8, after an occupied square, or before a square that
      is not admitted. */
  lemma {:induction false} RayShape(b: Board, c: Color, x: int, y: int, d: Dir, pkd: bool, i: int)
    requires 1 <= i <= 9
    ensures |Ray(b, c, x, y, d, pkd, i)| <= 9 - i
    ensures forall k :: 0 <= k < |Ray(b, c, x, y, d, pkd, i)| ==>
      Ray(b, c, x, y, d, pkd, i)[k] == Step(x, y, d, i + k) &&
      Admits(b, c, Ray(b, c, x, y, d, pkd, i)[k], pkd)
    ensures forall k :: 0 <= k < |Ray(b, c, x, y, d, pkd, i)| - 1 ==>
      HasEmptyBlock(b, Ray(b, c, x, y, d, pkd, i)[k].0, Ray(b, c, x, y, d, pkd, i)[k].1)
    ensures var r := Ray(b, c, x, y, d, pkd, i);
      (r == [] || HasEmptyBlock(b, r[|r| - 1].0, r[|r| - 1].1)) ==>
        i + |r| > 8 || !Admits(b, c, Step(x, y, d, i + |r|), pkd)
    decreases 9 - i
  {
    if i <= 8 {
      var sq := Step(x, y, d, i);
      if !IsValidMove(b, sq.0, sq.1) || (HasFriend(b, c, sq.0, sq.1) && !pkd) {
      } else if HasEmptyBlock(b, sq.0, sq.1) {
        RayShape(b, c, x, y, d, pkd, i + 1);
        var rest := Ray(b, c, x, y, d, pkd, i + 1);
        var r := Ray(b, c, x, y, d, pkd, i);
        assert r == [sq] + rest;
        forall k | 0 <= k < |r|
          ensures r[k] == Step(x, y, d, i + k) && Admits(b, c, r[k], pkd)
        {
          if k > 0 {
            assert r[k] == rest[k - 1];
          }
        }
        forall k | 0 <= k < |r| - 1
          ensures HasEmptyBlock(b, r[k].0, r[k].1)
        {
          if k > 0 {
            assert r[k] == rest[k - 1];
          }
        }
        if rest != [] {
          assert r[|r| - 1] == rest[|rest| - 1];
        }
      }
    }
  }

  /** A step is on the ray from `i` when it is admitted, within 8 steps, and
      every step before it (from `i`) is empty. */
  lemma {:induction false} RayIncludes(b: Board, c: Color, x: int, y: int, d: Dir, pkd: bool, i: int, j: int)
    requires 1 <= i <= j <= 8
    requires Admits(b, c, Step(x, y, d, j), pkd)
    requires forall k :: i <= k < j ==> HasEmptyBlock(b, Step(x, y, d, k).0, Step(x, y, d, k).1)
    ensures Step(x, y, d, j) in Ray(b, c, x, y, d, pkd, i)
    decreases j - i
  {
    if i < j {
      RayIncludes(b, c, x, y, d, pkd, i + 1, j);
    }
  }

  /** A square is on the ray in direction `d` exactly when it lies on that
      line and a sliding piece can reach it. */
  lemma RayReach(b: Board, c: Color, x: int, y: int, d: Dir, pkd: bool, m: Move)
    requires Unit(d)
    ensures m in Ray(b, c, x, y, d, pkd, 1) <==>
      m == Step(x, y, d, Dist(x, y, m)) && SlideTarget(b, c, x, y, m, pkd)
  {
    var r := Ray(b, c, x, y, d, pkd, 1);
    RayShape(b, c, x, y, d, pkd, 1);
    if m in r {
      var k :| 0 <= k < |r| && r[k] == m;
      StepGeometry(x, y, d, 1 + k);
      forall j | 1 <= j < Dist(x, y, m)
        ensures HasEmptyBlock(b, Step(x, y, DirOf(x, y, m), j).0, Step(x, y, DirOf(x, y, m), j).1)
      {
        assert r[j - 1] == Step(x, y, d, j);
      }
    }
    if m == Step(x, y, d, Dist(x, y, m)) && SlideTarget(b, c, x, y, m, pkd) {
      var n := Dist(x, y, m);
      StepGeometry(x, y, d, n);
      RayIncludes(b, c, x, y, d, pkd, 1, n);
    }
  }

  // ---------------------------------------------------------------------------
  // Lemmas: several rays

  lemma {:induction false} RaysAppend(b: Board, c: Color, x: int, y: int, ds: seq<Dir>, es: seq<Dir>, pkd: bool)
    ensures Rays(b, c, x, y, ds + es, pkd) == Rays(b, c, x, y, ds, pkd) + Rays(b, c, x, y, es, pkd)
  {
    if ds != [] {
      assert (ds + es)[0] == ds[0] && (ds + es)[1..] == ds[1..] + es;
      RaysAppend(b, c, x, y, ds[1..], es, pkd);
      var head := Ray(b, c, x, y, ds[0], pkd, 1);
      assert Rays(b, c, x, y, ds + es, pkd) == head + (Rays(b, c, x, y, ds[1..], pkd) + Rays(b, c, x, y, es, pkd));
    } else {
      assert ds + es == es;
    }
  }

  /** A square is among the rays of `dirs` exactly when its direction is one of
      them and it is on that direction's ray. */
  lemma {:induction false} RaysMember(b: Board, c: Color, x: int, y: int, dirs: seq<Dir>, pkd: bool, m: Move)
    requires forall k :: 0 <= k < |dirs| ==> Unit(dirs[k])
    ensures m in Rays(b, c, x, y, dirs, pkd) <==>
      DirOf(x, y, m) in dirs && m in Ray(b, c, x, y, DirOf(x, y, m), pkd, 1)
  {
    if dirs != [] {
      RaysMember(b, c, x, y, dirs[1..], pkd, m);
      var d := dirs[0];
      assert Unit(d);
      RayReach(b, c, x, y, d, pkd, m);
      if m in Ray(b, c, x, y, d, pkd, 1) {
        StepGeometry(x, y, d, Dist(x, y, m));
      }
      assert dirs == [d] + dirs[1..];
    }
  }

  // ---------------------------------------------------------------------------
  // Lemmas: the sliding pieces

  /** Bishop: exactly the diagonal squares 1..8 away that are admitted and
      reachable without jumping. */
  lemma BishopReach(b: Board, c: Color, x: int, y: int, pkd: bool, m: Move)
    ensures m in Bishop(b, c, x, y, pkd) <==> Diagonal(x, y, m) && SlideTarget(b, c, x, y, m, pkd)
  {
    RaysMember(b, c, x, y, BishopDirs, pkd, m);
    var d := DirOf(x, y, m);
    if d in BishopDirs {
      RayReach(b, c, x, y, d, pkd, m);
    }
    if Diagonal(x, y, m) && SlideTarget(b, c, x, y, m, pkd) {
      LineStep(x, y, m);
    }
  }

  /** Rook: exactly the squares 1..8 away on the piece's row or column that are
      admitted and reachable without jumping. */
  lemma RookReach(b: Board, c: Color, x: int, y: int, pkd: bool, m: Move)
    ensures m in Rook(b, c, x, y, pkd) <==> Orthogonal(x, y, m) && SlideTarget(b, c, x, y, m, pkd)
  {
    RaysMember(b, c, x, y, RookVerticalDirs, pkd, m);
    RaysMember(b, c, x, y, RookHorizontalDirs, pkd, m);
    var d := DirOf(x, y, m);
    if d in RookVerticalDirs || d in RookHorizontalDirs {
      RayReach(b, c, x, y, d, pkd, m);
    }
    if Orthogonal(x, y, m) && SlideTarget(b, c, x, y, m, pkd) {
      LineStep(x, y, m);
    }
  }

  /** Queen: the union of the two. */
  lemma QueenReach(b: Board, c: Color, x: int, y: int, pkd: bool, m: Move)
    ensures m in Queen(b, c, x, y, pkd) <==>
      (Diagonal(x, y, m) || Orthogonal(x, y, m)) && SlideTarget(b, c, x, y, m, pkd)
  {
    BishopReach(b, c, x, y, pkd, m);
    RookReach(b, c, x, y, pkd, m);
  }

  /** No jumping: every square between a slider and one of its ray squares is empty. */
  lemma RayNoJump(b: Board, c: Color, x: int, y: int, d: Dir, pkd: bool, j: int, k: int)
    requires Unit(d) && 1 <= k < j
    requires Step(x, y, d, j) in Ray(b, c, x, y, d, pkd, 1)
    ensures HasEmptyBlock(b, Step(x, y, d, k).0, Step(x, y, d, k).1)
  {
    RayReach(b, c, x, y, d, pkd, Step(x, y, d, j));
    StepGeometry(x, y, d, j);
  }

  // ---------------------------------------------------------------------------
  // Lemmas: the stepping pieces

  lemma {:induction false} StepsAppend(b: Board, c: Color, x: int, y: int, os: seq<(int, int)>, ps: seq<(int, int)>, pkd: bool)
    ensures Steps(b, c, x, y, os + ps, pkd) == Steps(b, c, x, y, os, pkd) + Steps(b, c, x, y, ps, pkd)
  {
    if os != [] {
      assert (os + ps)[0] == os[0] && (os + ps)[1..] == os[1..] + ps;
      StepsAppend(b, c, x, y, os[1..], ps, pkd);
    } else {
      assert os + ps == ps;
    }
  }

  /** Trying one more offset appends its square when, and only when, it is admitted. */
  lemma StepsSnoc(b: Board, c: Color, x: int, y: int, os: seq<(int, int)>, o: (int, int), pkd: bool)
    ensures Steps(b, c, x, y, os + [o], pkd) ==
      Steps(b, c, x, y, os, pkd) + (if Admits(b, c, (x + o.0, y + o.1), pkd) then [(x + o.0, y + o.1)] else [])
  {
    StepsAppend(b, c, x, y, os, [o], pkd);
    assert Steps(b, c, x, y, [o], pkd) ==
      (if Admits(b, c, (x + o.0, y + o.1), pkd) then [(x + o.0, y + o.1)] else []) + Steps(b, c, x, y, [], pkd);
  }

  /** A square is a stepping candidate exactly when its offset is in the table
      and it is admitted; there are at most as many candidates as offsets. */
  lemma {:induction false} StepsMember(b: Board, c: Color, x: int, y: int, offsets: seq<(int, int)>, pkd: bool, m: Move)
    ensures |Steps(b, c, x, y, offsets, pkd)| <= |offsets|
    ensures m in Steps(b, c, x, y, offsets, pkd) <==> (m.0 - x, m.1 - y) in offsets && Admits(b, c, m, pkd)
  {
    if offsets != [] {
      StepsMember(b, c, x, y, offsets[1..], pkd, m);
      assert offsets == [offsets[0]] + offsets[1..];
    }
  }

  /** King: at most 8 candidates; exactly the admitted squares at distance 1. */
  lemma KingReach(b: Board, c: Color, x: int, y: int, pkd: bool, m: Move)
    ensures |King(b, c, x, y, pkd)| <= 8
    ensures m in King(b, c, x, y, pkd) <==> Dist(x, y, m) == 1 && Admits(b, c, m, pkd)
  {
    StepsMember(b, c, x, y, KingHorizontal, pkd, m);
    StepsMember(b, c, x, y, KingVertical, pkd, m);
  }

  /** Knight: at most 8 candidates; exactly the admitted squares a knight's jump away. */
  lemma KnightReach(b: Board, c: Color, x: int, y: int, pkd: bool, m: Move)
    ensures |Knight(b, c, x, y, pkd)| <= 8
    ensures m in Knight(b, c, x, y, pkd) <==> KnightJump(m.0 - x, m.1 - y) && Admits(b, c, m, pkd)
  {
    StepsMember(b, c, x, y, KnightOffsets, pkd, m);
  }

  // ---------------------------------------------------------------------------
  // Lemmas: what every candidate satisfies

  /** An admitted square is valid, and on a well-formed board on the 8 x 8
      grid; unless probing, it does not hold a friend. */
  lemma AdmittedSound(b: Board, c: Color, m: Move, pkd: bool)
    requires Admits(b, c, m, pkd)
    ensures IsValidMove(b, m.0, m.1)
    ensures !pkd ==> !HasFriend(b, c, m.0, m.1)
    ensures WellFormed(b) ==> OnBoard(m.0, m.1)
  {
  }
}
