# Chess piece move generation, legality filter and undo history

A Dafny model of `ChessPiece.py`, the move generator of a small chess engine.
It has three parts:

- **Candidate moves, one generator per piece kind.** Bishop and Rook slide along
  rays. The Queen is the Rook followed by the Bishop. King and Knight step by a
  fixed offset table. The Pawn advances one or two squares and takes on the
  diagonals. Each generator reads an occupancy oracle that answers four
  questions about a square: is it valid, is it empty, does it hold a friend,
  does it hold an opponent. The `prevent_king_death` flag makes a generator also
  return friend-occupied squares it attacks. The board uses this when it probes
  king safety.
- **The undo history.** `set_position`, `set_old_position`,
  `set_moved_previous`, `set_last_eaten` and `get_last_eaten` push and pop three
  LIFO stacks that all pieces share.
- **The legality filter `filter_moves`.** It tries each candidate on the board,
  asks whether the mover's king is threatened, undoes the move, and drops the
  threatened candidates.

## How it is modelled

- `Chessboard` (chessboard.dfy) is the oracle. A `Board` maps each integer
  coordinate to `OffBoard`, `Vacant` or `Occupied(colour)`, and carries the
  `game_mode` integer. The four queries are read off that map.
  - Empty, friend and opponent therefore exclude each other.
  - An off-board square answers none of them.
  - King and Knight never call `is_valid_move`, so they depend on this
    contract. In this model the contract holds by construction.
  - `WellFormed(b)` adds that the valid squares are exactly the 8 x 8 grid.
- `MoveSpec` (movespec.dfy) holds the reference functions. `Ray`, `Rays` and
  `Steps` give the exact list each generator yields. The lemmas characterise
  those lists from the board alone: direction, distance, what is on the target
  square and on every square in between.
- `Pieces` (pieces.dfy) holds the pieces.
  - `Piece` is a class. `x`, `y` and `moved` are mutable fields.
  - The three stacks are fields of a `History` object. Every piece holds a
    reference to the same `History`, so the stacks are shared the way
    class-level lists are.
  - Each generator is a method. Bishop, Rook, Queen, King and Knight keep the
    source's loops and are proved to return exactly their reference lists.
    The pawn has no loop in the source. `PawnMoves` is straight-line code,
    proved against `PawnCandidates`: which squares are present and absent, and
    that none repeats. The order of its candidates is not stated.
- `Legality` (legality.dfy) models `filter_moves`.
  - `make_move(keep_history=True)`, `king_is_threatened` and `unmake_move`
    together become one deterministic function `threatened` of the destination.
    The board is restored after every trial, so the verdict can depend only on
    the destination.
  - `FilterMoves` keeps the source's copy-then-`remove` loop. It is proved equal
    to the order-preserving filter `Legal`.
- `Scenarios` (scenarios.dfy) checks concrete positions on the empty board.

### Where the code is defective, the model follows the evident intent

- Rook calls `has_opponent(x, self.y)` and `has_opponent(self.x, y)` without the
  piece argument (ChessPiece.py:98, ChessPiece.py:112). The model asks whether
  the square holds an opponent of the rook's colour.
- Pawn calls the misspelt `has_firend` (ChessPiece.py:174, ChessPiece.py:177).
  The model uses `has_friend`.
- Queen builds `Rook(self.color)` and `Bishop(self.color)` without coordinates
  (ChessPiece.py:122, ChessPiece.py:124). The model runs both geometries from
  the queen's own square and colour. The throw-away pieces' `moved` flag
  affects neither geometry.
- Queen appends the two lists as two elements of one list
  (ChessPiece.py:126-127). The model returns their concatenation.
- Queen's `get_moves` takes no `prevent_king_death` (ChessPiece.py:120). The
  model passes the flag on to both halves, as Rook and Bishop take it. With the
  flag false, the result is what the source's call would compute once the
  construction and list-shape defects above are corrected. As written, the
  call fails at `Rook(self.color)`.
- The sliding loops run `range(1, 9)`, so a ray can be 8 steps long
  (ChessPiece.py:68, ChessPiece.py:92, ChessPiece.py:106). On an 8 x 8 board
  the 8th step is always off the board.

## Model

| member | source | states |
|---|---|---|
| `MoveSpec.RayShape` | ChessPiece.py:68-77 | One ray is the contiguous run of steps i, i+1, … (at most 8). Every square on it is empty, holds an opponent, or holds a friend while probing. Every square except the last is empty. The walk ends only after step 8, after an occupied square, or before an invalid square or (when not probing) a friend. |
| `MoveSpec.RayIncludes` | ChessPiece.py:68-77 | Completeness of a ray: a step within 8 that is admitted, with every earlier step empty, is on the ray. |
| `MoveSpec.RayReach` | ChessPiece.py:68-77 | A square is on the ray in direction d if and only if it lies on that line, 1 to 8 steps away, is admitted, and every square before it is empty. |
| `MoveSpec.RaysMember` | ChessPiece.py:67-77 | A square is among the rays of a direction list if and only if its own direction is in the list and it is on that direction's ray. |
| `MoveSpec.RayNoJump` | ChessPiece.py:71-77 | No jumping: every square between the slider and a square on its ray is empty. |
| `MoveSpec.BishopReach` | ChessPiece.py:62-78 | The bishop's candidates are exactly the diagonal squares 1 to 8 away that are admitted and have only empty squares in between. Without the flag no friend is returned. |
| `MoveSpec.RookReach` | ChessPiece.py:83-115 | The rook's candidates are exactly the squares on its row or column, 1 to 8 away, that are admitted and have only empty squares in between. |
| `MoveSpec.QueenReach` | ChessPiece.py:120-128 | The queen's candidates are exactly the union of the rook's and the bishop's. |
| `MoveSpec.StepsMember` | ChessPiece.py:191-195 | A stepping candidate is present if and only if its offset is in the table and the square is empty, holds an opponent, or holds a friend while probing. There are never more candidates than offsets. |
| `MoveSpec.StepsSnoc` | ChessPiece.py:194-195 | Trying one more offset appends its square exactly when that square is admitted. |
| `MoveSpec.KingReach` | ChessPiece.py:133-157 | The king has at most 8 candidates. A square is one if and only if it is at Chebyshev distance 1 and is empty, holds an opponent, or holds a friend while probing. |
| `MoveSpec.KnightReach` | ChessPiece.py:184-196 | The knight has at most 8 candidates. A square is one if and only if it is a (±1,±2) or (±2,±1) jump away and is admitted. |
| `MoveSpec.AdmittedSound` | ChessPiece.py:194 | An admitted square is valid, and on the 8 x 8 grid when the board is well formed. Without the flag it never holds a friend. |
| `Pieces.History.constructor` | ChessPiece.py:7-9 | The three shared stacks start empty. |
| `Pieces.Piece.constructor` | ChessPiece.py:13-18 | A new piece has the given kind, colour and square, and has not moved. |
| `Pieces.Piece.GetLastEaten` | ChessPiece.py:32-33 | Returns the top of the captured-piece stack and removes it. |
| `Pieces.Piece.SetLastEaten` | ChessPiece.py:35-36 | Pushes the piece onto the captured-piece stack. Nothing else changes. |
| `Pieces.Piece.SetPosition` | ChessPiece.py:38-45 | Always sets the new coordinates and `moved`. With `keep_history` it pushes the old x then y, and the old flag. Without it both stacks are unchanged. |
| `Pieces.Piece.SetOldPosition` | ChessPiece.py:47-51 | Pops y, then x, from the position stack into the coordinates. Two entries are removed. |
| `Pieces.Piece.SetMovedPrevious` | ChessPiece.py:53-54 | Pops the `moved` flag from the move stack. |
| `Pieces.TrialAndRestore` | ChessPiece.py:38-54 | `set_position(…, True)`, then `set_old_position()`, then `set_moved_previous()` restores x, y and `moved`, and leaves all three stacks as they were. |
| `Pieces.CaptureAndRestore` | ChessPiece.py:32-54 | A trial that also pushes a captured piece returns that same piece, and restores the mover and all three stacks. |
| `Pieces.NestedTrials` | ChessPiece.py:7-9 | Two pieces share the stacks. Properly nested trials restore both pieces and both stacks. |
| `Pieces.CrossedTrials` | ChessPiece.py:7-9 | Two pieces share the stacks. If the first pops before the second, it receives the second piece's former square. |
| `Pieces.Slide` | ChessPiece.py:68-77 | The step-by-step walk along one direction, with its two early exits, returns exactly that direction's ray. |
| `Pieces.SlideAlong` | ChessPiece.py:67-77 | The loop over directions returns the concatenation of their rays, in table order. |
| `Pieces.Piece.BishopMoves` | ChessPiece.py:62-78 | Returns exactly the four diagonal rays (add,add), (add,sub), (sub,add), (sub,sub), in that order. |
| `Pieces.Piece.RookVerticalMoves` | ChessPiece.py:89-101 | Returns exactly the rays along x+ and x−. |
| `Pieces.Piece.RookHorizontalMoves` | ChessPiece.py:103-115 | Returns exactly the rays along y+ and y−. |
| `Pieces.Piece.RookMoves` | ChessPiece.py:83-87 | Returns the vertical candidates followed by the horizontal ones. |
| `Pieces.Piece.QueenMoves` | ChessPiece.py:120-128 | Returns the rook's candidates followed by the bishop's, from the queen's square and in its colour. |
| `Pieces.Piece.KingHorizontalMoves` | ChessPiece.py:151-157 | Returns exactly the admitted squares among (x, y+1), (x, y−1), in that order. |
| `Pieces.Piece.KingVerticalMoves` | ChessPiece.py:139-149 | For x+1, then x−1, returns exactly the admitted squares at y, y+1, y−1, in that order. |
| `Pieces.Piece.KingMoves` | ChessPiece.py:133-137 | Returns the horizontal candidates followed by the vertical ones. |
| `Pieces.Piece.KnightMoves` | ChessPiece.py:184-196 | Returns exactly the admitted squares of the 8 jump offsets, in the order the product of sign pairs and magnitudes enumerates them. |
| `Pieces.Piece.PawnMoves` | ChessPiece.py:162-179 | Direction is +1 if and only if (mode 0 and white) or (mode 1 and black). The single advance is present if and only if the flag is off and the square ahead is empty. The double advance additionally needs `moved` false and the second square empty. Each diagonal (x+dir, y±1) is present if and only if it is valid and holds an opponent, or, while probing, is empty or holds a friend. Nothing else is returned, and nothing twice. |
| `Pieces.Piece.GetMoves` | ChessPiece.py:29-30 | Dispatches on the piece kind. Every candidate is a valid square, and on the 8 x 8 grid when the board is well formed. Without the flag no candidate holds a friend. |
| `Legality.RemoveFirst` | ChessPiece.py:25 | List removal of a present element shortens the list by one. |
| `Legality.RemoveFirstAt` | ChessPiece.py:25 | Removal deletes the first occurrence only: p + [v] + q becomes p + q when v is not in p. |
| `Legality.LegalMember` | ChessPiece.py:20-27 | A move survives the filter if and only if it is a candidate and its trial leaves the king unthreatened. |
| `Legality.LegalCount` | ChessPiece.py:20-27 | Duplicate candidates get the same verdict. A safe move keeps every occurrence. A threatened move loses all of them. |
| `Legality.LegalSubsequence` | ChessPiece.py:20-27 | The survivors are a subsequence of the candidates, in input order, and never more of them. |
| `Legality.LegalIdempotent` | ChessPiece.py:20-27 | Filtering the survivors again removes nothing. |
| `Legality.LegalAppend` | ChessPiece.py:22-26 | Filtering distributes over concatenation. Deciding candidates one at a time gives the same survivors. |
| `Legality.FilterStep` | ChessPiece.py:22-26 | One round of the loop. A threatened candidate cannot already be among the survivors, so `remove` deletes exactly this candidate's own copy. |
| `Legality.FilterMoves` | ChessPiece.py:20-27 | The copy-then-`remove` loop returns exactly the order-preserving filter of the candidates by "trial does not threaten the king". The input is a value and is not changed. |
| `Scenarios.EmptyRayLength` | ChessPiece.py:68-77 | On the empty board a ray covers every on-board step and stops at the first off-board one. |
| `Scenarios.KnightInCentre` | ChessPiece.py:184-196 | A knight on (4,4) of the empty board has the 8 squares (5,2), (6,3), (3,6), (2,5), (5,6), (6,5), (3,2), (2,3). |
| `Scenarios.RookInCorner` | ChessPiece.py:83-115 | A rook on (0,0) of the empty board has 14 candidates. |
| `Scenarios.KingInCorner` | ChessPiece.py:133-157 | A king on (0,0) of the empty board has the 3 squares (0,1), (1,0), (1,1). |
| `Scenarios.PawnDoubleAdvanceOnlyFirst` | ChessPiece.py:168-172 | An unmoved white pawn on (1,4) may go to (2,4) or (3,4). After it has moved to (2,4) it may go to (3,4) but not (4,4). |

## Left out

- The board's internals are not part of this model: `make_move`, `unmake_move`, `king_is_threatened`, `is_valid_move` and the occupancy predicates. The generators read a board snapshot. The filter reads the verdict function `threatened`. That the board is restored after each trial is the board's duty and is not proved here.
- `game_mode` is a plain integer. Colour is a two-valued enumeration instead of the strings `'white'` and `'black'`.
- `__repr__` (ChessPiece.py:56-57) only formats a string.
- Castling, en passant and promotion are not in the source.
- The runtime failures the defects above would raise (a missing argument, an undefined method name, a constructor called with too few arguments) are not modelled. The model follows the evident intent.
- Popping an empty stack (`get_last_eaten`, `set_old_position`, `set_moved_previous`) raises in the source. The model makes it a precondition, since the rollback protocol never does it.
- Pieces.Piece.PawnMoves: states which squares are present and that none repeats, not their order (the source appends single advance, double advance, y−1 diagonal, y+1 diagonal).
- The queen's throw-away Rook and Bishop objects are not built. Their `moved` flag is set by `set_position(…, False)` and read by neither geometry.
