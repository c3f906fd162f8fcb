/** The legality filter: each candidate is tried on the board, the mover's king
    is checked, and the move is undone.

    Applying the move with history kept, asking whether the mover's king is
    threatened, and undoing the move leave the board as it was, so for a
    given board and piece the verdict depends on the destination only. The
    model takes that verdict as a function `threatened` of the destination. */
module Legality {
  import opened Chessboard

  /** The moves whose trial does not threaten the mover's king, in input order. */
  function Legal(moves: seq<Move>, threatened: Move -> bool): seq<Move> {
    if moves == [] then []
    else (if threatened(moves[0]) then [] else [moves[0]]) + Legal(moves[1..], threatened)
  }

  /** `r` can be obtained from `s` by deleting elements. */
  ghost predicate IsSubsequence(r: seq<Move>, s: seq<Move>)
    decreases |s|
  {
    r == [] ||
    (s != [] && ((r[0] == s[0] && IsSubsequence(r[1..], s[1..])) || IsSubsequence(r, s[1..])))
  }

  /** List removal of the first occurrence of `v`. */
  function RemoveFirst(s: seq<Move>, v: Move): (r: seq<Move>)
    requires v in s
    ensures |r| == |s| - 1
  {
    if s[0] == v then s[1..] else [s[0]] + RemoveFirst(s[1..], v)
  }

  /** Removal deletes the first occurrence: everything before it stays, and
      so does everything after it. */
  lemma {:induction false} RemoveFirstAt(p: seq<Move>, v: Move, q: seq<Move>)
    requires v !in p
    ensures RemoveFirst(p + [v] + q, v) == p + q
  {
    if p != [] {
      assert (p + [v] + q)[0] == p[0];
      assert (p + [v] + q)[1..] == p[1..] + [v] + q;
      RemoveFirstAt(p[1..], v, q);
      assert p + q == [p[0]] + (p[1..] + q);
    } else {
      assert p + [v] + q == [v] + q;
    }
  }

  lemma {:induction false} LegalAppend(a: seq<Move>, b: seq<Move>, threatened: Move -> bool)
    ensures Legal(a + b, threatened) == Legal(a, threatened) + Legal(b, threatened)
  {
    if a != [] {
      assert (a + b)[0] == a[0] && (a + b)[1..] == a[1..] + b;
      LegalAppend(a[1..], b, threatened);
    } else {
      assert a + b == b;
    }
  }

  /** A move survives exactly when it is a candidate and its trial leaves the
      king safe. */
  lemma {:induction false} LegalMember(moves: seq<Move>, threatened: Move -> bool, m: Move)
    ensures m in Legal(moves, threatened) <==> m in moves && !threatened(m)
  {
    if moves != [] {
      LegalMember(moves[1..], threatened, m);
      assert moves == [moves[0]] + moves[1..];
    }
  }

  /** Equal candidates get equal verdicts: each safe move keeps all its
      occurrences, each threatened one loses them all. */
  lemma {:induction false} LegalCount(moves: seq<Move>, threatened: Move -> bool, m: Move)
    ensures multiset(Legal(moves, threatened))[m] == if threatened(m) then 0 else multiset(moves)[m]
  {
    if moves != [] {
      LegalCount(moves[1..], threatened, m);
      assert moves == [moves[0]] + moves[1..];
    }
  }

  /** The survivors are a subsequence of the candidates, so never more of them. */
  lemma {:induction false} LegalSubsequence(moves: seq<Move>, threatened: Move -> bool)
    ensures IsSubsequence(Legal(moves, threatened), moves)
    ensures |Legal(moves, threatened)| <= |moves|
  {
    if moves != [] {
      LegalSubsequence(moves[1..], threatened);
      var rest := Legal(moves[1..], threatened);
      if !threatened(moves[0]) {
        assert Legal(moves, threatened) == [moves[0]] + rest;
        assert ([moves[0]] + rest)[0] == moves[0] && ([moves[0]] + rest)[1..] == rest;
      } else {
        assert Legal(moves, threatened) == rest;
      }
    }
  }

  /** Filtering again removes nothing. */
  lemma {:induction false} LegalIdempotent(moves: seq<Move>, threatened: Move -> bool)
    ensures Legal(Legal(moves, threatened), threatened) == Legal(moves, threatened)
  {
    if moves != [] {
      LegalIdempotent(moves[1..], threatened);
      var rest := Legal(moves[1..], threatened);
      if !threatened(moves[0]) {
        assert Legal(moves, threatened) == [moves[0]] + rest;
        assert ([moves[0]] + rest)[0] == moves[0] && ([moves[0]] + rest)[1..] == rest;
      } else {
        assert Legal(moves, threatened) == rest;
      }
    }
  }

  /** One round of the filter: with the first `i` candidates decided and the
      rest untouched, deciding candidate `i` yields the same shape for `i + 1`.
      A threatened candidate cannot occur among the survivors, so its first
      occurrence is its own position. */
  lemma FilterStep(moves: seq<Move>, threatened: Move -> bool, i: int)
    requires 0 <= i < |moves|
    ensures moves[i] in Legal(moves[..i], threatened) + moves[i..]
    ensures threatened(moves[i]) ==>
      RemoveFirst(Legal(moves[..i], threatened) + moves[i..], moves[i]) ==
        Legal(moves[..i + 1], threatened) + moves[i + 1..]
    ensures !threatened(moves[i]) ==>
      Legal(moves[..i], threatened) + moves[i..] == Legal(moves[..i + 1], threatened) + moves[i + 1..]
  {
    var move := moves[i];
    var kept := Legal(moves[..i], threatened);
    assert moves[i..] == [move] + moves[i + 1..];
    assert moves[..i + 1] == moves[..i] + [move];
    assert Legal([move], threatened) == (if threatened(move) then [] else [move]) + Legal([], threatened);
    LegalAppend(moves[..i], [move], threatened);
    if threatened(move) {
      LegalMember(moves[..i], threatened, move);
      RemoveFirstAt(kept, move, moves[i + 1..]);
      assert kept + moves[i..] == kept + [move] + moves[i + 1..];
    } else {
      assert kept + moves[i..] == (kept + [move]) + moves[i + 1..];
    }
  }

  /** Copies the candidates, tries each original candidate in turn, and
      removes it from the copy when its trial threatens the king. */
  method FilterMoves(moves: seq<Move>, threatened: Move -> bool) returns (finalMoves: seq<Move>)
    ensures finalMoves == Legal(moves, threatened)
  {
    finalMoves := moves;
    for i := 0 to |moves|
      invariant finalMoves == Legal(moves[..i], threatened) + moves[i..]
    {
      var move := moves[i];
      FilterStep(moves, threatened, i);
      if threatened(move) {
        finalMoves := RemoveFirst(finalMoves, move);
      }
    }
    assert moves[..|moves|] == moves;
  }
}
