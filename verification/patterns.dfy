/** The geometric move pattern of each piece class (the classes under game/pieces/src).
    Patterns ignore occupancy: they list every on-board square the piece
    could reach on an empty board, in the order the C++ loops push them. */
module Patterns {
  import opened Wrappers
  import opened Geometry
  import opened Candidates

  function Abs(x: int): nat
  {
    if x < 0 then -x else x
  }

  /** Chebyshev (king-step) distance between two squares. */
  function Chebyshev(p: Pos, q: Pos): nat
  {
    var dr := Abs(q.rank - p.rank);
    var df := Abs(q.file - p.file);
    if dr < df then df else dr
  }

  predicate IsCorner(p: Pos)
  {
    (p.rank == 1 || p.rank == 8) && (p.file == 1 || p.file == 8)
  }

  // ---------------------------------------------------------------- king

  /** The nested `i, j in -1..1` loop of `king::possible_moves`, (0, 0) skipped. */
  function KingCandidates(p: Pos): seq<(int, int)>
  {
    var r: int, f: int := p.rank, p.file;
    [(r - 1, f - 1), (r - 1, f), (r - 1, f + 1),
     (r, f - 1), (r, f + 1),
     (r + 1, f - 1), (r + 1, f), (r + 1, f + 1)]
  }

  function KingMoves(p: Pos): (ms: seq<Pos>)
    ensures |ms| <= 8
  {
    Collect(KingCandidates(p))
  }

  /** The king reaches exactly the squares one king-step away. */
  lemma KingMovesExact(p: Pos, q: Pos)
    ensures q in KingMoves(p) <==> Chebyshev(p, q) == 1
  {
    CollectMember(KingCandidates(p), q);
  }

  lemma KingMovesDistinct(p: Pos)
    ensures Distinct(KingMoves(p))
  {
    CollectDistinct(KingCandidates(p));
  }

  /** Eight moves away from the edge, three from a corner. */
  lemma KingMovesCount(p: Pos)
    ensures 2 <= p.rank <= 7 && 2 <= p.file <= 7 ==> |KingMoves(p)| == 8
    ensures IsCorner(p) ==> |KingMoves(p)| == 3
  {
    CollectLength(KingCandidates(p));
  }

  // -------------------------------------------------------------- knight

  /** The eight `itopos` calls of `knight::possible_moves`, in source order. */
  function KnightCandidates(p: Pos): seq<(int, int)>
  {
    var r: int, f: int := p.rank, p.file;
    [(r + 1, f + 2), (r + 2, f + 1), (r - 1, f + 2), (r - 2, f + 1),
     (r + 1, f - 2), (r + 2, f - 1), (r - 1, f - 2), (r - 2, f - 1)]
  }

  function KnightMoves(p: Pos): (ms: seq<Pos>)
    ensures |ms| <= 8
  {
    Collect(KnightCandidates(p))
  }

  predicate KnightJump(p: Pos, q: Pos)
  {
    var dr := Abs(q.rank - p.rank);
    var df := Abs(q.file - p.file);
    (dr == 1 && df == 2) || (dr == 2 && df == 1)
  }

  /** Sound and complete: exactly the on-board L-jumps. */
  lemma KnightMovesExact(p: Pos, q: Pos)
    ensures q in KnightMoves(p) <==> KnightJump(p, q)
  {
    CollectMember(KnightCandidates(p), q);
  }

  lemma KnightMovesDistinct(p: Pos)
    ensures Distinct(KnightMoves(p))
  {
    CollectDistinct(KnightCandidates(p));
  }

  /** Eight moves from the central 4x4 block, two from a corner. */
  lemma KnightMovesCount(p: Pos)
    ensures 3 <= p.rank <= 6 && 3 <= p.file <= 6 ==> |KnightMoves(p)| == 8
    ensures IsCorner(p) ==> |KnightMoves(p)| == 2
  {
    CollectLength(KnightCandidates(p));
  }

  // ---------------------------------------------------------------- rook

  /** `rook::possible_moves`: for i in -8..8 (0 skipped), (r+i, f) then (r, f+i). */
  function RookCandidates(p: Pos, i: int): seq<(int, int)>
    decreases 9 - i
  {
    if i > 8 then []
    else if i == 0 then RookCandidates(p, i + 1)
    else LinePair(p, i) + RookCandidates(p, i + 1)
  }

  /** The two squares offset i along p's rank line and file line. */
  function LinePair(p: Pos, i: int): seq<(int, int)>
  {
    [(p.rank + i, p.file), (p.rank, p.file + i)]
  }

  function RookMoves(p: Pos): seq<Pos>
  {
    Collect(RookCandidates(p, -8))
  }

  predicate OnRookLine(p: Pos, q: Pos)
  {
    (q.rank == p.rank) != (q.file == p.file)
  }

  lemma {:induction false} RookCandidatesMember(p: Pos, i: int, c: (int, int))
    requires i >= -8
    ensures c in RookCandidates(p, i) <==>
              (c.1 == p.file && c.0 != p.rank && i <= c.0 - p.rank <= 8)
              || (c.0 == p.rank && c.1 != p.file && i <= c.1 - p.file <= 8)
    decreases 9 - i
  {
    if i <= 8 {
      RookCandidatesMember(p, i + 1, c);
    }
  }

  lemma {:induction false} RookCandidatesDistinct(p: Pos, i: int)
    requires i >= -8
    ensures Distinct(RookCandidates(p, i))
    decreases 9 - i
  {
    if i <= 8 && i != 0 {
      RookCandidatesDistinct(p, i + 1);
      var t := RookCandidates(p, i + 1);
      var s := RookCandidates(p, i);
      var h := LinePair(p, i);
      RookCandidatesMember(p, i + 1, h[0]);
      RookCandidatesMember(p, i + 1, h[1]);
      DistinctConcat(h, t);
    } else if i == 0 {
      RookCandidatesDistinct(p, i + 1);
    }
  }

  lemma {:induction false} RookCandidatesCount(p: Pos, i: int)
    requires i >= -8
    ensures OnBoardCount(RookCandidates(p, i))
            == OffsetCount(i, 1 - p.rank, 8 - p.rank) + OffsetCount(i, 1 - p.file, 8 - p.file)
    decreases 9 - i
  {
    if i <= 8 {
      RookCandidatesCount(p, i + 1);
      if i != 0 {
        RookCandidatesStep(p, i);
      }
    }
  }

  /** One offset adds its on-board rank square and its on-board file square. */
  lemma RookCandidatesStep(p: Pos, i: int)
    requires -8 <= i <= 8 && i != 0
    ensures OnBoardCount(RookCandidates(p, i)) == OnBoardCount(RookCandidates(p, i + 1))
              + (if 1 - p.rank <= i <= 8 - p.rank then 1 else 0) + (if 1 - p.file <= i <= 8 - p.file then 1 else 0)
  {
    OnBoardCountConcat(LinePair(p, i), RookCandidates(p, i + 1));
  }

  /** The rook reaches exactly the squares sharing its rank or its file but
      not both (its own square is excluded). */
  lemma RookMovesExact(p: Pos, q: Pos)
    ensures q in RookMoves(p) <==> OnRookLine(p, q)
  {
    CollectMember(RookCandidates(p, -8), q);
    RookCandidatesMember(p, -8, (q.rank, q.file));
  }

  /** Fourteen distinct moves from every square. */
  lemma RookMovesCount(p: Pos)
    ensures |RookMoves(p)| == 14
    ensures Distinct(RookMoves(p))
  {
    CollectLength(RookCandidates(p, -8));
    RookCandidatesCount(p, -8);
    OffsetCountFull(1 - p.rank, 8 - p.rank);
    OffsetCountFull(1 - p.file, 8 - p.file);
    RookCandidatesDistinct(p, -8);
    CollectDistinct(RookCandidates(p, -8));
  }

  // -------------------------------------------------------------- bishop

  /** `bishop::possible_moves`: for i in -8..8 (0 skipped), (r+i, f+i) then (r-i, f+i). */
  function BishopCandidates(p: Pos, i: int): seq<(int, int)>
    decreases 9 - i
  {
    if i > 8 then []
    else if i == 0 then BishopCandidates(p, i + 1)
    else DiagonalPair(p, i) + BishopCandidates(p, i + 1)
  }

  /** The two squares offset i along p's two diagonals. */
  function DiagonalPair(p: Pos, i: int): seq<(int, int)>
  {
    [(p.rank + i, p.file + i), (p.rank - i, p.file + i)]
  }

  function BishopMoves(p: Pos): seq<Pos>
  {
    Collect(BishopCandidates(p, -8))
  }

  predicate OnDiagonal(p: Pos, q: Pos)
  {
    Abs(q.rank - p.rank) == Abs(q.file - p.file) >= 1
  }

  lemma {:induction false} BishopCandidatesMember(p: Pos, i: int, c: (int, int))
    requires i >= -8
    ensures c in BishopCandidates(p, i) <==>
              (var k := c.1 - p.file; k != 0 && i <= k <= 8 && (c.0 == p.rank + k || c.0 == p.rank - k))
    decreases 9 - i
  {
    if i <= 8 {
      BishopCandidatesMember(p, i + 1, c);
    }
  }

  lemma {:induction false} BishopCandidatesDistinct(p: Pos, i: int)
    requires i >= -8
    ensures Distinct(BishopCandidates(p, i))
    decreases 9 - i
  {
    if i <= 8 && i != 0 {
      BishopCandidatesDistinct(p, i + 1);
      var t := BishopCandidates(p, i + 1);
      var s := BishopCandidates(p, i);
      var h := DiagonalPair(p, i);
      BishopCandidatesMember(p, i + 1, h[0]);
      BishopCandidatesMember(p, i + 1, h[1]);
      DistinctConcat(h, t);
    } else if i == 0 {
      BishopCandidatesDistinct(p, i + 1);
    }
  }

  function Max(a: int, b: int): int { if a < b then b else a }
  function Min(a: int, b: int): int { if a < b then a else b }

  /** Number of on-board squares of the bishop's two diagonals (own square excluded). */
  function DiagonalSquares(p: Pos): int
  {
    (Min(8 - p.rank, 8 - p.file) - Max(1 - p.rank, 1 - p.file))
    + (Min(p.rank - 1, 8 - p.file) - Max(p.rank - 8, 1 - p.file))
  }

  lemma {:induction false} BishopCandidatesCount(p: Pos, i: int)
    requires i >= -8
    ensures OnBoardCount(BishopCandidates(p, i))
            == OffsetCount(i, Max(1 - p.rank, 1 - p.file), Min(8 - p.rank, 8 - p.file))
             + OffsetCount(i, Max(p.rank - 8, 1 - p.file), Min(p.rank - 1, 8 - p.file))
    decreases 9 - i
  {
    if i <= 8 {
      BishopCandidatesCount(p, i + 1);
      if i != 0 {
        BishopCandidatesStep(p, i);
      }
    }
  }

  /** One offset adds the on-board squares among its two diagonal candidates. */
  lemma BishopCandidatesStep(p: Pos, i: int)
    requires -8 <= i <= 8 && i != 0
    ensures OnBoardCount(BishopCandidates(p, i)) == OnBoardCount(BishopCandidates(p, i + 1))
              + (if Max(1 - p.rank, 1 - p.file) <= i <= Min(8 - p.rank, 8 - p.file) then 1 else 0)
              + (if Max(p.rank - 8, 1 - p.file) <= i <= Min(p.rank - 1, 8 - p.file) then 1 else 0)
  {
    OnBoardCountConcat(DiagonalPair(p, i), BishopCandidates(p, i + 1));
  }

  /** Sound and complete: exactly the squares on either diagonal through p. */
  lemma BishopMovesExact(p: Pos, q: Pos)
    ensures q in BishopMoves(p) <==> OnDiagonal(p, q)
  {
    CollectMember(BishopCandidates(p, -8), q);
    BishopCandidatesMember(p, -8, (q.rank, q.file));
  }

  /** Each diagonal through p has 7 - (distance from the long diagonal)
      squares besides p; together between 7 and 13. */
  lemma DiagonalSquaresRange(p: Pos)
    ensures 7 <= DiagonalSquares(p) <= 13
    ensures IsCorner(p) ==> DiagonalSquares(p) == 7
  {
    var r: int, f: int := p.rank, p.file;
    assert Min(8 - r, 8 - f) - Max(1 - r, 1 - f) == 7 - Abs(r - f);
    assert Min(r - 1, 8 - f) - Max(r - 8, 1 - f) == 7 - Abs(r + f - 9);
    assert Abs(r - f) + Abs(r + f - 9) == Max(Abs(2 * r - 9), Abs(2 * f - 9));
    assert Abs(r - f) != 0 || Abs(r + f - 9) != 0;
  }

  /** Distinct moves, as many as the diagonals have squares: between 7 (on
      an edge) and 13, and exactly 7 from a corner. */
  lemma BishopMovesCount(p: Pos)
    ensures Distinct(BishopMoves(p))
    ensures |BishopMoves(p)| == DiagonalSquares(p)
    ensures 7 <= |BishopMoves(p)| <= 13
    ensures IsCorner(p) ==> |BishopMoves(p)| == 7
  {
    BishopCandidatesDistinct(p, -8);
    CollectDistinct(BishopCandidates(p, -8));
    CollectLength(BishopCandidates(p, -8));
    BishopCandidatesCount(p, -8);
    DiagonalOffsets(p);
    DiagonalSquaresRange(p);
  }

  /** A full sweep of offsets meets every square of both diagonals. */
  lemma DiagonalOffsets(p: Pos)
    ensures OffsetCount(-8, Max(1 - p.rank, 1 - p.file), Min(8 - p.rank, 8 - p.file))
          + OffsetCount(-8, Max(p.rank - 8, 1 - p.file), Min(p.rank - 1, 8 - p.file)) == DiagonalSquares(p)
  {
    OffsetCountFull(Max(1 - p.rank, 1 - p.file), Min(8 - p.rank, 8 - p.file));
    OffsetCountFull(Max(p.rank - 8, 1 - p.file), Min(p.rank - 1, 8 - p.file));
  }

  // --------------------------------------------------------------- queen

  /** `queen::possible_moves`: per offset, the rook pair then the bishop pair. */
  function QueenCandidates(p: Pos, i: int): seq<(int, int)>
    decreases 9 - i
  {
    if i > 8 then []
    else if i == 0 then QueenCandidates(p, i + 1)
    else LinePair(p, i) + (DiagonalPair(p, i) + QueenCandidates(p, i + 1))
  }

  function QueenMoves(p: Pos): seq<Pos>
  {
    Collect(QueenCandidates(p, -8))
  }

  lemma {:induction false} QueenCandidatesMember(p: Pos, i: int, c: (int, int))
    requires i >= -8
    ensures c in QueenCandidates(p, i) <==> c in RookCandidates(p, i) || c in BishopCandidates(p, i)
    decreases 9 - i
  {
    if i <= 8 {
      QueenCandidatesMember(p, i + 1, c);
    }
  }

  /** The four squares of offset i do not come back at a later offset. */
  lemma QueenFresh(p: Pos, i: int, c: (int, int))
    requires -8 <= i <= 8 && i != 0
    requires c in LinePair(p, i) || c in DiagonalPair(p, i)
    ensures c !in QueenCandidates(p, i + 1)
  {
    QueenCandidatesMember(p, i + 1, c);
    RookCandidatesMember(p, i + 1, c);
    BishopCandidatesMember(p, i + 1, c);
  }

  lemma {:induction false} QueenCandidatesDistinct(p: Pos, i: int)
    requires i >= -8
    ensures Distinct(QueenCandidates(p, i))
    decreases 9 - i
  {
    if i <= 8 && i != 0 {
      QueenCandidatesDistinct(p, i + 1);
      var t := QueenCandidates(p, i + 1);
      var l := LinePair(p, i);
      var d := DiagonalPair(p, i);
      forall k | 0 <= k < 2 ensures d[k] !in t && l[k] !in t {
        QueenFresh(p, i, d[k]);
        QueenFresh(p, i, l[k]);
      }
      DistinctConcat(d, t);
      DistinctConcat(l, d + t);
    } else if i == 0 {
      QueenCandidatesDistinct(p, i + 1);
    }
  }

  lemma {:induction false} QueenCandidatesCount(p: Pos, i: int)
    requires i >= -8
    ensures OnBoardCount(QueenCandidates(p, i))
            == OnBoardCount(RookCandidates(p, i)) + OnBoardCount(BishopCandidates(p, i))
    decreases 9 - i
  {
    if i <= 8 {
      QueenCandidatesCount(p, i + 1);
      if i != 0 {
        QueenCandidatesStep(p, i);
      }
    }
  }

  /** One offset adds the rook's two candidates and the bishop's two. */
  lemma QueenCandidatesStep(p: Pos, i: int)
    requires -8 <= i <= 8 && i != 0
    ensures OnBoardCount(QueenCandidates(p, i)) - OnBoardCount(QueenCandidates(p, i + 1))
            == (OnBoardCount(RookCandidates(p, i)) - OnBoardCount(RookCandidates(p, i + 1)))
             + (OnBoardCount(BishopCandidates(p, i)) - OnBoardCount(BishopCandidates(p, i + 1)))
  {
    var t := QueenCandidates(p, i + 1);
    OnBoardCountConcat(LinePair(p, i), DiagonalPair(p, i) + t);
    OnBoardCountConcat(DiagonalPair(p, i), t);
    OnBoardCountConcat(LinePair(p, i), RookCandidates(p, i + 1));
    OnBoardCountConcat(DiagonalPair(p, i), BishopCandidates(p, i + 1));
  }

  /** The queen's squares are the union of the rook's and the bishop's. */
  lemma QueenMovesExact(p: Pos, q: Pos)
    ensures q in QueenMoves(p) <==> q in RookMoves(p) || q in BishopMoves(p)
    ensures q in QueenMoves(p) <==> OnRookLine(p, q) || OnDiagonal(p, q)
  {
    CollectMember(QueenCandidates(p, -8), q);
    QueenCandidatesMember(p, -8, (q.rank, q.file));
    CollectMember(RookCandidates(p, -8), q);
    CollectMember(BishopCandidates(p, -8), q);
    RookMovesExact(p, q);
    BishopMovesExact(p, q);
  }

  /** Distinct moves, 14 plus the bishop's count, hence at least 21. */
  lemma QueenMovesCount(p: Pos)
    ensures Distinct(QueenMoves(p))
    ensures |QueenMoves(p)| == 14 + |BishopMoves(p)|
    ensures |QueenMoves(p)| >= 21
  {
    QueenCandidatesDistinct(p, -8);
    CollectDistinct(QueenCandidates(p, -8));
    CollectLength(QueenCandidates(p, -8));
    QueenCandidatesCount(p, -8);
    CollectLength(RookCandidates(p, -8));
    CollectLength(BishopCandidates(p, -8));
    RookMovesCount(p);
    BishopMovesCount(p);
  }

  // ---------------------------------------------------------------- pawn

  /** `pawn::possible_moves`. A pawn on rank 1 or 8 has no moves; otherwise
      one step forward, the two forward diagonals that stay on the board, and
      the double step from the starting rank (2 for white, 7 for black).
      The `itopos` results pushed there are always on the board, so they are
      written here as positions. */
  function PawnMoves(p: Pos, white: bool): seq<Pos>
  {
    var r: int, f: int := p.rank, p.file;
    if r >= 8 || r <= 1 then []
    else if white then
      [Pos(r + 1, f)]
      + (if f <= 7 then [Pos(r + 1, f + 1)] else [])
      + (if f >= 2 then [Pos(r + 1, f - 1)] else [])
      + (if r == 2 then [Pos(r + 2, f)] else [])
    else
      [Pos(r - 1, f)]
      + (if f <= 7 then [Pos(r - 1, f + 1)] else [])
      + (if f >= 2 then [Pos(r - 1, f - 1)] else [])
      + (if r == 7 then [Pos(r - 2, f)] else [])
  }

  /** Membership in the pawn pattern, stated without reference to its loop:
      one rank forward (toward rank 8 for white) with the file changing by at
      most one, or two ranks straight ahead from the starting rank. */
  lemma PawnMovesExact(p: Pos, white: bool, q: Pos)
    ensures q in PawnMoves(p, white) <==>
              2 <= p.rank <= 7 &&
              var dir := if white then 1 else -1;
              var home := if white then 2 else 7;
              ((q.rank == p.rank + dir && Abs(q.file - p.file) <= 1)
               || (q.rank == p.rank + 2 * dir && q.file == p.file && p.rank == home))
  {
  }

  lemma PawnMovesShape(p: Pos, white: bool)
    ensures |PawnMoves(p, white)| <= 4
    ensures Distinct(PawnMoves(p, white))
    ensures p.rank == 1 || p.rank == 8 ==> PawnMoves(p, white) == []
    ensures 2 <= p.rank <= 7 ==> Pos(if white then p.rank + 1 else p.rank - 1, p.file) in PawnMoves(p, white)
  {
  }
}
