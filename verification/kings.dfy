/** The two king features of `ai_controller` (game/controllers/src/ai_controller.cpp):
    `compute_king_centralization_score` and `compute_king_shield_score`. Both
    read the square of `white`'s king from the game; here that square is the
    parameter k. Each is given as the source computes it and, where that
    differs from the evident intent, as corrected. */
module Kings {
  import opened Wrappers
  import opened Geometry
  import opened Pieces
  import opened Board
  import opened Mirror
  import opened Features

  // ------------------------------------------------------ centralisation

  function Abs(x: int): nat
  {
    if x < 0 then -x else x
  }

  function Max(a: int, b: int): int
  {
    if a < b then b else a
  }

  function Min(a: int, b: int): int
  {
    if a < b then a else b
  }

  /** The centre squares as the source lists them, (file, rank) pairs. */
  const CentreSquares: seq<(int, int)> := [(4, 4), (5, 4), (4, 5), (5, 5)]

  /** King moves from k to (cf, cr): the larger of the two coordinate gaps. */
  function KingDistance(k: Pos, cf: int, cr: int): int
  {
    Max(Abs(k.file - cf), Abs(k.rank - cr))
  }

  /** The loop over `center_squares`, keeping the least distance seen. */
  function MinDistance(k: Pos, cs: seq<(int, int)>, least: int): int
  {
    if |cs| == 0 then least
    else MinDistance(k, cs[1..], Min(KingDistance(k, cs[0].0, cs[0].1), least))
  }

  /** The loop starts from 8, which no king distance exceeds. */
  function CentreDistance(k: Pos): int
  {
    MinDistance(k, CentreSquares, 8)
  }

  /** How far a coordinate lies outside the two central lines 4 and 5. */
  function Edge(x: Coord): int
  {
    if x <= 4 then 4 - x else x - 5
  }

  /** The fold keeps the least of its start and every distance, and ends on
      one of them. */
  lemma {:induction false} MinDistanceLeast(k: Pos, cs: seq<(int, int)>, least: int)
    ensures MinDistance(k, cs, least) <= least
    ensures forall i :: 0 <= i < |cs| ==> MinDistance(k, cs, least) <= KingDistance(k, cs[i].0, cs[i].1)
    ensures MinDistance(k, cs, least) == least ||
            exists i :: 0 <= i < |cs| && MinDistance(k, cs, least) == KingDistance(k, cs[i].0, cs[i].1)
  {
    if |cs| > 0 {
      var m := Min(KingDistance(k, cs[0].0, cs[0].1), least);
      MinDistanceLeast(k, cs[1..], m);
      var r := MinDistance(k, cs, least);
      assert r == MinDistance(k, cs[1..], m);
      forall i | 0 <= i < |cs| ensures r <= KingDistance(k, cs[i].0, cs[i].1) {
        if i > 0 {
          assert cs[i] == cs[1..][i - 1];
        }
      }
      if r != least && r != KingDistance(k, cs[0].0, cs[0].1) {
        var j :| 0 <= j < |cs[1..]| && r == KingDistance(k, cs[1..][j].0, cs[1..][j].1);
        assert cs[1..][j] == cs[j + 1];
      }
    }
  }

  /** The distance to the nearest centre square is the larger of the two
      coordinates' distances to the central lines: 0 on d4, d5, e4, e5 and
      3 in the corners. It is the least distance to the four squares, and
      reaches it. */
  lemma CentreDistanceClosed(k: Pos)
    ensures CentreDistance(k) == Max(Edge(k.file), Edge(k.rank))
    ensures 0 <= CentreDistance(k) <= 3
    ensures forall i :: 0 <= i < 4 ==> CentreDistance(k) <= KingDistance(k, CentreSquares[i].0, CentreSquares[i].1)
  {
    var cs := CentreSquares;
    MinDistanceLeast(k, cs, 8);
    var e := Max(Edge(k.file), Edge(k.rank));
    forall i | 0 <= i < 4 ensures e <= KingDistance(k, cs[i].0, cs[i].1) {
    }
    var i := if k.file <= 4 then (if k.rank <= 4 then 0 else 2) else (if k.rank <= 4 then 1 else 3);
    assert KingDistance(k, cs[i].0, cs[i].1) == e;
  }

  /** The centre is the same seen from either side. */
  lemma CentreDistanceMirror(k: Pos)
    ensures CentreDistance(MirrorVertically(k)) == CentreDistance(k)
  {
    CentreDistanceClosed(k);
    CentreDistanceClosed(MirrorVertically(k));
  }

  /** The rank d steps forward from rank r, seen from the given side. */
  function ForwardBy(r: int, d: int, white: bool): int
  {
    if white then r + d else r - d
  }

  /** The source's second term: `7 - king_rank` for white and `king_rank`
      for black, on ranks numbered 1 to 8. */
  function FarSideAsWritten(k: Pos, white: bool): int
  {
    if white then 7 - k.rank else k.rank
  }

  function KingCentralizationAsWritten(k: Pos, white: bool): real
  {
    -CentreDistance(k) as real - FarSideAsWritten(k, white) as real * 0.25
  }

  /** The distance from the king's rank to the far back rank: d ranks
      forward from the king is the opponent's back rank. It is one more
      than the source's term for white and one less for black. */
  function FarSide(k: Pos, white: bool): (d: int)
    ensures 0 <= d <= 7
    ensures ForwardBy(k.rank, d, white) == (if white then 8 else 1)
    ensures d == FarSideAsWritten(k, white) + (if white then 1 else -1)
  {
    if white then 8 - k.rank else k.rank - 1
  }

  /** Minus the distance to the centre, less a quarter per rank still to
      travel to the far side. */
  function KingCentralization(k: Pos, white: bool): (s: real)
    ensures -3.0 - 1.75 <= s <= 0.0
  {
    CentreDistanceClosed(k);
    -CentreDistance(k) as real - FarSide(k, white) as real * 0.25
  }

  /** As written, the two sides disagree: a black king on the mirror square
      of a white king's scores half a point less. */
  lemma KingCentralizationAsWrittenAsymmetric(k: Pos)
    ensures KingCentralizationAsWritten(MirrorVertically(k), false) == KingCentralizationAsWritten(k, true) - 0.5
  {
    CentreDistanceMirror(k);
  }

  /** Corrected, mirror images score alike, and the as-written score is the
      corrected one shifted by a quarter point towards white. */
  lemma KingCentralizationSymmetric(k: Pos, white: bool)
    ensures KingCentralization(MirrorVertically(k), !white) == KingCentralization(k, white)
    ensures KingCentralizationAsWritten(k, white) == KingCentralization(k, white) + (if white then 0.25 else -0.25)
  {
    CentreDistanceMirror(k);
  }

  // ---------------------------------------------------------------- shield

  /** The rank in front of the king, seen from its side; it may be off the
      board. */
  function ForwardRank(k: Pos, white: bool): int
  {
    ForwardBy(k.rank, 1, white)
  }

  /** What one square in front of the king is worth: a pawn 1, any other
      man 2. The source admits the man when the SQUARE's colour matches the
      side, so it counts enemy men on squares of that colour and misses
      friendly men on the others. */
  function ShieldSquareAsWritten(b: Board, p: Pos, white: bool): int
  {
    match b.at(p)
    case None => 0
    case Some(x) =>
      if SquareIsWhite(p) != white then 0
      else if x.name == Pawn then 1
      else 2
  }

  function ShieldFileAsWritten(b: Board, rank: Coord, f: int, white: bool): int
  {
    if 1 <= f <= 8 then ShieldSquareAsWritten(b, Pos(rank, f), white) else 0
  }

  /** `compute_king_shield_score`: the three files around the king on the
      forward rank. `itopos(..).value()` throws `bad_optional_access` when
      the forward rank is off the board, which happens for a white king on
      rank 8 and a black king on rank 1. */
  function KingShieldAsWritten(b: Board, k: Pos, white: bool): (r: Result<int, string>)
    ensures r.Failure? <==> !(1 <= ForwardRank(k, white) <= 8)
  {
    var fr := ForwardRank(k, white);
    if !(1 <= fr <= 8) then Failure(BadOptionalAccess)
    else
      Success(ShieldFileAsWritten(b, fr, k.file - 1, white) + ShieldFileAsWritten(b, fr, k.file, white)
              + ShieldFileAsWritten(b, fr, k.file + 1, white))
  }

  /** Corrected: the man's own colour decides. */
  function ShieldSquare(b: Board, p: Pos, white: bool): (s: int)
    ensures 0 <= s <= 2
    ensures s > 0 <==> b.at(p).Some? && b.at(p).value.white == white
    ensures s == 1 <==> Holds(b.at(p), Pawn, white)
  {
    match b.at(p)
    case None => 0
    case Some(x) =>
      if x.white != white then 0
      else if x.name == Pawn then 1
      else 2
  }

  function ShieldFile(b: Board, rank: int, f: int, white: bool): (s: int)
    ensures 0 <= s <= 2
  {
    if 1 <= rank <= 8 && 1 <= f <= 8 then ShieldSquare(b, Pos(rank, f), white) else 0
  }

  /** Corrected: a king with no rank in front of it has no shield. */
  function KingShield(b: Board, k: Pos, white: bool): (s: int)
    ensures 0 <= s <= 6
    ensures !(1 <= ForwardRank(k, white) <= 8) ==> s == 0
  {
    var fr := ForwardRank(k, white);
    ShieldFile(b, fr, k.file - 1, white) + ShieldFile(b, fr, k.file, white) + ShieldFile(b, fr, k.file + 1, white)
  }

  lemma ShieldFileSwapMirror(b: Board, rank: int, f: int, white: bool)
    ensures ShieldFile(SwapMirror(b), 9 - rank, f, !white) == ShieldFile(b, rank, f, white)
  {
    if 1 <= rank <= 8 && 1 <= f <= 8 {
      var p := Pos(rank, f);
      assert MirrorVertically(Pos(9 - rank, f)) == p;
      assert SwapMirror(b).at(Pos(9 - rank, f)) == Flip(b.at(p));
    }
  }

  /** Mirroring the board and the king and swapping sides keeps the shield. */
  lemma KingShieldSwapMirror(b: Board, k: Pos, white: bool)
    ensures KingShield(SwapMirror(b), MirrorVertically(k), !white) == KingShield(b, k, white)
  {
    var fr := ForwardRank(k, white);
    assert ForwardRank(MirrorVertically(k), !white) == 9 - fr;
    ShieldFileSwapMirror(b, fr, k.file - 1, white);
    ShieldFileSwapMirror(b, fr, k.file, white);
    ShieldFileSwapMirror(b, fr, k.file + 1, white);
  }

  /** The two scores agree whenever every man in front of the king stands
      on a square of his own colour. */
  lemma KingShieldAgrees(b: Board, k: Pos, white: bool)
    requires 1 <= ForwardRank(k, white) <= 8
    requires forall f: Coord :: b.at(Pos(ForwardRank(k, white), f)).Some? ==>
      SquareIsWhite(Pos(ForwardRank(k, white), f)) == b.at(Pos(ForwardRank(k, white), f)).value.white
    ensures KingShieldAsWritten(b, k, white) == Success(KingShield(b, k, white))
  {
  }

  /** In the starting position each king stands behind three pawns. As
      written, only the pawn on a square of the king's colour counts, and
      a white king that has reached rank 8 stops the evaluation. */
  lemma KingShieldInitial(b: Board, white: bool)
    requires IsInitial(b)
    ensures KingShield(b, Pos(PieceStart(white), 5), white) == 3
    ensures KingShieldAsWritten(b, Pos(PieceStart(white), 5), white) == Success(1)
    ensures KingShieldAsWritten(b, Pos(8, 5), true) == Failure(BadOptionalAccess)
  {
    var fr := PawnStart(white);
    assert b.at(Pos(fr, 4)) == InitialMan(Pos(fr, 4));
    assert b.at(Pos(fr, 5)) == InitialMan(Pos(fr, 5));
    assert b.at(Pos(fr, 6)) == InitialMan(Pos(fr, 6));
  }
}
