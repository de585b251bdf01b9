/** `position_score` (game/controllers/src/ai_controller.cpp): the
    piece-square term of the evaluator. Every non-king man reads its kind's
    table; white reads square (rank, file) directly, black reads the
    vertically mirrored square, and black's entries count against white.
    The score takes no side argument: it is always from white's point of
    view. */
module Placement {
  import opened Wrappers
  import opened Geometry
  import opened Pieces
  import opened Board
  import opened Folds
  import opened Chromosomes
  import opened Mirror

  /** The table entry a man on p reads, and the sign it is added with. */
  function PlacementTerm(c: Chromosome, m: Option<Man>, p: Pos): real
    requires WellFormed(c)
  {
    match m
    case None => 0.0
    case Some(x) =>
      if x.name == King then 0.0
      else
        var q := if x.white then p else MirrorVertically(p);
        var v := c.tables[TableOf(x.name)][q.rank - 1][q.file - 1];
        if x.white then v else -v
  }

  function PositionScore(b: Board, c: Chromosome): real
    requires WellFormed(c)
  {
    Sum(p => PlacementTerm(c, b.at(p), p))
  }

  /** A white man on p and a black man of the same kind on the mirrored
      square read the same entry, with opposite signs. */
  lemma PlacementTermFlip(c: Chromosome, m: Option<Man>, p: Pos)
    requires WellFormed(c)
    ensures PlacementTerm(c, Flip(m), MirrorVertically(p)) == -PlacementTerm(c, m, p)
  {
    MirrorInvolution(p);
  }

  /** Swapping the colours and mirroring the board negates the score. */
  lemma PositionScoreSwapMirror(b: Board, c: Chromosome)
    requires WellFormed(c)
    ensures PositionScore(SwapMirror(b), c) == -PositionScore(b, c)
  {
    var f := p => PlacementTerm(c, b.at(p), p);
    var g := p => -PlacementTerm(c, b.at(p), p);
    var h := p => PlacementTerm(c, SwapMirror(b).at(p), p);
    forall p: Pos ensures h(p) == g(MirrorVertically(p)) {
      var q := MirrorVertically(p);
      MirrorInvolution(p);
      assert SwapMirror(b).at(p) == Flip(b.at(q));
      PlacementTermFlip(c, b.at(q), q);
    }
    SumMirrored(g, h);
    forall p: Pos ensures g(p) == -f(p) {
    }
    Negated(f, g);
  }

  /** The king table and the scalar weights are never read: chromosomes that
      agree on the five other tables score every board alike. */
  lemma PositionScoreIgnoresKingTable(b: Board, c1: Chromosome, c2: Chromosome)
    requires WellFormed(c1) && WellFormed(c2)
    requires forall t :: 0 <= t < 5 ==> c1.tables[t] == c2.tables[t]
    ensures PositionScore(b, c1) == PositionScore(b, c2)
  {
    var g := p => PlacementTerm(c1, b.at(p), p);
    var h := p => PlacementTerm(c2, b.at(p), p);
    forall p: Pos ensures g(p) == h(p) {
      if b.at(p).Some? && b.at(p).value.name != King {
        assert TableOf(b.at(p).value.name) < 5;
      }
    }
    Congruent(g, h);
  }

  /** The entry a man reads, with rows counted from white's side. */
  function Entry(c: Chromosome, m: Man, p: Pos): real
    requires WellFormed(c)
  {
    if m.name == King then 0.0
    else if m.white then c.tables[TableOf(m.name)][p.rank - 1][p.file - 1]
    else -c.tables[TableOf(m.name)][8 - p.rank][p.file - 1]
  }

  lemma PlacementTermEntry(c: Chromosome, m: Man, p: Pos)
    requires WellFormed(c)
    ensures PlacementTerm(c, Some(m), p) == Entry(c, m, p)
  {
    MirrorInvolution(p);
  }

  /** Putting a man on an empty square changes the score by exactly his
      entry: table[rank - 1][file - 1] for white, minus the entry of the
      mirrored row 8 - rank for black, nothing for a king. */
  lemma PositionScorePlace(b: Board, c: Chromosome, p: Pos, m: Man)
    requires WellFormed(c)
    requires b.at(p) == None
    ensures PositionScore(Set(b, p, m), c) == PositionScore(b, c) + Entry(c, m, p)
  {
    var b' := Set(b, p, m);
    var g := q => PlacementTerm(c, b.at(q), q);
    var h := q => PlacementTerm(c, b'.at(q), q);
    forall q: Pos | q != p ensures h(q) == g(q) {
      assert b'.at(q) == b.at(q);
    }
    SumPoint(g, h, p);
    assert g(p) == 0.0;
    assert h(p) == PlacementTerm(c, Some(m), p);
    PlacementTermEntry(c, m, p);
  }

  /** The starting layout scores zero whatever the tables hold. */
  lemma PositionScoreInitial(b: Board, c: Chromosome)
    requires WellFormed(c)
    requires IsInitial(b)
    ensures PositionScore(b, c) == 0.0
  {
    var g := p => PlacementTerm(c, SwapMirror(b).at(p), p);
    var h := p => PlacementTerm(c, b.at(p), p);
    forall p: Pos ensures g(p) == h(p) {
      InitialSymmetric(b, p);
    }
    Congruent(g, h);
    PositionScoreSwapMirror(b, c);
  }
}
