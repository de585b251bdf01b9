/** The colour-swapped mirror image of a board: the man on square p moves to
    `mirror_vertically(p)` and changes sides. A chess evaluation that treats
    both sides alike scores the image for one side as it scores the
    original for the other. */
module Mirror {
  import opened Wrappers
  import opened Geometry
  import opened Pieces
  import opened Board
  import opened Folds

  function Flip(m: Option<Man>): Option<Man>
  {
    match m
    case None => None
    case Some(x) => Some(Man(x.name, !x.white))
  }

  function SwapMirror(b: Board): Board
  {
    Board(p => Flip(b.at(MirrorVertically(p))))
  }

  /** Taking the image twice gives the board back. */
  lemma SwapMirrorInvolution(b: Board, p: Pos)
    ensures SwapMirror(SwapMirror(b)).at(p) == b.at(p)
  {
    MirrorInvolution(p);
  }

  /** A board holding the starting layout. */
  ghost predicate IsInitial(b: Board)
  {
    forall p :: b.at(p) == InitialMan(p)
  }

  lemma NewBoardIsInitial()
    ensures IsInitial(NewBoard(false))
  {
    forall p ensures NewBoard(false).at(p) == InitialMan(p) {
      NewBoardLayout(p);
    }
  }

  /** The starting layout is its own colour-swapped mirror image. */
  lemma InitialSymmetric(b: Board, p: Pos)
    requires IsInitial(b)
    ensures SwapMirror(b).at(p) == b.at(p)
  {
    var q := MirrorVertically(p);
    assert b.at(q) == InitialMan(q);
    assert b.at(p) == InitialMan(p);
  }

  /** A board sum read through `mirror_vertically` is the same sum. */
  lemma SumMirrored(g: Pos -> real, h: Pos -> real)
    requires forall p: Pos :: h(p) == g(MirrorVertically(p))
    ensures Sum(h) == Sum(g)
  {
    forall p: Pos ensures h(p) == g(Pos(9 - p.rank, p.file)) {
      assert MirrorVertically(p) == Pos(9 - p.rank, p.file);
    }
    Mirrored(g, h);
  }
}
