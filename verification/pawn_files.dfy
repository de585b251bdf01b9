/** The two pawn-structure features of `ai_controller` that count pawns file
    by file: `compute_doubled_pawn_score` (a map from file to pawn count) and
    `compute_isolated_pawn_score` (the list of files holding a pawn). Both
    are scored for one side, `white`, and are never positive. */
module PawnFiles {
  import opened Wrappers
  import opened Geometry
  import opened Pieces
  import opened Board
  import opened Folds
  import opened Mirror
  import opened Features

  /** How many of `white`'s pawns stand on file f. */
  function FilePawns(b: Board, white: bool, f: Coord): int
  {
    Tally((r: Coord) => if Holds(b.at(Pos(r, f)), Pawn, white) then 1 else 0, 1)
  }

  lemma FilePawnsBounds(b: Board, white: bool, f: Coord)
    ensures 0 <= FilePawns(b, white, f) <= 8
  {
    var g := (r: Coord) => if Holds(b.at(Pos(r, f)), Pawn, white) then 1 else 0;
    TallyNonNegative(g, 1);
    TallyMonotone(g, (x: Coord) => 1, 1);
    TallyExpand((x: Coord) => 1);
  }

  /** `white`'s pawns, counted file by file. */
  function PawnTotal(b: Board, white: bool): int
  {
    Tally((f: Coord) => FilePawns(b, white, f), 1)
  }

  /** The number of files holding at least one of `white`'s pawns. */
  function PawnFileCount(b: Board, white: bool): int
  {
    Tally((f: Coord) => if FilePawns(b, white, f) > 0 then 1 else 0, 1)
  }

  // --------------------------------------------------------------- doubled

  /** The penalty one file's count earns: every pawn beyond the first. */
  function Excess(n: int): int
  {
    if n > 1 then n - 1 else 0
  }

  /** `compute_doubled_pawn_score`. */
  function DoubledPawns(b: Board, white: bool): int
  {
    -Tally((f: Coord) => Excess(FilePawns(b, white, f)), 1)
  }

  /** Per file, the penalty is the count less one if the file holds a pawn. */
  lemma ExcessPerFile(b: Board, white: bool)
    ensures forall f: Coord ::
      0 <= Excess(FilePawns(b, white, f)) == FilePawns(b, white, f) - (if FilePawns(b, white, f) > 0 then 1 else 0)
  {
    forall f: Coord ensures 0 <= FilePawns(b, white, f) {
      FilePawnsBounds(b, white, f);
    }
  }

  /** The penalty is minus the number of pawns that share their file with
      an earlier one: pawns minus files holding pawns. */
  lemma DoubledPawnsCount(b: Board, white: bool)
    ensures DoubledPawns(b, white) == -(PawnTotal(b, white) - PawnFileCount(b, white))
    ensures DoubledPawns(b, white) <= 0
  {
    var n := (f: Coord) => FilePawns(b, white, f);
    var one := (f: Coord) => if FilePawns(b, white, f) > 0 then 1 else 0;
    var e := (f: Coord) => Excess(FilePawns(b, white, f));
    ExcessPerFile(b, white);
    TallyDiff(n, one, e, 1);
    TallyNonNegative(e, 1);
  }

  // -------------------------------------------------------------- isolated

  predicate HasPawns(b: Board, white: bool, f: int)
  {
    1 <= f <= 8 && FilePawns(b, white, f) > 0
  }

  /** A pawn file with no pawn file on either side; off-board neighbours
      count as empty. */
  predicate IsolatedFile(b: Board, white: bool, f: Coord)
  {
    HasPawns(b, white, f) && !HasPawns(b, white, f - 1) && !HasPawns(b, white, f + 1)
  }

  /** `compute_isolated_pawn_score`: minus one per isolated pawn file (not per
      pawn: `pawn_files` holds each file once). */
  function IsolatedPawns(b: Board, white: bool): int
  {
    -Tally((f: Coord) => if IsolatedFile(b, white, f) then 1 else 0, 1)
  }

  /** At most one point per pawn file, never a bonus. */
  lemma IsolatedPawnsBounds(b: Board, white: bool)
    ensures -PawnFileCount(b, white) <= IsolatedPawns(b, white) <= 0
  {
    var i := (f: Coord) => if IsolatedFile(b, white, f) then 1 else 0;
    var one := (f: Coord) => if FilePawns(b, white, f) > 0 then 1 else 0;
    forall f: Coord ensures 0 <= i(f) <= one(f) {
    }
    TallyNonNegative(i, 1);
    TallyMonotone(i, one, 1);
  }

  // ------------------------------------------------------------- symmetry

  /** Mirroring reverses each file, which keeps its count. */
  lemma FilePawnsSwapMirror(b: Board, white: bool, f: Coord)
    ensures FilePawns(SwapMirror(b), white, f) == FilePawns(b, !white, f)
  {
    var g := (r: Coord) => if Holds(b.at(Pos(r, f)), Pawn, !white) then 1 else 0;
    var h := (r: Coord) => if Holds(SwapMirror(b).at(Pos(r, f)), Pawn, white) then 1 else 0;
    forall x: Coord ensures h(x) == g(9 - x) {
      assert MirrorVertically(Pos(x, f)) == Pos(9 - x, f);
      assert SwapMirror(b).at(Pos(x, f)) == Flip(b.at(Pos(9 - x, f)));
    }
    TallyReversed(g, h);
  }

  lemma HasPawnsSwapMirror(b: Board, white: bool)
    ensures forall f: int :: HasPawns(SwapMirror(b), white, f) == HasPawns(b, !white, f)
  {
    forall f: int ensures HasPawns(SwapMirror(b), white, f) == HasPawns(b, !white, f) {
      if 1 <= f <= 8 {
        FilePawnsSwapMirror(b, white, f);
      }
    }
  }

  lemma TallySame(g: Coord -> int, h: Coord -> int)
    requires forall x: Coord :: g(x) == h(x)
    ensures Tally(g, 1) == Tally(h, 1)
  {
    TallyMonotone(g, h, 1);
    TallyMonotone(h, g, 1);
  }

  /** Both penalties score the mirror image for one side as the original for
      the other: mirroring moves no pawn to another file. */
  lemma DoubledPawnsSwapMirror(b: Board, white: bool)
    ensures DoubledPawns(SwapMirror(b), white) == DoubledPawns(b, !white)
  {
    var g := (f: Coord) => Excess(FilePawns(SwapMirror(b), white, f));
    var h := (f: Coord) => Excess(FilePawns(b, !white, f));
    forall f: Coord ensures g(f) == h(f) {
      FilePawnsSwapMirror(b, white, f);
    }
    TallySame(g, h);
  }

  lemma IsolatedPawnsSwapMirror(b: Board, white: bool)
    ensures IsolatedPawns(SwapMirror(b), white) == IsolatedPawns(b, !white)
  {
    var g := (f: Coord) => if IsolatedFile(SwapMirror(b), white, f) then 1 else 0;
    var h := (f: Coord) => if IsolatedFile(b, !white, f) then 1 else 0;
    HasPawnsSwapMirror(b, white);
    TallySame(g, h);
  }

  // --------------------------------------------------------- start position

  /** One pawn on every file at the start. */
  lemma InitialFilePawns(b: Board, white: bool, f: Coord)
    requires IsInitial(b)
    ensures FilePawns(b, white, f) == 1
  {
    var g := (r: Coord) => if Holds(b.at(Pos(r, f)), Pawn, white) then 1 else 0;
    forall r: Coord ensures g(r) == if r == PawnStart(white) then 1 else 0 {
      assert b.at(Pos(r, f)) == InitialMan(Pos(r, f));
    }
    TallyExpand(g);
  }

  lemma InitialHasPawns(b: Board, white: bool)
    requires IsInitial(b)
    ensures forall f: int :: HasPawns(b, white, f) <==> 1 <= f <= 8
    ensures forall f: Coord :: Excess(FilePawns(b, white, f)) == 0
  {
    forall f: Coord ensures FilePawns(b, white, f) == 1 {
      InitialFilePawns(b, white, f);
    }
  }

  /** Neither penalty applies at the start: one pawn on every file. */
  lemma DoubledPawnsInitial(b: Board, white: bool)
    requires IsInitial(b)
    ensures DoubledPawns(b, white) == 0
  {
    var e := (f: Coord) => Excess(FilePawns(b, white, f));
    InitialHasPawns(b, white);
    TallySame(e, (f: Coord) => 0);
    TallyExpand((f: Coord) => 0);
  }

  lemma IsolatedPawnsInitial(b: Board, white: bool)
    requires IsInitial(b)
    ensures IsolatedPawns(b, white) == 0
  {
    var i := (f: Coord) => if IsolatedFile(b, white, f) then 1 else 0;
    InitialHasPawns(b, white);
    TallySame(i, (f: Coord) => 0);
    TallyExpand((f: Coord) => 0);
  }
}
