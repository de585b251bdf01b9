/** The board-only features of `ai_controller` (game/controllers/src/ai_controller.cpp)
    that are sums over the 64 squares: material, development, connected and
    passed pawns, and the bishop pair. Each is scored for one side, `white`.
    The C++ accumulates in `float`; here the sums are exact reals. */
module Features {
  import opened Wrappers
  import opened Geometry
  import opened Pieces
  import opened Board
  import opened Folds
  import opened Chromosomes
  import opened Mirror

  predicate Holds(m: Option<Man>, n: Name, white: bool)
  {
    m == Some(Man(n, white))
  }

  /** How many men of kind n and colour `white` stand on the board. */
  function Count(b: Board, n: Name, white: bool): real
  {
    Sum(p => if Holds(b.at(p), n, white) then 1.0 else 0.0)
  }

  /** Each colour-swapped mirror square holds the same kind for the other side. */
  lemma CountSwapMirror(b: Board, n: Name, white: bool)
    ensures Count(SwapMirror(b), n, white) == Count(b, n, !white)
  {
    var g := p => if Holds(b.at(p), n, !white) then 1.0 else 0.0;
    var h := p => if Holds(SwapMirror(b).at(p), n, white) then 1.0 else 0.0;
    forall p: Pos ensures h(p) == g(MirrorVertically(p)) {
      assert SwapMirror(b).at(p) == Flip(b.at(MirrorVertically(p)));
    }
    SumMirrored(g, h);
  }

  lemma CountInitialEqual(b: Board, n: Name)
    requires IsInitial(b)
    ensures Count(b, n, true) == Count(b, n, false)
  {
    forall p ensures SwapMirror(b).at(p) == b.at(p) {
      InitialSymmetric(b, p);
    }
    Congruent(p => if Holds(SwapMirror(b).at(p), n, true) then 1.0 else 0.0,
              p => if Holds(b.at(p), n, true) then 1.0 else 0.0);
    CountSwapMirror(b, n, true);
  }

  // ------------------------------------------------------------- material

  function MaterialTerm(m: Option<Man>, white: bool, bonus: real): real
  {
    match m
    case None => 0.0
    case Some(x) =>
      var v := Value(x.name) as real * bonus;
      if x.white == white then v else -v
  }

  /** `compute_material_score`: every man adds its value times the material
      weight when it belongs to `white`'s side and subtracts it otherwise. */
  function Material(b: Board, white: bool, bonus: real): real
  {
    Sum(p => MaterialTerm(b.at(p), white, bonus))
  }

  /** The two sides' material scores are opposite. */
  lemma MaterialAntisymmetric(b: Board, bonus: real)
    ensures Material(b, true, bonus) == -Material(b, false, bonus)
  {
    var g := p => MaterialTerm(b.at(p), false, bonus);
    var h := p => MaterialTerm(b.at(p), true, bonus);
    forall p: Pos ensures h(p) == -g(p) {
      assert h(p) == MaterialTerm(b.at(p), true, bonus);
      assert g(p) == MaterialTerm(b.at(p), false, bonus);
    }
    Negated(g, h);
  }

  function WithoutKing(m: Option<Man>): Option<Man>
  {
    if m.Some? && m.value.name == King then None else m
  }

  lemma KingTermZero(m: Option<Man>, white: bool, bonus: real)
    ensures MaterialTerm(m, white, bonus) == MaterialTerm(WithoutKing(m), white, bonus)
  {
    if m.Some? && m.value.name == King {
      assert Value(King) as real == 0.0;
      assert 0.0 * bonus == 0.0;
    }
  }

  /** Kings are worth nothing: boards that differ only in their kings score alike. */
  lemma MaterialIgnoresKings(b1: Board, b2: Board, white: bool, bonus: real)
    requires forall p :: WithoutKing(b1.at(p)) == WithoutKing(b2.at(p))
    ensures Material(b1, white, bonus) == Material(b2, white, bonus)
  {
    forall p ensures MaterialTerm(b1.at(p), white, bonus) == MaterialTerm(b2.at(p), white, bonus) {
      KingTermZero(b1.at(p), white, bonus);
      KingTermZero(b2.at(p), white, bonus);
    }
    Congruent(p => MaterialTerm(b1.at(p), white, bonus), p => MaterialTerm(b2.at(p), white, bonus));
  }

  lemma MaterialSwapMirror(b: Board, white: bool, bonus: real)
    ensures Material(SwapMirror(b), white, bonus) == Material(b, !white, bonus)
  {
    var g := p => MaterialTerm(b.at(p), !white, bonus);
    var h := p => MaterialTerm(SwapMirror(b).at(p), white, bonus);
    forall p: Pos ensures h(p) == g(MirrorVertically(p)) {
      assert SwapMirror(b).at(p) == Flip(b.at(MirrorVertically(p)));
    }
    SumMirrored(g, h);
  }

  /** Material is level in the starting position. */
  lemma MaterialInitial(b: Board, white: bool, bonus: real)
    requires IsInitial(b)
    ensures Material(b, white, bonus) == 0.0
  {
    forall p ensures SwapMirror(b).at(p) == b.at(p) {
      InitialSymmetric(b, p);
    }
    Congruent(p => MaterialTerm(SwapMirror(b).at(p), white, bonus), p => MaterialTerm(b.at(p), white, bonus));
    MaterialSwapMirror(b, white, bonus);
    MaterialAntisymmetric(b, bonus);
  }

  /** `evaluate_position` multiplies the material score by the material weight
      once more, so a square's contribution carries the weight squared. */
  lemma MaterialWeightSquared(m: Option<Man>, white: bool, w: real)
    ensures MaterialTerm(m, white, w) * w == MaterialTerm(m, white, 1.0) * (w * w)
  {
    if m.Some? {
      var v := Value(m.value.name) as real;
      assert (v * w) * w == v * (w * w);
      assert (-(v * w)) * w == -v * (w * w);
    }
  }

  // ---------------------------------------------------------- development

  function PawnStart(white: bool): Coord
  {
    if white then 2 else 7
  }

  function PieceStart(white: bool): Coord
  {
    if white then 1 else 8
  }

  function DevelopmentTerm(m: Option<Man>, white: bool, p: Pos): real
  {
    match m
    case None => 0.0
    case Some(x) =>
      if x.white != white then 0.0
      else if x.name == Pawn then (if p.rank != PawnStart(white) then 0.5 else 0.0)
      else if p.rank != PieceStart(white) then 1.0 else 0.0
  }

  /** `compute_development_speed`: half a point for every own pawn off its
      starting rank, a point for every other own man off its back rank. The
      source reads the rank a piece stores; here it is the rank of the
      square the man stands on, which is the same on a consistent board. */
  function Development(b: Board, white: bool): real
  {
    Sum(p => DevelopmentTerm(b.at(p), white, p))
  }

  /** No man scores more than a point. */
  lemma DevelopmentBounds(b: Board, white: bool)
    ensures 0.0 <= Development(b, white) <= ManCount(b, white)
  {
    var g := p => DevelopmentTerm(b.at(p), white, p);
    var own := p => Own(b.at(p), white);
    forall p: Pos ensures 0.0 <= g(p) <= own(p) {
      assert g(p) == DevelopmentTerm(b.at(p), white, p);
      assert own(p) == Own(b.at(p), white);
    }
    NonNegative(g);
    Monotone(g, own);
  }

  lemma DevelopmentSwapMirror(b: Board, white: bool)
    ensures Development(SwapMirror(b), white) == Development(b, !white)
  {
    var g := p => DevelopmentTerm(b.at(p), !white, p);
    var h := p => DevelopmentTerm(SwapMirror(b).at(p), white, p);
    forall p: Pos ensures h(p) == g(MirrorVertically(p)) {
      var q := MirrorVertically(p);
      assert SwapMirror(b).at(p) == Flip(b.at(q));
      assert q.rank == 9 - p.rank;
    }
    SumMirrored(g, h);
  }

  /** Nothing is developed at the start. */
  lemma DevelopmentInitial(b: Board, white: bool)
    requires IsInitial(b)
    ensures Development(b, white) == 0.0
  {
    var g := p => DevelopmentTerm(b.at(p), white, p);
    forall p: Pos ensures g(p) == 0.0 {
      assert b.at(p) == InitialMan(p);
    }
    ByRank(g, k => 0.0);
  }

  // ------------------------------------------------------- connected pawns

  function Forward(white: bool): int
  {
    if white then 1 else -1
  }

  /** 1 when (r, f) is on the board and holds a man of colour `white`. */
  function Friend(b: Board, white: bool, r: int, f: int): real
  {
    if OnBoard(r, f) && b.at(Pos(r, f)).Some? && b.at(Pos(r, f)).value.white == white then 1.0 else 0.0
  }

  function ConnectedTerm(b: Board, white: bool, p: Pos): real
  {
    if Holds(b.at(p), Pawn, white) then
      Friend(b, white, p.rank + Forward(white), p.file - 1) + Friend(b, white, p.rank + Forward(white), p.file + 1)
    else 0.0
  }

  /** `compute_connected_pawn_score`: for every own pawn, one point for each
      of the two squares diagonally ahead that holds an own man of any kind. */
  function ConnectedPawns(b: Board, white: bool): real
  {
    Sum(p => ConnectedTerm(b, white, p))
  }

  /** At most two points per own pawn. */
  lemma ConnectedPawnsBounds(b: Board, white: bool)
    ensures 0.0 <= ConnectedPawns(b, white) <= 2.0 * Count(b, Pawn, white)
  {
    var g := p => ConnectedTerm(b, white, p);
    var one := p => if Holds(b.at(p), Pawn, white) then 1.0 else 0.0;
    var two := p => one(p) + one(p);
    forall p: Pos ensures 0.0 <= g(p) <= two(p) {
    }
    NonNegative(g);
    Monotone(g, two);
    Add(one, one, two);
  }

  lemma FriendMirror(b: Board, white: bool, r: int, f: int)
    ensures Friend(SwapMirror(b), white, r, f) == Friend(b, !white, 9 - r, f)
  {
    if OnBoard(r, f) {
      assert MirrorVertically(Pos(r, f)) == Pos(9 - r, f);
    }
  }

  lemma ConnectedPawnsSwapMirror(b: Board, white: bool)
    ensures ConnectedPawns(SwapMirror(b), white) == ConnectedPawns(b, !white)
  {
    forall p: Pos ensures ConnectedTerm(SwapMirror(b), white, p) == ConnectedTerm(b, !white, MirrorVertically(p)) {
      var q := MirrorVertically(p);
      FriendMirror(b, white, p.rank + Forward(white), p.file - 1);
      FriendMirror(b, white, p.rank + Forward(white), p.file + 1);
      assert 9 - (p.rank + Forward(white)) == q.rank + Forward(!white);
    }
    SumMirrored(p => ConnectedTerm(b, !white, p), p => ConnectedTerm(SwapMirror(b), white, p));
  }

  /** No pawn is connected at the start: the squares diagonally ahead of
      every pawn are on an empty rank. */
  lemma ConnectedPawnsInitial(b: Board, white: bool)
    requires IsInitial(b)
    ensures ConnectedPawns(b, white) == 0.0
  {
    var g := p => ConnectedTerm(b, white, p);
    forall p: Pos ensures g(p) == 0.0 {
      assert b.at(p) == InitialMan(p);
      if Holds(b.at(p), Pawn, white) {
        var r := p.rank + Forward(white);
        assert 3 <= r <= 6;
        if OnBoard(r, p.file - 1) {
          assert b.at(Pos(r, p.file - 1)) == InitialMan(Pos(r, p.file - 1));
        }
        if OnBoard(r, p.file + 1) {
          assert b.at(Pos(r, p.file + 1)) == InitialMan(Pos(r, p.file + 1));
        }
      }
    }
    ByRank(g, k => 0.0);
  }

  // ---------------------------------------------------------- passed pawns

  /** The inner loop of `compute_passed_pawn_score`: walking `file` from rank
      j away from `white`'s side, is there an enemy pawn? */
  function EnemyPawnAhead(b: Board, white: bool, file: Coord, j: int): bool
    requires 0 <= j <= 9
    decreases if white then 9 - j else j
  {
    if j < 1 || j > 8 then false
    else Holds(b.at(Pos(j, file)), Pawn, !white) || EnemyPawnAhead(b, white, file, j + Forward(white))
  }

  /** Ahead of rank r, from `white`'s point of view. */
  predicate Beyond(white: bool, r: int, j: int)
  {
    if white then j > r else j < r
  }

  ghost predicate Blocked(b: Board, white: bool, p: Pos)
  {
    exists j: Coord :: Beyond(white, p.rank, j) && Holds(b.at(Pos(j, p.file)), Pawn, !white)
  }

  lemma {:induction false} EnemyPawnAheadFrom(b: Board, white: bool, file: Coord, j: int)
    requires if white then 1 <= j <= 9 else 0 <= j <= 8
    ensures EnemyPawnAhead(b, white, file, j) <==>
            exists k: Coord :: (k == j || Beyond(white, j, k)) && Holds(b.at(Pos(k, file)), Pawn, !white)
    decreases if white then 9 - j else j
  {
    if 1 <= j <= 8 {
      EnemyPawnAheadFrom(b, white, file, j + Forward(white));
      if EnemyPawnAhead(b, white, file, j + Forward(white)) {
        var k: Coord :| (k == j + Forward(white) || Beyond(white, j + Forward(white), k)) && Holds(b.at(Pos(k, file)), Pawn, !white);
        assert Beyond(white, j, k);
      }
      if exists k: Coord :: (k == j || Beyond(white, j, k)) && Holds(b.at(Pos(k, file)), Pawn, !white) {
        var k: Coord :| (k == j || Beyond(white, j, k)) && Holds(b.at(Pos(k, file)), Pawn, !white);
        if k != j {
          assert k == j + Forward(white) || Beyond(white, j + Forward(white), k);
        }
      }
    } else {
      forall k: Coord ensures !(k == j || Beyond(white, j, k)) {
      }
    }
  }

  /** The scan finds an enemy pawn exactly when one stands ahead of the pawn on its file. */
  lemma ScanFindsBlocker(b: Board, white: bool, p: Pos)
    ensures EnemyPawnAhead(b, white, p.file, p.rank + Forward(white)) <==> Blocked(b, white, p)
  {
    EnemyPawnAheadFrom(b, white, p.file, p.rank + Forward(white));
    if Blocked(b, white, p) {
      var k: Coord :| Beyond(white, p.rank, k) && Holds(b.at(Pos(k, p.file)), Pawn, !white);
      assert k == p.rank + Forward(white) || Beyond(white, p.rank + Forward(white), k);
    }
  }

  function PassedTerm(b: Board, white: bool, p: Pos): real
  {
    if Holds(b.at(p), Pawn, white) && !EnemyPawnAhead(b, white, p.file, p.rank + Forward(white)) then 1.0 else 0.0
  }

  /** `compute_passed_pawn_score`: one point for every own pawn with no
      enemy pawn ahead of it on its own file. */
  function PassedPawns(b: Board, white: bool): real
  {
    Sum(p => PassedTerm(b, white, p))
  }

  lemma PassedPawnsBounds(b: Board, white: bool)
    ensures 0.0 <= PassedPawns(b, white) <= Count(b, Pawn, white)
  {
    var g := p => PassedTerm(b, white, p);
    var one := p => if Holds(b.at(p), Pawn, white) then 1.0 else 0.0;
    forall p: Pos ensures 0.0 <= g(p) <= one(p) {
    }
    NonNegative(g);
    Monotone(g, one);
  }

  lemma {:induction false} ScanIgnoresOtherFiles(b: Board, white: bool, file: Coord, j: int, q: Pos, m: Man)
    requires 0 <= j <= 9
    requires q.file != file
    ensures EnemyPawnAhead(Set(b, q, m), white, file, j) == EnemyPawnAhead(b, white, file, j)
    decreases if white then 9 - j else j
  {
    if 1 <= j <= 8 {
      ScanIgnoresOtherFiles(b, white, file, j + Forward(white), q, m);
    }
  }

  /** Adjacent files are not looked at: putting any man, an enemy pawn
      included, on another file leaves a pawn's passed status as it was. */
  lemma PassedIgnoresOtherFiles(b: Board, white: bool, p: Pos, q: Pos, m: Man)
    requires q.file != p.file
    ensures PassedTerm(Set(b, q, m), white, p) == PassedTerm(b, white, p)
  {
    ScanIgnoresOtherFiles(b, white, p.file, p.rank + Forward(white), q, m);
  }

  lemma {:induction false} ScanMirror(b: Board, white: bool, file: Coord, j: int)
    requires 0 <= j <= 9
    ensures EnemyPawnAhead(SwapMirror(b), white, file, j) == EnemyPawnAhead(b, !white, file, 9 - j)
    decreases if white then 9 - j else j
  {
    if 1 <= j <= 8 {
      assert MirrorVertically(Pos(j, file)) == Pos(9 - j, file);
      ScanMirror(b, white, file, j + Forward(white));
      assert 9 - (j + Forward(white)) == (9 - j) + Forward(!white);
    }
  }

  lemma PassedPawnsSwapMirror(b: Board, white: bool)
    ensures PassedPawns(SwapMirror(b), white) == PassedPawns(b, !white)
  {
    forall p: Pos ensures PassedTerm(SwapMirror(b), white, p) == PassedTerm(b, !white, MirrorVertically(p)) {
      var q := MirrorVertically(p);
      ScanMirror(b, white, p.file, p.rank + Forward(white));
      assert 9 - (p.rank + Forward(white)) == q.rank + Forward(!white);
    }
    SumMirrored(p => PassedTerm(b, !white, p), p => PassedTerm(SwapMirror(b), white, p));
  }

  // ----------------------------------------------------------- bishop pair

  /** `compute_bishop_pair_score` as written: the guard `colour() && colour()
      == white` only ever counts white bishops. */
  function BishopPairAsWritten(b: Board, white: bool): real
  {
    var n := Sum(p => if b.at(p).Some? && b.at(p).value.white && b.at(p).value.white == white && b.at(p).value.name == Bishop then 1.0 else 0.0);
    if n > 1.0 then 1.0 else 0.0
  }

  /** Black never earns the bonus, whatever the board. */
  lemma BishopPairBlackIgnored(b: Board)
    ensures BishopPairAsWritten(b, false) == 0.0
  {
    ByRank(p => if b.at(p).Some? && b.at(p).value.white && b.at(p).value.white == false && b.at(p).value.name == Bishop then 1.0 else 0.0, k => 0.0);
  }

  /** The bonus as evidently intended: one point when `white`'s side keeps
      both bishops. */
  function BishopPair(b: Board, white: bool): real
  {
    if Count(b, Bishop, white) > 1.0 then 1.0 else 0.0
  }

  /** For white the code as written already scores as intended. */
  lemma BishopPairWhiteAgrees(b: Board)
    ensures BishopPairAsWritten(b, true) == BishopPair(b, true)
  {
    var g := p => if b.at(p).Some? && b.at(p).value.white && b.at(p).value.white == true && b.at(p).value.name == Bishop then 1.0 else 0.0;
    var h := p => if Holds(b.at(p), Bishop, true) then 1.0 else 0.0;
    forall p: Pos ensures g(p) == h(p) {
      if b.at(p).Some? {
        assert Holds(b.at(p), Bishop, true) <==> b.at(p).value == Man(Bishop, true);
      }
    }
    Congruent(g, h);
  }

  lemma BishopPairSwapMirror(b: Board, white: bool)
    ensures BishopPair(SwapMirror(b), white) == BishopPair(b, !white)
  {
    CountSwapMirror(b, Bishop, white);
  }

  lemma InitialBishops(b: Board)
    requires IsInitial(b)
    ensures Count(b, Bishop, true) == 2.0
  {
    var g := p => if Holds(b.at(p), Bishop, true) then 1.0 else 0.0;
    forall p: Pos | p.rank != 1 ensures g(p) == 0.0 {
      assert b.at(p) == InitialMan(p);
    }
    assert forall f: Coord :: b.at(Pos(1, f)) == InitialMan(Pos(1, f));
    RowExpand(g, 1);
    OnlyRank(g, 1);
  }

  /** In the starting position both sides hold the pair, yet only white is
      credited by the code as written. */
  lemma BishopPairInitial(b: Board)
    requires IsInitial(b)
    ensures BishopPair(b, true) == 1.0 && BishopPair(b, false) == 1.0
    ensures BishopPairAsWritten(b, true) == 1.0 && BishopPairAsWritten(b, false) == 0.0
  {
    InitialBishops(b);
    CountInitialEqual(b, Bishop);
    BishopPairWhiteAgrees(b);
    BishopPairBlackIgnored(b);
  }
}
