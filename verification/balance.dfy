/** `material_balance` (genetic_algorithms_python/Smarter_GA.py) and its twin
    `material_score` (GA_random_moves.py): the men of each non-king kind
    counted per side and weighted pawn 1, knight 3, bishop 3, rook 5,
    queen 9, white's counting for and black's against. */
module Balance {
  import opened Wrappers
  import opened Geometry
  import opened Pieces
  import opened Board
  import opened Folds
  import opened Chromosomes
  import opened Mirror
  import opened Features

  /** The kinds the material table lists, in its order. */
  const Weighed: seq<Name> := [Pawn, Knight, Bishop, Rook, Queen]

  /** A kind's value times d, written kind by kind so that the sums stay
      linear. */
  function Weigh(n: Name, d: real): real
  {
    match n
    case Pawn => d
    case Knight => 3.0 * d
    case Bishop => 3.0 * d
    case Rook => 5.0 * d
    case Queen => 9.0 * d
    case King => 0.0
  }

  lemma WeighValue(n: Name, d: real)
    ensures Weigh(n, d) == Value(n) as real * d
  {
  }

  /** The table's sum over kinds ns, given each kind's count per side. */
  function BalanceOf(count: (Name, bool) -> real, ns: seq<Name>): real
  {
    if |ns| == 0 then 0.0
    else Weigh(ns[0], count(ns[0], true) - count(ns[0], false)) + BalanceOf(count, ns[1..])
  }

  /** Each kind's count per side on board b. */
  function Counts(b: Board): (Name, bool) -> real
  {
    (n, white) => Count(b, n, white)
  }

  function MaterialBalance(b: Board): real
  {
    BalanceOf(Counts(b), Weighed)
  }

  /** A man's signed worth: his value, counted against black. */
  function Signed(k: Name, w: bool): real
  {
    if w then Value(k) as real else -(Value(k) as real)
  }

  /** What one more man of kind k for side w adds to the sum over ns: his
      signed worth for every time ns lists k. */
  function Share(k: Name, w: bool, ns: seq<Name>): real
  {
    if |ns| == 0 then 0.0 else (if ns[0] == k then Signed(k, w) else 0.0) + Share(k, w, ns[1..])
  }

  lemma TermAddOne(n: Name, k: Name, w: bool, x1: real, y1: real, x2: real, y2: real)
    requires x2 == x1 + (if n == k && w then 1.0 else 0.0)
    requires y2 == y1 + (if n == k && !w then 1.0 else 0.0)
    ensures Weigh(n, x2 - y2) == Weigh(n, x1 - y1) + (if n == k then Signed(k, w) else 0.0)
  {
  }

  lemma {:induction false} BalanceOfAddOne(c1: (Name, bool) -> real, c2: (Name, bool) -> real, ns: seq<Name>, k: Name, w: bool)
    requires forall n, white :: c2(n, white) == c1(n, white) + (if n == k && white == w then 1.0 else 0.0)
    ensures BalanceOf(c2, ns) == BalanceOf(c1, ns) + Share(k, w, ns)
  {
    if |ns| > 0 {
      var n := ns[0];
      BalanceOfAddOne(c1, c2, ns[1..], k, w);
      TermAddOne(n, k, w, c1(n, true), c1(n, false), c2(n, true), c2(n, false));
    }
  }

  /** The material table lists every kind but the king once. */
  lemma ShareWeighed(k: Name, w: bool)
    ensures Share(k, w, Weighed) == Signed(k, w)
  {
    var s := Signed(k, w);
    assert Share(k, w, []) == 0.0;
    assert Share(k, w, [Queen]) == (if k == Queen then s else 0.0);
    assert Share(k, w, [Rook, Queen]) == (if k == Rook || k == Queen then s else 0.0);
    assert Share(k, w, [Bishop, Rook, Queen]) == (if k == Bishop || k == Rook || k == Queen then s else 0.0);
    assert Share(k, w, [Knight, Bishop, Rook, Queen]) == (if k != Pawn && k != King then s else 0.0);
    assert Share(k, w, Weighed) == (if k != King then s else 0.0);
  }

  /** So one more man moves the table's sum by his signed worth. */
  lemma WeighedAddOne(c1: (Name, bool) -> real, c2: (Name, bool) -> real, k: Name, w: bool)
    requires forall n, white :: c2(n, white) == c1(n, white) + (if n == k && white == w then 1.0 else 0.0)
    ensures BalanceOf(c2, Weighed) == BalanceOf(c1, Weighed) + Signed(k, w)
  {
    BalanceOfAddOne(c1, c2, Weighed, k, w);
    ShareWeighed(k, w);
  }

  /** Swapping the sides' counts negates the sum. */
  lemma {:induction false} BalanceOfSwap(c1: (Name, bool) -> real, c2: (Name, bool) -> real, ns: seq<Name>)
    requires forall n, white :: c2(n, white) == c1(n, !white)
    ensures BalanceOf(c2, ns) == -BalanceOf(c1, ns)
  {
    if |ns| > 0 {
      BalanceOfSwap(c1, c2, ns[1..]);
    }
  }

  /** Equal counts on both sides sum to zero. */
  lemma {:induction false} BalanceOfLevel(c: (Name, bool) -> real, ns: seq<Name>)
    requires forall n :: c(n, true) == c(n, false)
    ensures BalanceOf(c, ns) == 0.0
  {
    if |ns| > 0 {
      BalanceOfLevel(c, ns[1..]);
    }
  }

  /** Putting a man on an empty square raises his kind's count for his side
      by one and leaves every other count alone. */
  lemma CountPlace(b: Board, p: Pos, m: Man, n: Name, white: bool)
    requires b.at(p) == None
    ensures Count(Set(b, p, m), n, white) == Count(b, n, white) + (if m == Man(n, white) then 1.0 else 0.0)
  {
    var g := q => if Holds(b.at(q), n, white) then 1.0 else 0.0;
    var b' := Set(b, p, m);
    var h := q => if Holds(b'.at(q), n, white) then 1.0 else 0.0;
    forall q: Pos | q != p ensures h(q) == g(q) {
      assert b'.at(q) == b.at(q);
    }
    SumPoint(g, h, p);
    assert g(p) == 0.0;
  }

  lemma CountsPlace(b: Board, p: Pos, m: Man)
    requires b.at(p) == None
    ensures forall n, white :: Counts(Set(b, p, m))(n, white) == Counts(b)(n, white) + (if n == m.name && white == m.white then 1.0 else 0.0)
  {
    forall n, white ensures Count(Set(b, p, m), n, white) == Count(b, n, white) + (if n == m.name && white == m.white then 1.0 else 0.0) {
      CountPlace(b, p, m, n, white);
    }
  }

  /** A man added to an empty square moves the balance by his value, up for
      white and down for black; a king, worth nothing, moves it not at
      all. */
  lemma MaterialBalancePlace(b: Board, p: Pos, m: Man)
    requires b.at(p) == None
    ensures MaterialBalance(Set(b, p, m)) == MaterialBalance(b) + Signed(m.name, m.white)
    ensures m.name == King ==> MaterialBalance(Set(b, p, m)) == MaterialBalance(b)
  {
    CountsPlace(b, p, m);
    WeighedAddOne(Counts(b), Counts(Set(b, p, m)), m.name, m.white);
  }

  /** Swapping the colours and mirroring the board negates the balance. */
  lemma MaterialBalanceSwapMirror(b: Board)
    ensures MaterialBalance(SwapMirror(b)) == -MaterialBalance(b)
  {
    forall n, white ensures Counts(SwapMirror(b))(n, white) == Counts(b)(n, !white) {
      CountSwapMirror(b, n, white);
    }
    BalanceOfSwap(Counts(b), Counts(SwapMirror(b)), Weighed);
  }

  /** The starting position is level. */
  lemma MaterialBalanceInitial(b: Board)
    requires IsInitial(b)
    ensures MaterialBalance(b) == 0.0
  {
    forall n ensures Counts(b)(n, true) == Counts(b)(n, false) {
      CountInitialEqual(b, n);
    }
    BalanceOfLevel(Counts(b), Weighed);
  }
}
