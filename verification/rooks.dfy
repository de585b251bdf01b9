/** `compute_connected_rooks_score` (game/controllers/src/ai_controller.cpp):
    collect `white`'s rooks in rank-major order, then score one point for
    every pair (i, j), i < j, that shares a rank or a file with nothing in
    between. The walk between two rooks steps one square at a time towards
    the second. */
module Rooks {
  import opened Wrappers
  import opened Geometry
  import opened Pieces
  import opened Board
  import opened Mirror
  import opened Features

  /** Square p comes before q in the scan: ranks outer, files inner. */
  predicate ScanBefore(p: Pos, q: Pos)
  {
    p.rank < q.rank || (p.rank == q.rank && p.file < q.file)
  }

  predicate ScanOrdered(s: seq<Pos>)
  {
    forall i, j :: 0 <= i < j < |s| ==> ScanBefore(s[i], s[j])
  }

  /** The rook list the first loop builds: exactly `white`'s rooks, in scan
      order. */
  ghost predicate IsRookList(b: Board, white: bool, rooks: seq<Pos>)
  {
    ScanOrdered(rooks) && forall p :: p in rooks <==> Holds(b.at(p), Rook, white)
  }

  /** Two lists in scan order with the same members are the same list. */
  lemma {:induction false} ScanOrderedUnique(s: seq<Pos>, t: seq<Pos>)
    requires ScanOrdered(s) && ScanOrdered(t)
    requires forall p :: p in s <==> p in t
    ensures s == t
    decreases |s|
  {
    assert |s| > 0 ==> s[0] in t;
    assert |t| > 0 ==> t[0] in s;
    if |s| > 0 && |t| > 0 {
      var i :| 0 <= i < |t| && t[i] == s[0];
      var j :| 0 <= j < |s| && s[j] == t[0];
      if i != 0 && j != 0 {
        assert false;
      }
      assert s[0] == t[0];
      forall p ensures p in s[1..] <==> p in t[1..] {
        if p in s[1..] {
          var i :| 1 <= i < |s| && s[i] == p;
          assert ScanBefore(s[0], p);
          assert p in s && p in t;
          var k :| 0 <= k < |t| && t[k] == p;
          assert t[1..][k - 1] == p;
        }
        if p in t[1..] {
          var i :| 1 <= i < |t| && t[i] == p;
          assert ScanBefore(t[0], p);
          assert p in t && p in s;
          var k :| 0 <= k < |s| && s[k] == p;
          assert s[1..][k - 1] == p;
        }
      }
      ScanOrderedUnique(s[1..], t[1..]);
      assert s == [s[0]] + s[1..];
      assert t == [t[0]] + t[1..];
    }
  }

  /** The first pair of loops: ranks 1 to 8, files 1 to 8 within each. */
  method CollectRooks(b: Board, white: bool) returns (rooks: seq<Pos>)
    ensures IsRookList(b, white, rooks)
  {
    rooks := [];
    var i := 1;
    while i <= 8
      invariant 1 <= i <= 9
      invariant ScanOrdered(rooks)
      invariant forall k :: 0 <= k < |rooks| ==> rooks[k].rank < i
      invariant forall p :: p in rooks <==> (Holds(b.at(p), Rook, white) && p.rank < i)
    {
      var j := 1;
      while j <= 8
        invariant 1 <= j <= 9
        invariant ScanOrdered(rooks)
        invariant forall k :: 0 <= k < |rooks| ==> rooks[k].rank < i || (rooks[k].rank == i && rooks[k].file < j)
        invariant forall p :: p in rooks <==> (Holds(b.at(p), Rook, white) && (p.rank < i || (p.rank == i && p.file < j)))
      {
        var p := Pos(i, j);
        if Holds(b.at(p), Rook, white) {
          rooks := rooks + [p];
        }
        j := j + 1;
      }
      i := i + 1;
    }
  }

  // ----------------------------------------------------------------- walks

  /** The square at coordinate x along a rank (`alongRank`) or a file. */
  function LineSquare(fixed: Coord, x: Coord, alongRank: bool): Pos
  {
    if alongRank then Pos(fixed, x) else Pos(x, fixed)
  }

  /** Coordinates x .. to, to excluded, in either direction. */
  predicate InWalk(x: int, to: int, y: int)
  {
    (x <= y < to) || (to < y <= x)
  }

  /** The inner `for` loop: from x towards `to` in steps of `step`, stopping
      at the first occupied square. */
  function ClearLine(b: Board, fixed: Coord, x: int, to: Coord, step: int, alongRank: bool): bool
    requires (step == 1 && 1 <= x <= to) || (step == -1 && to <= x <= 8)
    decreases if step == 1 then to - x else x - to
  {
    if x == to then true
    else if b.at(LineSquare(fixed, x, alongRank)).Some? then false
    else ClearLine(b, fixed, x + step, to, step, alongRank)
  }

  /** The walk reports clear exactly when every square it passes is empty. */
  lemma {:induction false} ClearLineIff(b: Board, fixed: Coord, x: int, to: Coord, step: int, alongRank: bool)
    requires (step == 1 && 1 <= x <= to) || (step == -1 && to <= x <= 8)
    ensures ClearLine(b, fixed, x, to, step, alongRank) <==>
            forall y: Coord :: InWalk(x, to, y) ==> b.at(LineSquare(fixed, y, alongRank)).None?
    decreases if step == 1 then to - x else x - to
  {
    if x != to && b.at(LineSquare(fixed, x, alongRank)).None? {
      ClearLineIff(b, fixed, x + step, to, step, alongRank);
      forall y: Coord | InWalk(x, to, y) && y != x ensures InWalk(x + step, to, y) {
      }
    }
  }

  /** Strictly between a and c. */
  predicate Between(a: int, c: int, y: int)
  {
    (a < y < c) || (c < y < a)
  }

  /** Two squares see each other along a rank or a file through empty
      squares. */
  predicate Connected(b: Board, p: Pos, q: Pos)
  {
    (p.rank == q.rank && forall f: Coord :: Between(p.file, q.file, f) ==> b.at(Pos(p.rank, f)).None?) ||
    (p.rank != q.rank && p.file == q.file && forall r: Coord :: Between(p.rank, q.rank, r) ==> b.at(Pos(r, p.file)).None?)
  }

  /** The body of the pair loop for rooks on distinct squares p and q: the
      walk starts one step from p and stops before q. */
  function ConnectedAsScanned(b: Board, p: Pos, q: Pos): bool
    requires p != q
  {
    if p.rank == q.rank then
      var step := if p.file < q.file then 1 else -1;
      ClearLine(b, p.rank, p.file + step, q.file, step, true)
    else if p.file == q.file then
      var step := if p.rank < q.rank then 1 else -1;
      ClearLine(b, p.file, p.rank + step, q.rank, step, false)
    else false
  }

  lemma ConnectedAsScannedIff(b: Board, p: Pos, q: Pos)
    requires p != q
    ensures ConnectedAsScanned(b, p, q) <==> Connected(b, p, q)
  {
    if p.rank == q.rank {
      var step := if p.file < q.file then 1 else -1;
      ClearLineIff(b, p.rank, p.file + step, q.file, step, true);
      forall y: Coord ensures InWalk(p.file + step, q.file, y) <==> Between(p.file, q.file, y) {
      }
    } else if p.file == q.file {
      var step := if p.rank < q.rank then 1 else -1;
      ClearLineIff(b, p.file, p.rank + step, q.rank, step, false);
      forall y: Coord ensures InWalk(p.rank + step, q.rank, y) <==> Between(p.rank, q.rank, y) {
      }
    }
  }

  /** Connection does not depend on which rook the walk starts from. */
  lemma ConnectedSymmetric(b: Board, p: Pos, q: Pos)
    requires p != q
    ensures Connected(b, p, q) <==> Connected(b, q, p)
    ensures ConnectedAsScanned(b, p, q) == ConnectedAsScanned(b, q, p)
  {
    ConnectedAsScannedIff(b, p, q);
    ConnectedAsScannedIff(b, q, p);
  }

  // ----------------------------------------------------------------- score

  /** Points for the pairs (i, j), j = j0, j0 + 1, ... */
  function Partners(b: Board, rs: seq<Pos>, i: nat, j: nat): (n: nat)
    requires i < |rs| && i < j
    requires forall k, l :: 0 <= k < l < |rs| ==> rs[k] != rs[l]
    ensures n <= |rs| - j || (j >= |rs| && n == 0)
    decreases |rs| - j
  {
    if j >= |rs| then 0
    else (if ConnectedAsScanned(b, rs[i], rs[j]) then 1 else 0) + Partners(b, rs, i, j + 1)
  }

  /** Points for the pairs whose first rook is i, i + 1, ... */
  function Pairs(b: Board, rs: seq<Pos>, i: nat): nat
    requires forall k, l :: 0 <= k < l < |rs| ==> rs[k] != rs[l]
    decreases |rs| - i
  {
    if i >= |rs| then 0 else Partners(b, rs, i, i + 1) + Pairs(b, rs, i + 1)
  }

  /** No more points than pairs. */
  lemma {:induction false} PairsBound(b: Board, rs: seq<Pos>, i: nat)
    requires forall k, l :: 0 <= k < l < |rs| ==> rs[k] != rs[l]
    requires i <= |rs|
    ensures 2 * Pairs(b, rs, i) <= (|rs| - i) * (|rs| - i - 1)
    decreases |rs| - i
  {
    if i < |rs| {
      PairsBound(b, rs, i + 1);
      var m := |rs| - i - 1;
      assert (|rs| - i) * (|rs| - i - 1) == (m + 1) * m;
      assert (|rs| - i - 1) * (|rs| - i - 2) == m * (m - 1);
      assert (m + 1) * m == 2 * m + m * (m - 1);
    }
  }

  lemma ScanOrderedDistinct(rs: seq<Pos>)
    requires ScanOrdered(rs)
    ensures forall k, l :: 0 <= k < l < |rs| ==> rs[k] != rs[l]
  {
    forall k, l | 0 <= k < l < |rs| ensures rs[k] != rs[l] {
      assert ScanBefore(rs[k], rs[l]);
    }
  }

  /** `compute_connected_rooks_score`: the rook list and the points it
      earns, one per connected pair, at most one per pair. */
  method ConnectedRooksScore(b: Board, white: bool) returns (rooks: seq<Pos>, score: int)
    ensures IsRookList(b, white, rooks)
    ensures forall k, l :: 0 <= k < l < |rooks| ==> rooks[k] != rooks[l]
    ensures score == Pairs(b, rooks, 0)
    ensures 0 <= 2 * score <= |rooks| * (|rooks| - 1)
  {
    rooks := CollectRooks(b, white);
    ScanOrderedDistinct(rooks);
    score := 0;
    var i := 0;
    while i < |rooks|
      invariant 0 <= i <= |rooks|
      invariant score + Pairs(b, rooks, i) == Pairs(b, rooks, 0)
    {
      var j := i + 1;
      while j < |rooks|
        invariant i + 1 <= j <= |rooks|
        invariant score + Partners(b, rooks, i, j) + Pairs(b, rooks, i + 1) == Pairs(b, rooks, 0)
      {
        if ConnectedAsScanned(b, rooks[i], rooks[j]) {
          score := score + 1;
        }
        j := j + 1;
      }
      i := i + 1;
    }
    PairsBound(b, rooks, 0);
  }

  /** In the starting position each side's two rooks share the back rank
      with six men between them: no points. */
  lemma ConnectedRooksInitial(b: Board, white: bool, rooks: seq<Pos>)
    requires IsInitial(b)
    requires IsRookList(b, white, rooks)
    ensures rooks == [Pos(PieceStart(white), 1), Pos(PieceStart(white), 8)]
    ensures Pairs(b, rooks, 0) == 0
  {
    var r := PieceStart(white);
    var expected := [Pos(r, 1), Pos(r, 8)];
    forall p ensures p in rooks <==> p in expected {
      assert b.at(p) == InitialMan(p);
    }
    ScanOrderedUnique(rooks, expected);
    assert b.at(Pos(r, 2)) == InitialMan(Pos(r, 2));
    ConnectedAsScannedIff(b, Pos(r, 1), Pos(r, 8));
    assert Between(1, 8, 2);
    assert !ConnectedAsScanned(b, rooks[0], rooks[1]);
    assert Partners(b, rooks, 0, 1) == 0;
    assert Pairs(b, rooks, 1) == Partners(b, rooks, 1, 2) + Pairs(b, rooks, 2);
  }
}
