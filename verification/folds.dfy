/** The sweep every board feature of the evaluator uses: ranks 1 to 8 in the
    outer loop, files 1 to 8 in the inner one, adding one value per square. */
module Folds {
  import opened Geometry

  /* Every fold below lists its summand first in `decreases`: the summand never
     changes, so termination still rests on the index, but the verifier then
     unrolls a fold only as far as a proof asks and not to the end whenever
     the start index is a literal. */

  function RowSum(g: Pos -> real, r: Coord, f: int): real
    requires 1 <= f <= 9
    decreases g, 9 - f
  {
    if f > 8 then 0.0 else g(Pos(r, f)) + RowSum(g, r, f + 1)
  }

  function RanksSum(g: Pos -> real, r: int): real
    requires 1 <= r <= 9
    decreases g, 9 - r
  {
    if r > 8 then 0.0 else RowSum(g, r, 1) + RanksSum(g, r + 1)
  }

  /** The whole-board sum, rank-major. */
  function Sum(g: Pos -> real): real
  {
    RanksSum(g, 1)
  }

  // ------------------------------------------------------------- addition

  lemma {:induction false} RowAdd(g: Pos -> real, h: Pos -> real, k: Pos -> real, r: Coord, f: int)
    requires 1 <= f <= 9
    requires forall p: Pos :: k(p) == g(p) + h(p)
    ensures RowSum(k, r, f) == RowSum(g, r, f) + RowSum(h, r, f)
    decreases 9 - f
  {
    if f <= 8 {
      RowAdd(g, h, k, r, f + 1);
    }
  }

  lemma {:induction false} RanksAdd(g: Pos -> real, h: Pos -> real, k: Pos -> real, r: int)
    requires 1 <= r <= 9
    requires forall p: Pos :: k(p) == g(p) + h(p)
    ensures RanksSum(k, r) == RanksSum(g, r) + RanksSum(h, r)
    decreases 9 - r
  {
    if r <= 8 {
      RowAdd(g, h, k, r, 1);
      RanksAdd(g, h, k, r + 1);
    }
  }

  /** The sum of a sum of summands is the sum of their sums. */
  lemma Add(g: Pos -> real, h: Pos -> real, k: Pos -> real)
    requires forall p: Pos :: k(p) == g(p) + h(p)
    ensures Sum(k) == Sum(g) + Sum(h)
  {
    RanksAdd(g, h, k, 1);
  }

  // ------------------------------------------------------------- negation

  lemma {:induction false} RowNeg(g: Pos -> real, h: Pos -> real, r: Coord, f: int)
    requires 1 <= f <= 9
    requires forall p: Pos :: h(p) == -g(p)
    ensures RowSum(h, r, f) == -RowSum(g, r, f)
    decreases 9 - f
  {
    if f <= 8 {
      RowNeg(g, h, r, f + 1);
    }
  }

  lemma {:induction false} RanksNeg(g: Pos -> real, h: Pos -> real, r: int)
    requires 1 <= r <= 9
    requires forall p: Pos :: h(p) == -g(p)
    ensures RanksSum(h, r) == -RanksSum(g, r)
    decreases 9 - r
  {
    if r <= 8 {
      RowNeg(g, h, r, 1);
      RanksNeg(g, h, r + 1);
    }
  }

  /** Negating every square negates the sum. */
  lemma Negated(g: Pos -> real, h: Pos -> real)
    requires forall p: Pos :: h(p) == -g(p)
    ensures Sum(h) == -Sum(g)
  {
    RanksNeg(g, h, 1);
  }

  // ------------------------------------------------------------ ordering

  lemma {:induction false} RowMonotone(g: Pos -> real, h: Pos -> real, r: Coord, f: int)
    requires 1 <= f <= 9
    requires forall p: Pos :: g(p) <= h(p)
    ensures RowSum(g, r, f) <= RowSum(h, r, f)
    decreases 9 - f
  {
    if f <= 8 {
      RowMonotone(g, h, r, f + 1);
    }
  }

  lemma {:induction false} RanksMonotone(g: Pos -> real, h: Pos -> real, r: int)
    requires 1 <= r <= 9
    requires forall p: Pos :: g(p) <= h(p)
    ensures RanksSum(g, r) <= RanksSum(h, r)
    decreases 9 - r
  {
    if r <= 8 {
      RowMonotone(g, h, r, 1);
      RanksMonotone(g, h, r + 1);
    }
  }

  /** A summand below another square by square has the smaller sum. */
  lemma Monotone(g: Pos -> real, h: Pos -> real)
    requires forall p: Pos :: g(p) <= h(p)
    ensures Sum(g) <= Sum(h)
  {
    RanksMonotone(g, h, 1);
  }

  lemma {:induction false} RowSame(g: Pos -> real, h: Pos -> real, r: Coord, f: int)
    requires 1 <= f <= 9
    requires forall p: Pos :: g(p) == h(p)
    ensures RowSum(g, r, f) == RowSum(h, r, f)
    decreases 9 - f
  {
    if f <= 8 {
      RowSame(g, h, r, f + 1);
    }
  }

  lemma {:induction false} RanksSame(g: Pos -> real, h: Pos -> real, r: int)
    requires 1 <= r <= 9
    requires forall p: Pos :: g(p) == h(p)
    ensures RanksSum(g, r) == RanksSum(h, r)
    decreases 9 - r
  {
    if r <= 8 {
      RowSame(g, h, r, 1);
      RanksSame(g, h, r + 1);
    }
  }

  /** Summands that agree square by square have the same sum. */
  lemma Congruent(g: Pos -> real, h: Pos -> real)
    requires forall p: Pos :: g(p) == h(p)
    ensures Sum(g) == Sum(h)
  {
    RanksSame(g, h, 1);
  }

  lemma {:induction false} RowNonNegative(g: Pos -> real, r: Coord, f: int)
    requires 1 <= f <= 9
    requires forall p: Pos :: 0.0 <= g(p)
    ensures 0.0 <= RowSum(g, r, f)
    decreases 9 - f
  {
    if f <= 8 {
      RowNonNegative(g, r, f + 1);
    }
  }

  lemma {:induction false} RanksNonNegative(g: Pos -> real, r: int)
    requires 1 <= r <= 9
    requires forall p: Pos :: 0.0 <= g(p)
    ensures 0.0 <= RanksSum(g, r)
    decreases 9 - r
  {
    if r <= 8 {
      RowNonNegative(g, r, 1);
      RanksNonNegative(g, r + 1);
    }
  }

  /** A non-negative summand has a non-negative sum. */
  lemma NonNegative(g: Pos -> real)
    requires forall p: Pos :: 0.0 <= g(p)
    ensures 0.0 <= Sum(g)
  {
    RanksNonNegative(g, 1);
  }

  // ------------------------------------------------------------- by rank

  function Row(g: Pos -> real, r: Coord): real
  {
    RowSum(g, r, 1)
  }

  lemma {:induction false} RowMirror(g: Pos -> real, h: Pos -> real, r: Coord, f: int)
    requires 1 <= f <= 9
    requires forall p: Pos :: h(p) == g(Pos(9 - p.rank, p.file))
    ensures RowSum(h, r, f) == RowSum(g, 9 - r, f)
    decreases 9 - f
  {
    if f <= 8 {
      RowMirror(g, h, r, f + 1);
    }
  }

  /** Ranks 1 to k, summed from rank k down. */
  function RanksDown(g: Pos -> real, k: int): real
    requires 0 <= k <= 8
    decreases g, k
  {
    if k == 0 then 0.0 else RowSum(g, k, 1) + RanksDown(g, k - 1)
  }

  lemma {:induction false} MirrorRanks(g: Pos -> real, h: Pos -> real, r: int)
    requires 1 <= r <= 9
    requires forall p: Pos :: h(p) == g(Pos(9 - p.rank, p.file))
    ensures RanksSum(h, r) == RanksDown(g, 9 - r)
    decreases 9 - r
  {
    if r <= 8 {
      RowMirror(g, h, r, 1);
      MirrorRanks(g, h, r + 1);
    }
  }

  lemma {:induction false} DownUp(g: Pos -> real, j: int, k: int)
    requires 0 <= j <= k <= 8
    ensures RanksDown(g, k) + RanksSum(g, k + 1) == RanksDown(g, j) + RanksSum(g, j + 1)
    decreases k - j
  {
    if j < k {
      DownUp(g, j + 1, k);
      assert RanksDown(g, j + 1) == RowSum(g, j + 1, 1) + RanksDown(g, j);
      assert RanksSum(g, j + 1) == RowSum(g, j + 1, 1) + RanksSum(g, j + 2);
    }
  }

  /** Reading the board upside down does not change the sum: rank r of the
      flipped summand is rank 9 - r of the original. */
  lemma Mirrored(g: Pos -> real, h: Pos -> real)
    requires forall p: Pos :: h(p) == g(Pos(9 - p.rank, p.file))
    ensures Sum(h) == Sum(g)
  {
    MirrorRanks(g, h, 1);
    DownUp(g, 0, 8);
  }

  lemma {:induction false} RowConst(g: Pos -> real, r: Coord, f: int, c: real)
    requires 1 <= f <= 9
    requires forall j: Coord :: g(Pos(r, j)) == c
    ensures RowSum(g, r, f) == (9 - f) as real * c
    decreases 9 - f
  {
    if f <= 8 {
      RowConst(g, r, f + 1, c);
      assert (9 - f) as real * c == c + (9 - (f + 1)) as real * c;
    }
  }

  /** c(r) + ... + c(8). */
  function RankTotal(c: int -> real, r: int): real
    requires 1 <= r <= 9
    decreases c, 9 - r
  {
    if r > 8 then 0.0 else c(r) + RankTotal(c, r + 1)
  }

  lemma {:induction false} RanksConst(g: Pos -> real, c: int -> real, r: int)
    requires 1 <= r <= 9
    requires forall p: Pos :: g(p) == c(p.rank)
    ensures RanksSum(g, r) == 8.0 * RankTotal(c, r)
    decreases 9 - r
  {
    if r <= 8 {
      RowConst(g, r, 1, c(r));
      RanksConst(g, c, r + 1);
    }
  }

  /** A summand that depends only on the rank sums to eight times its rank values. */
  lemma ByRank(g: Pos -> real, c: int -> real)
    requires forall p: Pos :: g(p) == c(p.rank)
    ensures Sum(g) == 8.0 * (c(1) + c(2) + c(3) + c(4) + c(5) + c(6) + c(7) + c(8))
  {
    RanksConst(g, c, 1);
    assert RankTotal(c, 7) == c(7) + c(8) + RankTotal(c, 9);
    assert RankTotal(c, 5) == c(5) + c(6) + RankTotal(c, 7);
    assert RankTotal(c, 3) == c(3) + c(4) + RankTotal(c, 5);
    assert RankTotal(c, 1) == c(1) + c(2) + RankTotal(c, 3);
  }

  lemma {:induction false} RanksOnly(g: Pos -> real, r: Coord, k: int)
    requires 1 <= k <= 9
    requires forall p: Pos :: p.rank != r ==> g(p) == 0.0
    ensures RanksSum(g, k) == if k <= r then Row(g, r) else 0.0
    decreases 9 - k
  {
    if k <= 8 {
      RanksOnly(g, r, k + 1);
      if k != r {
        RowConst(g, k, 1, 0.0);
      }
    }
  }

  /** A summand that vanishes off rank r sums to that rank. */
  lemma OnlyRank(g: Pos -> real, r: Coord)
    requires forall p: Pos :: p.rank != r ==> g(p) == 0.0
    ensures Sum(g) == Row(g, r)
  {
    RanksOnly(g, r, 1);
  }

  /** One rank written out square by square. */
  lemma {:induction false} RowPoint(g: Pos -> real, h: Pos -> real, q: Pos, r: Coord, f: int)
    requires 1 <= f <= 9
    requires forall p: Pos :: p != q ==> h(p) == g(p)
    ensures RowSum(h, r, f) == RowSum(g, r, f) + (if r == q.rank && f <= q.file then h(q) - g(q) else 0.0)
    decreases 9 - f
  {
    if f <= 8 {
      RowPoint(g, h, q, r, f + 1);
    }
  }

  lemma {:induction false} RanksPoint(g: Pos -> real, h: Pos -> real, q: Pos, r: int)
    requires 1 <= r <= 9
    requires forall p: Pos :: p != q ==> h(p) == g(p)
    ensures RanksSum(h, r) == RanksSum(g, r) + (if r <= q.rank then h(q) - g(q) else 0.0)
    decreases 9 - r
  {
    if r <= 8 {
      RowPoint(g, h, q, r, 1);
      RanksPoint(g, h, q, r + 1);
    }
  }

  /** Summands that differ on one square only: the sums differ by exactly
      that square's difference. */
  lemma SumPoint(g: Pos -> real, h: Pos -> real, q: Pos)
    requires forall p: Pos :: p != q ==> h(p) == g(p)
    ensures Sum(h) == Sum(g) + (h(q) - g(q))
  {
    RanksPoint(g, h, q, 1);
  }

  lemma RowExpand(g: Pos -> real, r: Coord)
    ensures Row(g, r) == g(Pos(r, 1)) + g(Pos(r, 2)) + g(Pos(r, 3)) + g(Pos(r, 4)) + g(Pos(r, 5)) + g(Pos(r, 6)) + g(Pos(r, 7)) + g(Pos(r, 8))
  {
    assert RowSum(g, r, 8) == g(Pos(r, 8)) + RowSum(g, r, 9);
    assert RowSum(g, r, 6) == g(Pos(r, 6)) + g(Pos(r, 7)) + RowSum(g, r, 8);
    assert RowSum(g, r, 4) == g(Pos(r, 4)) + g(Pos(r, 5)) + RowSum(g, r, 6);
    assert RowSum(g, r, 2) == g(Pos(r, 2)) + g(Pos(r, 3)) + RowSum(g, r, 4);
  }

  // --------------------------------------------------------- along a line

  /** An integer count along one file or one rank, from index i to 8. */
  function Tally(g: Coord -> int, i: int): int
    requires 1 <= i <= 9
    decreases g, 9 - i
  {
    if i > 8 then 0 else g(i) + Tally(g, i + 1)
  }

  lemma {:induction false} TallyDiff(g: Coord -> int, h: Coord -> int, k: Coord -> int, i: int)
    requires 1 <= i <= 9
    requires forall x: Coord :: k(x) == g(x) - h(x)
    ensures Tally(k, i) == Tally(g, i) - Tally(h, i)
    decreases 9 - i
  {
    if i <= 8 {
      TallyDiff(g, h, k, i + 1);
    }
  }

  lemma {:induction false} TallyMonotone(g: Coord -> int, h: Coord -> int, i: int)
    requires 1 <= i <= 9
    requires forall x: Coord :: g(x) <= h(x)
    ensures Tally(g, i) <= Tally(h, i)
    decreases 9 - i
  {
    if i <= 8 {
      TallyMonotone(g, h, i + 1);
    }
  }

  lemma {:induction false} TallyNonNegative(g: Coord -> int, i: int)
    requires 1 <= i <= 9
    requires forall x: Coord :: 0 <= g(x)
    ensures 0 <= Tally(g, i)
    decreases 9 - i
  {
    if i <= 8 {
      TallyNonNegative(g, i + 1);
    }
  }

  lemma TallyExpand(g: Coord -> int)
    ensures Tally(g, 1) == g(1) + g(2) + g(3) + g(4) + g(5) + g(6) + g(7) + g(8)
  {
    assert Tally(g, 8) == g(8) + Tally(g, 9);
    assert Tally(g, 6) == g(6) + g(7) + Tally(g, 8);
    assert Tally(g, 4) == g(4) + g(5) + Tally(g, 6);
    assert Tally(g, 2) == g(2) + g(3) + Tally(g, 4);
  }

  /** Counting a line from the other end gives the same count. */
  lemma TallyReversed(g: Coord -> int, h: Coord -> int)
    requires forall x: Coord :: h(x) == g(9 - x)
    ensures Tally(h, 1) == Tally(g, 1)
  {
    TallyExpand(g);
    TallyExpand(h);
  }
}
