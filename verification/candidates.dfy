/** The pattern every piece in game/pieces/src uses: walk a fixed list of
    (rank, file) candidates and keep, in order, those `itopos` accepts. */
module Candidates {
  import opened Wrappers
  import opened Geometry

  predicate Distinct<T(==)>(s: seq<T>)
  {
    forall i, j :: 0 <= i < j < |s| ==> s[i] != s[j]
  }

  /** The `if (auto pos = itopos(..); pos.has_value()) moves.push_back(*pos)`
      loop, over a candidate list. */
  function Collect(cs: seq<(int, int)>): (ps: seq<Pos>)
    ensures |ps| <= |cs|
  {
    if |cs| == 0 then []
    else match Itopos(cs[0].0, cs[0].1)
      case Some(p) => [p] + Collect(cs[1..])
      case None => Collect(cs[1..])
  }

  /** Number of candidates that lie on the board. */
  function OnBoardCount(cs: seq<(int, int)>): nat
  {
    if |cs| == 0 then 0
    else (if OnBoard(cs[0].0, cs[0].1) then 1 else 0) + OnBoardCount(cs[1..])
  }

  /** A square is collected exactly when its coordinates are a candidate. */
  lemma {:induction false} CollectMember(cs: seq<(int, int)>, q: Pos)
    ensures q in Collect(cs) <==> (q.rank, q.file) in cs
  {
    if |cs| > 0 {
      CollectMember(cs[1..], q);
      assert cs == [cs[0]] + cs[1..];
    }
  }

  lemma {:induction false} CollectLength(cs: seq<(int, int)>)
    ensures |Collect(cs)| == OnBoardCount(cs)
  {
    if |cs| > 0 {
      CollectLength(cs[1..]);
    }
  }

  lemma {:induction false} OnBoardCountConcat(a: seq<(int, int)>, b: seq<(int, int)>)
    ensures OnBoardCount(a + b) == OnBoardCount(a) + OnBoardCount(b)
  {
    if |a| > 0 {
      assert (a + b)[1..] == a[1..] + b;
      OnBoardCountConcat(a[1..], b);
    } else {
      assert a + b == b;
    }
  }

  /** Joining two duplicate-free lists with nothing in common. */
  lemma DistinctConcat<T>(h: seq<T>, t: seq<T>)
    requires Distinct(h) && Distinct(t)
    requires forall k :: 0 <= k < |h| ==> h[k] !in t
    ensures Distinct(h + t)
  {
    var s := h + t;
    forall a, b | 0 <= a < b < |s| ensures s[a] != s[b] {
      if b >= |h| {
        assert s[b] == t[b - |h|];
        if a >= |h| {
          assert s[a] == t[a - |h|];
        } else {
          assert s[a] == h[a];
        }
      }
    }
  }

  /** Distinct candidates give distinct squares. */
  lemma {:induction false} CollectDistinct(cs: seq<(int, int)>)
    requires Distinct(cs)
    ensures Distinct(Collect(cs))
  {
    if |cs| > 0 {
      var t := cs[1..];
      assert Distinct(t) by {
        forall i, j | 0 <= i < j < |t| ensures t[i] != t[j] {
          assert t[i] == cs[i + 1] && t[j] == cs[j + 1];
        }
      }
      CollectDistinct(t);
      var r := Collect(t);
      match Itopos(cs[0].0, cs[0].1)
      case None =>
      case Some(p) =>
        CollectMember(t, p);
        assert cs[0] !in t by {
          forall k | 0 <= k < |t| ensures t[k] != cs[0] {
            assert t[k] == cs[k + 1];
          }
        }
        var s := [p] + r;
        forall i, j | 0 <= i < j < |s| ensures s[i] != s[j] {
          if i == 0 {
            assert s[j] == r[j - 1];
          } else {
            assert s[i] == r[i - 1] && s[j] == r[j - 1];
          }
        }
    }
  }

  /** `#{k | i <= k <= 8, k != 0, lo <= k <= hi}`: how many of the offsets a
      `for (int k = i; k <= 8; k++) if (k == 0) continue; ...` loop visits land
      in the on-board window [lo, hi]. */
  function OffsetCount(i: int, lo: int, hi: int): nat
    decreases 9 - i
  {
    if i > 8 then 0
    else (if i != 0 && lo <= i <= hi then 1 else 0) + OffsetCount(i + 1, lo, hi)
  }

  /** Closed form of `OffsetCount` for windows that contain offset 0. */
  lemma {:induction false} OffsetCountClosed(i: int, lo: int, hi: int)
    requires -8 <= i <= 9
    requires lo <= 0 <= hi <= 8
    ensures var a := if i < lo then lo else i;
            OffsetCount(i, lo, hi) == if a > hi then 0 else hi - a + 1 - (if a <= 0 then 1 else 0)
    decreases 9 - i
  {
    if i <= 8 {
      OffsetCountClosed(i + 1, lo, hi);
    }
  }

  /** A full sweep of offsets -8..8 (0 skipped) over a window containing 0
      finds `hi - lo` on-board offsets. */
  lemma OffsetCountFull(lo: int, hi: int)
    requires -8 <= lo <= 0 <= hi <= 8
    ensures OffsetCount(-8, lo, hi) == hi - lo
  {
    OffsetCountClosed(-8, lo, hi);
  }
}
