/** `space` (game/game/src/space.cpp): one square of the board, its colour,
    its coordinates and the piece (if any) standing on it. */
module Spaces {
  import opened Wrappers
  import opened Geometry
  import opened Candidates
  import opened Pieces

  datatype Space = Space(white: bool, rank: Coord, file: Coord, piece: Option<Piece>)

  /** `space::position`: the (rank, file) pair. */
  function Position(sp: Space): Pos
  {
    Pos(sp.rank, sp.file)
  }

  /** Copy constructor: the same colour and coordinates, and a deep copy of
      the piece through `copy_piece`; a missing piece stays missing. */
  function CopySpace(src: Space): (c: Space)
    ensures c == src
  {
    Space(src.white, src.rank, src.file,
          if src.piece.Some? then Some(CopyPiece(src.piece.value)) else None)
  }

  /** `operator=`. `aliased` is the `this == &other` test; an object aliased
      with `other` already holds `other`'s value. Otherwise every field is
      copied, the piece deep-copied or cleared. */
  function Assign(self: Space, other: Space, aliased: bool): (r: Space)
    requires aliased ==> self == other
    ensures r == other
    ensures aliased ==> r == self
    ensures r.piece.None? <==> other.piece.None?
  {
    if aliased then self
    else
      var p := if other.piece.Some? then Some(CopyPiece(other.piece.value)) else None;
      Space(other.white, other.rank, other.file, p)
  }

  // ------------------------------------------------------------- sorting

  /** The comparator of `space::possible_moves`: by file, ties by rank. */
  predicate Before(a: Pos, b: Pos)
  {
    if a.file == b.file then a.rank < b.rank else a.file < b.file
  }

  predicate SortedByFileRank(s: seq<Pos>)
  {
    forall i, j :: 0 <= i < j < |s| ==> s[i] == s[j] || Before(s[i], s[j])
  }

  function Insert(x: Pos, s: seq<Pos>): (r: seq<Pos>)
    ensures multiset(r) == multiset(s) + multiset{x}
  {
    if |s| == 0 then [x]
    else if !Before(s[0], x) then [x] + s
    else
      assert s == [s[0]] + s[1..];
      [s[0]] + Insert(x, s[1..])
  }

  /** Putting an element no later than every other in front. */
  lemma SortedCons(x: Pos, s: seq<Pos>)
    requires SortedByFileRank(s)
    requires forall k :: 0 <= k < |s| ==> x == s[k] || Before(x, s[k])
    ensures SortedByFileRank([x] + s)
  {
    var t := [x] + s;
    forall i, j | 0 <= i < j < |t| ensures t[i] == t[j] || Before(t[i], t[j]) {
      if i == 0 {
        assert t[j] == s[j - 1];
      } else {
        assert t[i] == s[i - 1] && t[j] == s[j - 1];
      }
    }
  }

  lemma SortedTail(s: seq<Pos>)
    requires SortedByFileRank(s) && |s| > 0
    ensures SortedByFileRank(s[1..])
  {
    var tail := s[1..];
    forall i, j | 0 <= i < j < |tail| ensures tail[i] == tail[j] || Before(tail[i], tail[j]) {
      assert tail[i] == s[i + 1] && tail[j] == s[j + 1];
    }
  }

  /** Inserting into a sorted sequence keeps it sorted. */
  lemma {:induction false} InsertSorted(x: Pos, s: seq<Pos>)
    requires SortedByFileRank(s)
    ensures SortedByFileRank(Insert(x, s))
  {
    if |s| == 0 {
    } else if !Before(s[0], x) {
      forall k | 0 <= k < |s| ensures x == s[k] || Before(x, s[k]) {
        assert s[0] == s[k] || Before(s[0], s[k]);
      }
      SortedCons(x, s);
    } else {
      var tail := s[1..];
      SortedTail(s);
      InsertSorted(x, tail);
      var rest := Insert(x, tail);
      forall k | 0 <= k < |rest| ensures s[0] == rest[k] || Before(s[0], rest[k]) {
        assert rest[k] in multiset(rest);
        assert rest[k] in multiset(tail) || rest[k] == x;
        if rest[k] != x {
          var m :| 0 <= m < |tail| && tail[m] == rest[k];
          assert tail[m] == s[m + 1];
        }
      }
      SortedCons(s[0], rest);
    }
  }

  /** The `std::sort` call, as an insertion sort. */
  function SortMoves(s: seq<Pos>): (r: seq<Pos>)
    ensures SortedByFileRank(r)
    ensures multiset(r) == multiset(s)
  {
    if |s| == 0 then []
    else
      assert s == [s[0]] + s[1..];
      var sorted := SortMoves(s[1..]);
      InsertSorted(s[0], sorted);
      Insert(s[0], sorted)
  }

  /** A permutation of a sequence without repeats has no repeats. */
  lemma {:induction false} PermutationKeepsDistinct(a: seq<Pos>, b: seq<Pos>)
    requires multiset(a) == multiset(b)
    requires Distinct(a)
    ensures Distinct(b)
  {
    forall i, j | 0 <= i < j < |b| ensures b[i] != b[j] {
      if b[i] == b[j] {
        var x := b[i];
        assert multiset(b)[x] >= 2 by {
          var b' := b[..i] + b[i + 1..];
          assert b == b[..i] + [x] + b[i + 1..];
          assert multiset(b) == multiset(b') + multiset{x};
          assert b'[j - 1] == x;
          assert x in multiset(b');
        }
        DistinctCountsOnce(a, x);
      }
    }
  }

  lemma {:induction false} DistinctCountsOnce(a: seq<Pos>, x: Pos)
    requires Distinct(a)
    ensures multiset(a)[x] <= 1
  {
    if |a| > 0 {
      var t := a[1..];
      assert a == [a[0]] + t;
      assert Distinct(t) by {
        forall i, j | 0 <= i < j < |t| ensures t[i] != t[j] {
          assert t[i] == a[i + 1] && t[j] == a[j + 1];
        }
      }
      DistinctCountsOnce(t, x);
      if x == a[0] {
        assert x !in t by {
          forall k | 0 <= k < |t| ensures t[k] != x {
            assert t[k] == a[k + 1];
          }
        }
      }
    }
  }

  /** `space::possible_moves`: nothing for an empty square, otherwise the
      piece's pattern sorted by file then rank. */
  function PossibleMoves(sp: Space): (r: seq<Pos>)
    ensures sp.piece.None? ==> r == []
    ensures sp.piece.Some? ==> multiset(r) == multiset(Pieces.PossibleMoves(sp.piece.value))
    ensures SortedByFileRank(r)
  {
    if sp.piece.Some? then SortMoves(Pieces.PossibleMoves(sp.piece.value)) else []
  }

  /** Every pattern is free of repeats, so the sorted list is strictly
      ascending by (file, rank). */
  lemma PossibleMovesStrictlyAscending(sp: Space)
    ensures forall i, j :: 0 <= i < j < |PossibleMoves(sp)| ==>
              Before(PossibleMoves(sp)[i], PossibleMoves(sp)[j])
  {
    if sp.piece.Some? {
      var pc := sp.piece.value;
      PatternDistinct(pc);
      PermutationKeepsDistinct(Pieces.PossibleMoves(pc), PossibleMoves(sp));
    }
  }

  lemma PatternDistinct(pc: Piece)
    ensures Distinct(Pieces.PossibleMoves(pc))
  {
    match pc.name
    case Rook => Patterns.RookMovesCount(pc.pos);
    case Knight => Patterns.KnightMovesDistinct(pc.pos);
    case Bishop => Patterns.BishopMovesCount(pc.pos);
    case King => Patterns.KingMovesDistinct(pc.pos);
    case Queen => Patterns.QueenMovesCount(pc.pos);
    case Pawn => Patterns.PawnMovesShape(pc.pos, pc.white);
  }
}
