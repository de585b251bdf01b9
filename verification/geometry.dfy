/** Board coordinates (game/pieces/include/piece.hpp): the `rank_t` and
    `file_t` enumerations run 1..8, a position is a (rank, file) pair, and
    `piece::itopos` is the only way integers become positions. */
module Geometry {
  import opened Wrappers

  /** The numeric value of a `rank_t` or `file_t` enumerator. */
  type Coord = x: int | 1 <= x <= 8 witness 1

  /** `position_t`, i.e. `std::pair<rank_t, file_t>`. */
  datatype Pos = Pos(rank: Coord, file: Coord)

  predicate OnBoard(rank: int, file: int)
  {
    1 <= rank <= 8 && 1 <= file <= 8
  }

  /** `piece::itopos`: the bounds-checked conversion from integers. */
  function Itopos(rank: int, file: int): (p: Option<Pos>)
    ensures p.Some? <==> OnBoard(rank, file)
    ensures p.Some? ==> p.value.rank == rank && p.value.file == file
  {
    if rank > 8 then None
    else if file > 8 then None
    else if rank < 1 then None
    else if file < 1 then None
    else Some(Pos(rank, file))
  }

  /** `mirror_vertically`: the case table over the eight ranks. The
      "Invalid Rank" default of the switch cannot be reached by a `Coord`. */
  function MirrorVertically(p: Pos): (m: Pos)
    ensures m.rank == 9 - p.rank && m.file == p.file
  {
    match p.rank
    case 1 => Pos(8, p.file)
    case 2 => Pos(7, p.file)
    case 3 => Pos(6, p.file)
    case 4 => Pos(5, p.file)
    case 5 => Pos(4, p.file)
    case 6 => Pos(3, p.file)
    case 7 => Pos(2, p.file)
    case 8 => Pos(1, p.file)
  }

  lemma MirrorInvolution(p: Pos)
    ensures MirrorVertically(MirrorVertically(p)) == p
    ensures MirrorVertically(p) != p
  {
  }

  /** The letter `to_string(position_t)` prints for a file. */
  function FileLetter(f: Coord): char
  {
    match f
    case 1 => 'A'
    case 2 => 'B'
    case 3 => 'C'
    case 4 => 'D'
    case 5 => 'E'
    case 6 => 'F'
    case 7 => 'G'
    case 8 => 'H'
  }

  /** The digit `to_string(position_t)` prints for a rank. */
  function RankDigit(r: Coord): char
  {
    match r
    case 1 => '1'
    case 2 => '2'
    case 3 => '3'
    case 4 => '4'
    case 5 => '5'
    case 6 => '6'
    case 7 => '7'
    case 8 => '8'
  }

  /** `to_string(position_t)`: the file letter, then the rank digit. */
  function PosToString(p: Pos): (s: string)
    ensures |s| == 2
    ensures s[0] as int == 'A' as int + p.file - 1
    ensures s[1] as int == '1' as int + p.rank - 1
  {
    [FileLetter(p.file), RankDigit(p.rank)]
  }

  /** Distinct squares print differently, so the two-character form names a
      square unambiguously. */
  lemma PosToStringInjective(p: Pos, q: Pos)
    requires PosToString(p) == PosToString(q)
    ensures p == q
  {
    assert PosToString(p)[0] == PosToString(q)[0];
    assert PosToString(p)[1] == PosToString(q)[1];
  }
}
