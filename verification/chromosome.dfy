/** `chromosome_t` (game/controllers/include/ai_controller.hpp): the flat
    weight vector an evaluator is built from. Eighteen scalar weights come
    first, in declaration order, then six 8x8 piece-square tables in the
    order pawn, knight, bishop, rook, queen, king, each stored row by row. */
module Chromosomes {
  import opened Wrappers
  import opened Pieces

  const ScalarCount: nat := 18
  const TableCount: nat := 6
  const ExpectedSize: nat := 402

  // Scalar indices, in the order the struct declares its fields.
  const MaterialScoreBonus: nat := 0
  const PieceMobilityBonus: nat := 1
  const CastlingBonus: nat := 2
  const DevelopmentSpeedBonus: nat := 3
  const DoubledPawnPenalty: nat := 4
  const IsolatedPawnPenalty: nat := 5
  const ConnectedPawnBonus: nat := 6
  const PassedPawnBonus: nat := 7
  const EnemyKingPressureBonus: nat := 8
  const PieceDefenseBonus: nat := 9
  const BishopPairBonus: nat := 10
  const ConnectedRooksBonus: nat := 11
  const KingCentralizationVal: nat := 12
  const KnightOutpostBonus: nat := 13
  const BlockedPiecePenalty: nat := 14
  const SpaceControlInOpponentHalfBonus: nat := 15
  const KingShieldBonus: nat := 16
  const KingPressurePenalty: nat := 17

  type Grid = seq<seq<real>>

  predicate IsGrid(g: Grid)
  {
    |g| == 8 && forall row :: 0 <= row < 8 ==> |g[row]| == 8
  }

  datatype Chromosome = Chromosome(scalars: seq<real>, tables: seq<Grid>)

  predicate WellFormed(c: Chromosome)
  {
    |c.scalars| == ScalarCount && |c.tables| == TableCount &&
    forall t :: 0 <= t < TableCount ==> IsGrid(c.tables[t])
  }

  /** The kinds in the order the struct declares their tables. */
  const TableKinds: seq<Name> := [Pawn, Knight, Bishop, Rook, Queen, King]

  /** The table a piece kind reads: the one declared for that kind. */
  function TableOf(n: Name): (t: nat)
    ensures t < TableCount && t < |TableKinds|
    ensures TableKinds[t] == n
  {
    match n
    case Pawn => 0
    case Knight => 1
    case Bishop => 2
    case Rook => 3
    case Queen => 4
    case King => 5
  }

  /** Every table is read by exactly one kind: `TableOf` is a bijection
      between the six kinds and the six declared tables. */
  lemma TableOfBijective()
    ensures |TableKinds| == TableCount
    ensures forall t :: 0 <= t < TableCount ==> TableOf(TableKinds[t]) == t
    ensures forall a: Name, b: Name :: TableOf(a) == TableOf(b) ==> a == b
  {
  }

  /** The `values` namespace: material worth of each kind. */
  function Value(n: Name): (v: int)
    ensures 0 <= v <= 9
    ensures v == 0 <==> n == King
  {
    match n
    case Pawn => 1
    case Knight => 3
    case Bishop => 3
    case Rook => 5
    case Queen => 9
    case King => 0
  }

  // ------------------------------------------------------------- decoding

  /** The grid `assign_grid` fills from `data` starting at `offset`. */
  function GridAt(v: seq<real>, offset: nat): (g: Grid)
    requires offset + 64 <= |v|
    ensures IsGrid(g)
  {
    seq(8, row requires 0 <= row < 8 => seq(8, col requires 0 <= col < 8 => v[offset + 8 * row + col]))
  }

  /** `assign_grid`: the two nested loops over rows and columns. */
  method AssignGrid(v: seq<real>, offset: nat) returns (g: Grid)
    requires offset + 64 <= |v|
    ensures IsGrid(g)
    ensures forall row, col :: 0 <= row < 8 && 0 <= col < 8 ==> g[row][col] == v[offset + 8 * row + col]
  {
    g := [];
    var row := 0;
    while row < 8
      invariant 0 <= row <= 8 && |g| == row
      invariant forall i :: 0 <= i < row ==> |g[i]| == 8
      invariant forall i, j :: 0 <= i < row && 0 <= j < 8 ==> g[i][j] == v[offset + 8 * i + j]
    {
      var line: seq<real> := [];
      var col := 0;
      while col < 8
        invariant 0 <= col <= 8 && |line| == col
        invariant forall j :: 0 <= j < col ==> line[j] == v[offset + 8 * row + j]
      {
        line := line + [v[offset + 8 * row + col]];
        col := col + 1;
      }
      g := g + [line];
      row := row + 1;
    }
  }

  /** The loops and the comprehension describe the same grid. */
  lemma AssignGridAgrees(v: seq<real>, offset: nat, g: Grid)
    requires offset + 64 <= |v|
    requires IsGrid(g)
    requires forall row, col :: 0 <= row < 8 && 0 <= col < 8 ==> g[row][col] == v[offset + 8 * row + col]
    ensures g == GridAt(v, offset)
  {
    var h := GridAt(v, offset);
    forall row | 0 <= row < 8 ensures g[row] == h[row] {
    }
  }

  /** Decimal digits of a count, as `std::to_string` prints it. */
  function NatToString(n: nat): (s: string)
    ensures |s| >= 1
    ensures forall i :: 0 <= i < |s| ==> '0' <= s[i] <= '9'
    decreases n
  {
    if n < 10 then [Digit(n)] else NatToString(n / 10) + [Digit(n % 10)]
  }

  function Digit(d: nat): (c: char)
    requires d < 10
    ensures '0' <= c <= '9'
  {
    (48 + d) as char
  }

  /** Reading decimal digits back. */
  function DigitsValue(s: string): nat
    requires forall i :: 0 <= i < |s| ==> '0' <= s[i] <= '9'
  {
    if |s| == 0 then 0 else 10 * DigitsValue(s[..|s| - 1]) + (s[|s| - 1] as int - 48)
  }

  lemma {:induction false} NatToStringValue(n: nat)
    ensures DigitsValue(NatToString(n)) == n
    decreases n
  {
    var s := NatToString(n);
    if n >= 10 {
      NatToStringValue(n / 10);
      assert s[..|s| - 1] == NatToString(n / 10);
    }
  }

  /** The constructor: a vector of the wrong size throws `invalid_argument`;
      otherwise scalar k is element k and table t starts at 18 + 64 t. */
  function Decode(v: seq<real>): (r: Result<Chromosome, string>)
    ensures r.Success? <==> |v| == ExpectedSize
    ensures r.Success? ==> WellFormed(r.value)
    ensures r.Success? ==> forall k :: 0 <= k < ScalarCount ==> r.value.scalars[k] == v[k]
    ensures r.Success? ==> forall t, row, col :: 0 <= t < TableCount && 0 <= row < 8 && 0 <= col < 8 ==>
              r.value.tables[t][row][col] == v[18 + 64 * t + 8 * row + col]
    ensures r.Failure? ==> r.error == "Chromosome size " + NatToString(|v|) + " invalid, expected " + NatToString(ExpectedSize) + "\n"
  {
    if |v| != ExpectedSize then
      Failure("Chromosome size " + NatToString(|v|) + " invalid, expected " + NatToString(ExpectedSize) + "\n")
    else
      var tables := seq(6, t requires 0 <= t < 6 => GridAt(v, 18 + 64 * t));
      Success(Chromosome(v[..18], tables))
  }

  // ------------------------------------------------------------- encoding

  function Flatten(g: Grid): (s: seq<real>)
  {
    if |g| == 0 then [] else g[0] + Flatten(g[1..])
  }

  function FlattenAll(ts: seq<Grid>): seq<real>
  {
    if |ts| == 0 then [] else Flatten(ts[0]) + FlattenAll(ts[1..])
  }

  /** The vector a chromosome was decoded from. */
  function Encode(c: Chromosome): (v: seq<real>)
  {
    c.scalars + FlattenAll(c.tables)
  }

  lemma {:induction false} FlattenAt(g: Grid, row: int, col: int)
    requires forall i :: 0 <= i < |g| ==> |g[i]| == 8
    requires 0 <= row < |g| && 0 <= col < 8
    ensures |Flatten(g)| == 8 * |g|
    ensures Flatten(g)[8 * row + col] == g[row][col]
  {
    FlattenLength(g);
    if row > 0 {
      FlattenAt(g[1..], row - 1, col);
    }
  }

  lemma {:induction false} FlattenLength(g: Grid)
    requires forall i :: 0 <= i < |g| ==> |g[i]| == 8
    ensures |Flatten(g)| == 8 * |g|
  {
    if |g| > 0 {
      FlattenLength(g[1..]);
    }
  }

  lemma {:induction false} FlattenAllAt(ts: seq<Grid>, t: int, k: int)
    requires forall i :: 0 <= i < |ts| ==> IsGrid(ts[i])
    requires 0 <= t < |ts| && 0 <= k < 64
    ensures |FlattenAll(ts)| == 64 * |ts| && |Flatten(ts[t])| == 64
    ensures FlattenAll(ts)[64 * t + k] == Flatten(ts[t])[k]
  {
    FlattenAllLength(ts);
    FlattenLength(ts[0]);
    FlattenLength(ts[t]);
    if t > 0 {
      FlattenAllAt(ts[1..], t - 1, k);
    }
  }

  lemma {:induction false} FlattenAllLength(ts: seq<Grid>)
    requires forall i :: 0 <= i < |ts| ==> IsGrid(ts[i])
    ensures |FlattenAll(ts)| == 64 * |ts|
  {
    if |ts| > 0 {
      FlattenLength(ts[0]);
      FlattenAllLength(ts[1..]);
    }
  }

  /** Entry (t, row, col) of a well-formed chromosome sits at
      18 + 64 t + 8 row + col of its encoding. */
  lemma EncodeAt(c: Chromosome, t: int, row: int, col: int)
    requires WellFormed(c)
    requires 0 <= t < 6 && 0 <= row < 8 && 0 <= col < 8
    ensures |Encode(c)| == ExpectedSize
    ensures Encode(c)[18 + 64 * t + 8 * row + col] == c.tables[t][row][col]
  {
    FlattenAllAt(c.tables, t, 8 * row + col);
    FlattenAt(c.tables[t], row, col);
  }

  /** Decoding an encoded chromosome gives it back. */
  lemma DecodeEncode(c: Chromosome)
    requires WellFormed(c)
    ensures Decode(Encode(c)) == Success(c)
  {
    var v := Encode(c);
    FlattenAllLength(c.tables);
    assert |v| == ExpectedSize;
    var d := Decode(v).value;
    assert d.scalars == v[..18] == c.scalars;
    forall t | 0 <= t < 6 ensures d.tables[t] == c.tables[t] {
      forall row | 0 <= row < 8 ensures d.tables[t][row] == c.tables[t][row] {
        forall col | 0 <= col < 8 ensures d.tables[t][row][col] == c.tables[t][row][col] {
          EncodeAt(c, t, row, col);
        }
      }
    }
    assert d.tables == c.tables;
  }

  /** Encoding a decoded vector gives it back: every one of the 402 inputs
      is read by exactly one field. */
  lemma EncodeDecode(v: seq<real>)
    requires |v| == ExpectedSize
    ensures Decode(v).Success? && Encode(Decode(v).value) == v
  {
    var c := Decode(v).value;
    var w := Encode(c);
    FlattenAllLength(c.tables);
    forall i | 0 <= i < ExpectedSize ensures w[i] == v[i] {
      if i >= 18 {
        var t := (i - 18) / 64;
        var k := (i - 18) % 64;
        EncodeAt(c, t, k / 8, k % 8);
      }
    }
  }
}
