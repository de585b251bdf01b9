/** `board` (game/game/src/board.cpp): 64 spaces, the starting layout and
    the text form sent to clients. The board is a total map from squares to
    an optional man (a piece's kind and colour); the piece standing on a
    square has that square as its position. */
module Board {
  import opened Wrappers
  import opened Geometry
  import opened Pieces
  import opened Spaces
  import opened Folds

  datatype Man = Man(name: Name, white: bool)

  datatype Board = Board(at: Pos -> Option<Man>)

  /** The colour the constructor gives square (i, j): white iff i + j is odd. */
  predicate SquareIsWhite(p: Pos)
  {
    (p.rank + p.file) % 2 == 1
  }

  function PieceAt(b: Board, p: Pos): Option<Piece>
  {
    match b.at(p)
    case None => None
    case Some(m) => Some(Piece(m.name, m.white, p))
  }

  /** `board::get`: the space at a square. */
  function Get(b: Board, p: Pos): (sp: Space)
    ensures Position(sp) == p
    ensures sp.piece.Some? ==> sp.piece.value.pos == p
  {
    Space(SquareIsWhite(p), p.rank, p.file, PieceAt(b, p))
  }

  /** Square colours alternate along ranks and files; a1 is dark. */
  lemma SquareColours(p: Pos, q: Pos)
    ensures !SquareIsWhite(Pos(1, 1)) && SquareIsWhite(Pos(1, 8))
    ensures (p.rank == q.rank && (p.file - q.file == 1 || q.file - p.file == 1)) ==> SquareIsWhite(p) != SquareIsWhite(q)
    ensures (p.file == q.file && (p.rank - q.rank == 1 || q.rank - p.rank == 1)) ==> SquareIsWhite(p) != SquareIsWhite(q)
  {
  }

  function EmptyBoard(): Board
  {
    Board(p => None)
  }

  function Set(b: Board, p: Pos, m: Man): (r: Board)
    ensures r.at(p) == Some(m)
    ensures forall q :: q != p ==> r.at(q) == b.at(q)
  {
    Board(q => if q == p then Some(m) else b.at(q))
  }

  /** The switch of `place_pieces` over files one..eight. */
  function BackRankName(f: Coord): Name
  {
    match f
    case 1 => Rook
    case 2 => Knight
    case 3 => Bishop
    case 4 => Queen
    case 5 => King
    case 6 => Bishop
    case 7 => Knight
    case 8 => Rook
  }

  /** One `for (int j = 1; j <= 8; j++)` loop of `place_pieces`: puts a man
      of colour `white` on every file of `rank` from file `j` on. */
  function PlaceRow(b: Board, rank: Coord, white: bool, pawns: bool, j: int): Board
    requires 1 <= j <= 9
    decreases 9 - j
  {
    if j > 8 then b
    else
      var name := if pawns then Pawn else BackRankName(j);
      PlaceRow(Set(b, Pos(rank, j), Man(name, white)), rank, white, pawns, j + 1)
  }

  lemma {:induction false} PlaceRowAt(b: Board, rank: Coord, white: bool, pawns: bool, j: int, q: Pos)
    requires 1 <= j <= 9
    ensures PlaceRow(b, rank, white, pawns, j).at(q)
            == if q.rank == rank && q.file >= j
               then Some(Man(if pawns then Pawn else BackRankName(q.file), white))
               else b.at(q)
    decreases 9 - j
  {
    if j <= 8 {
      var name := if pawns then Pawn else BackRankName(j);
      PlaceRowAt(Set(b, Pos(rank, j), Man(name, white)), rank, white, pawns, j + 1, q);
    }
  }

  /** `place_pieces`: white back rank, black back rank, white pawns, black pawns. */
  function PlacePieces(b: Board): Board
  {
    var b1 := PlaceRow(b, 1, true, false, 1);
    var b2 := PlaceRow(b1, 8, false, false, 1);
    var b3 := PlaceRow(b2, 2, true, true, 1);
    PlaceRow(b3, 7, false, true, 1)
  }

  /** The constructor `board(bool empty)`. */
  function NewBoard(empty: bool): Board
  {
    if empty then EmptyBoard() else PlacePieces(EmptyBoard())
  }

  /** The starting layout, square by square. */
  function InitialMan(p: Pos): Option<Man>
  {
    if p.rank == 1 then Some(Man(BackRankName(p.file), true))
    else if p.rank == 8 then Some(Man(BackRankName(p.file), false))
    else if p.rank == 2 then Some(Man(Pawn, true))
    else if p.rank == 7 then Some(Man(Pawn, false))
    else None
  }

  /** R N B Q K B N R on ranks 1 (white) and 8 (black), pawns on ranks 2
      and 7, ranks 3 to 6 empty; an `empty` board holds nothing. */
  lemma NewBoardLayout(q: Pos)
    ensures NewBoard(false).at(q) == InitialMan(q)
    ensures NewBoard(true).at(q) == None
  {
    var b0 := EmptyBoard();
    var b1 := PlaceRow(b0, 1, true, false, 1);
    var b2 := PlaceRow(b1, 8, false, false, 1);
    var b3 := PlaceRow(b2, 2, true, true, 1);
    PlaceRowAt(b0, 1, true, false, 1, q);
    PlaceRowAt(b1, 8, false, false, 1, q);
    PlaceRowAt(b2, 2, true, true, 1, q);
    PlaceRowAt(b3, 7, false, true, 1, q);
  }

  /** 1 when the square holds a man of colour `white`, else 0. */
  function Own(m: Option<Man>, white: bool): real
  {
    if m.Some? && m.value.white == white then 1.0 else 0.0
  }

  function ManCount(b: Board, white: bool): real
  {
    Sum(p => Own(b.at(p), white))
  }

  /** Sixteen men per side at the start. */
  lemma InitialCount(white: bool)
    ensures ManCount(NewBoard(false), white) == 16.0
  {
    forall p ensures NewBoard(false).at(p) == InitialMan(p) {
      NewBoardLayout(p);
    }
    LayoutCount(NewBoard(false), white);
  }

  lemma LayoutCount(b: Board, white: bool)
    requires forall p :: b.at(p) == InitialMan(p)
    ensures ManCount(b, white) == 16.0
  {
    var g := (p: Pos) => Own(b.at(p), white);
    var mine := (k: int) => if (white && k <= 2) || (!white && k >= 7) then 1.0 else 0.0;
    forall p: Pos ensures g(p) == mine(p.rank) {
      var m := InitialMan(p);
      assert m.Some? <==> p.rank <= 2 || p.rank >= 7;
      assert m.Some? ==> (m.value.white <==> p.rank <= 2);
    }
    ByRank(g, mine);
  }

  // ----------------------------------------------------------------- text

  /** The lower-case letter `to_string` uses for a piece kind. */
  function Letter(n: Name): char
  {
    match n
    case Rook => 'r'
    case Knight => 'n'
    case Bishop => 'b'
    case King => 'k'
    case Queen => 'q'
    case Pawn => 'p'
  }

  /** The character printed for one space: the piece letter, upper-cased
      (`- 32`) for white pieces; for an empty space `0` on a white square and
      `1` on a dark one. */
  function Icon(sp: Space): char
  {
    match sp.piece
    case Some(pc) => if pc.white then (Letter(pc.name) as int - 32) as char else Letter(pc.name)
    case None => if sp.white then '0' else '1'
  }

  function Cells(b: Board, r: Coord, f: int): string
    requires 1 <= f <= 9
    decreases 9 - f
  {
    if f > 8 then "" else [Icon(Get(b, Pos(r, f))), '|'] + Cells(b, r, f + 1)
  }

  /** One line of `board::to_string`: "|", then each cell followed by "|", then a newline. */
  function Line(b: Board, r: Coord): string
  {
    "|" + Cells(b, r, 1) + "\n"
  }

  /** The lines for ranks r down to 1. */
  function Rows(b: Board, r: int): (ls: seq<string>)
    requires 0 <= r <= 8
    ensures |ls| == r
  {
    if r == 0 then [] else [Line(b, r)] + Rows(b, r - 1)
  }

  function Join(ls: seq<string>): string
  {
    if |ls| == 0 then "" else ls[0] + Join(ls[1..])
  }

  /** `board::to_string`: ranks 8 down to 1. */
  function ToString(b: Board): string
  {
    Join(Rows(b, 8))
  }

  lemma {:induction false} CellsLength(b: Board, r: Coord, f: int)
    requires 1 <= f <= 9
    ensures |Cells(b, r, f)| == 2 * (9 - f)
    decreases 9 - f
  {
    if f <= 8 {
      CellsLength(b, r, f + 1);
    }
  }

  lemma {:induction false} CellsAt(b: Board, r: Coord, f: int, k: Coord)
    requires 1 <= f <= k
    ensures |Cells(b, r, f)| == 2 * (9 - f)
    ensures Cells(b, r, f)[2 * (k - f)] == Icon(Get(b, Pos(r, k)))
    ensures Cells(b, r, f)[2 * (k - f) + 1] == '|'
    decreases 9 - f
  {
    CellsLength(b, r, f);
    if f < k {
      CellsAt(b, r, f + 1, k);
    }
  }

  lemma LineShape(b: Board, r: Coord)
    ensures |Line(b, r)| == 18
    ensures Line(b, r)[0] == '|' && Line(b, r)[17] == '\n'
  {
    CellsLength(b, r, 1);
  }

  /** Square (r, k) prints at column 2k - 1 of its line, followed by a bar. */
  lemma LineAt(b: Board, r: Coord, k: Coord)
    ensures |Line(b, r)| == 18
    ensures Line(b, r)[2 * k - 1] == Icon(Get(b, Pos(r, k))) && Line(b, r)[2 * k] == '|'
  {
    CellsAt(b, r, 1, k);
  }

  lemma {:induction false} RowsAt(b: Board, r: int, k: Coord)
    requires k <= r <= 8
    ensures Rows(b, r)[r - k] == Line(b, k)
  {
    if k < r {
      RowsAt(b, r - 1, k);
    }
  }

  /** Joining lines of 18 characters: line i occupies 18i .. 18i + 17. */
  lemma {:induction false} JoinAt(ls: seq<string>, i: int, j: int)
    requires forall n :: 0 <= n < |ls| ==> |ls[n]| == 18
    requires 0 <= i < |ls| && 0 <= j < 18
    ensures |Join(ls)| == 18 * |ls|
    ensures Join(ls)[18 * i + j] == ls[i][j]
  {
    JoinLength(ls);
    JoinLength(ls[1..]);
    if i > 0 {
      JoinAt(ls[1..], i - 1, j);
    }
  }

  lemma {:induction false} JoinLength(ls: seq<string>)
    requires forall n :: 0 <= n < |ls| ==> |ls[n]| == 18
    ensures |Join(ls)| == 18 * |ls|
  {
    if |ls| > 0 {
      JoinLength(ls[1..]);
    }
  }

  lemma RowsLength(b: Board)
    ensures forall n :: 0 <= n < 8 ==> |Rows(b, 8)[n]| == 18
  {
    forall n | 0 <= n < 8 ensures |Rows(b, 8)[n]| == 18 {
      RowsAt(b, 8, 8 - n);
      LineShape(b, 8 - n);
    }
  }

  /** Line 8 - k of the text is rank k's line. */
  lemma ToStringLine(b: Board, k: Coord, i: int)
    requires 0 <= i < 18
    ensures |ToString(b)| == 144
    ensures ToString(b)[18 * (8 - k) + i] == Line(b, k)[i]
  {
    RowsLength(b);
    RowsAt(b, 8, k);
    JoinAt(Rows(b, 8), 8 - k, i);
  }

  /** Where square (r, f) lands in `to_string`: line 8 - r, column 2f - 1. */
  function TextIndex(p: Pos): nat
  {
    18 * (8 - p.rank) + 2 * p.file - 1
  }

  /** The text is 144 characters: eight 18-character lines, rank 8 first,
      each opening with a bar and closing with a newline. */
  lemma ToStringShape(b: Board, k: Coord)
    ensures |ToString(b)| == 144
    ensures ToString(b)[18 * (8 - k)] == '|' && ToString(b)[18 * (8 - k) + 17] == '\n'
  {
    ToStringLine(b, k, 0);
    ToStringLine(b, k, 17);
    LineShape(b, k);
  }

  /** Each square's character sits at `TextIndex`. */
  lemma ToStringAt(b: Board, p: Pos)
    ensures |ToString(b)| == 144
    ensures ToString(b)[TextIndex(p)] == Icon(Get(b, p))
  {
    ToStringLine(b, p.rank, 2 * p.file - 1);
    LineAt(b, p.rank, p.file);
  }

  /** Reads a cell back: a letter names a piece (upper case = white),
      anything else an empty square. */
  function DecodeIcon(c: char): Option<Man>
  {
    match c
    case 'r' => Some(Man(Rook, false))
    case 'n' => Some(Man(Knight, false))
    case 'b' => Some(Man(Bishop, false))
    case 'k' => Some(Man(King, false))
    case 'q' => Some(Man(Queen, false))
    case 'p' => Some(Man(Pawn, false))
    case 'R' => Some(Man(Rook, true))
    case 'N' => Some(Man(Knight, true))
    case 'B' => Some(Man(Bishop, true))
    case 'K' => Some(Man(King, true))
    case 'Q' => Some(Man(Queen, true))
    case 'P' => Some(Man(Pawn, true))
    case _ => None
  }

  lemma DecodeIconInverse(b: Board, p: Pos)
    ensures DecodeIcon(Icon(Get(b, p))) == b.at(p)
  {
  }

  /** The text form determines the board: two boards that print alike hold
      the same man on every square. */
  lemma ToStringDeterminesBoard(b1: Board, b2: Board, p: Pos)
    requires ToString(b1) == ToString(b2)
    ensures b1.at(p) == b2.at(p)
  {
    ToStringAt(b1, p);
    ToStringAt(b2, p);
    DecodeIconInverse(b1, p);
    DecodeIconInverse(b2, p);
  }
}
