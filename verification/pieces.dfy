/** `piece` (game/pieces/include/piece.hpp, game/pieces/src/piece.cpp): a
    typed, coloured piece standing on a square, with the dispatch to its
    move pattern and the castling special case of `piece::move`. */
module Pieces {
  import opened Geometry
  import opened Status
  import opened Patterns

  /** `name_t`. */
  datatype Name = Rook | Knight | Bishop | King | Queen | Pawn

  datatype Piece = Piece(name: Name, white: bool, pos: Pos)

  /** The virtual `possible_moves` of each subclass. */
  function PossibleMoves(pc: Piece): seq<Pos>
  {
    match pc.name
    case Rook => RookMoves(pc.pos)
    case Knight => KnightMoves(pc.pos)
    case Bishop => BishopMoves(pc.pos)
    case King => KingMoves(pc.pos)
    case Queen => QueenMoves(pc.pos)
    case Pawn => PawnMoves(pc.pos, pc.white)
  }

  /** No pattern ever contains the square the piece stands on. */
  lemma OwnSquareNeverGenerated(pc: Piece)
    ensures pc.pos !in PossibleMoves(pc)
  {
    match pc.name
    case Rook => RookMovesExact(pc.pos, pc.pos);
    case Knight => KnightMovesExact(pc.pos, pc.pos);
    case Bishop => BishopMovesExact(pc.pos, pc.pos);
    case King => KingMovesExact(pc.pos, pc.pos);
    case Queen => QueenMovesExact(pc.pos, pc.pos);
    case Pawn => PawnMovesExact(pc.pos, pc.white, pc.pos);
  }

  /** `piece::place`: never fails, only the position changes. */
  function Place(pc: Piece, dst: Pos): (r: Piece)
    ensures r.pos == dst && r.name == pc.name && r.white == pc.white
  {
    pc.(pos := dst)
  }

  /** The castling status `piece::move` reports for a king target outside the
      pattern, if any: g1/c1 for white, g8/c8 for black. */
  function CastleStatus(white: bool, dst: Pos): Status.MoveStatus
  {
    if white then
      if dst == Pos(1, 7) then KingSideCastleWhite
      else if dst == Pos(1, 3) then QueenSideCastleWhite
      else PieceError
    else
      if dst == Pos(8, 7) then KingSideCastleBlack
      else if dst == Pos(8, 3) then QueenSideCastleBlack
      else PieceError
  }

  datatype MoveOutcome = MoveOutcome(piece: Piece, status: Status.MoveStatus)

  /** `piece::move`. */
  function Move(pc: Piece, dst: Pos): (o: MoveOutcome)
    ensures dst in PossibleMoves(pc) ==> o.status == Valid && o.piece == Place(pc, dst)
    ensures (dst !in PossibleMoves(pc) && pc.name == King && pc.white && dst == Pos(1, 7))
              ==> o.status == KingSideCastleWhite && o.piece == Place(pc, dst)
    ensures (dst !in PossibleMoves(pc) && pc.name == King && pc.white && dst == Pos(1, 3))
              ==> o.status == QueenSideCastleWhite && o.piece == Place(pc, dst)
    ensures (dst !in PossibleMoves(pc) && pc.name == King && !pc.white && dst == Pos(8, 7))
              ==> o.status == KingSideCastleBlack && o.piece == Place(pc, dst)
    ensures (dst !in PossibleMoves(pc) && pc.name == King && !pc.white && dst == Pos(8, 3))
              ==> o.status == QueenSideCastleBlack && o.piece == Place(pc, dst)
    // a success moves the piece to dst; anything else is a piece error that leaves it in place
    ensures IsSuccessStatus(o.status) ==> o.piece == Place(pc, dst)
    ensures !IsSuccessStatus(o.status) ==> o.status == PieceError && o.piece == pc
    ensures IsCastle(o.status) ==> pc.name == King && dst !in PossibleMoves(pc)
  {
    if dst !in PossibleMoves(pc) then
      if pc.name == King then
        var s := CastleStatus(pc.white, dst);
        if s == PieceError then MoveOutcome(pc, PieceError) else MoveOutcome(Place(pc, dst), s)
      else MoveOutcome(pc, PieceError)
    else
      MoveOutcome(Place(pc, dst), Valid)
  }

  /** `piece::copy_piece`: builds a fresh object of the same subclass from the
      source's colour, rank and file. */
  function CopyPiece(src: Piece): (c: Piece)
    ensures c.name == src.name && c.white == src.white
    ensures c.pos.rank == src.pos.rank && c.pos.file == src.pos.file
  {
    match src.name
    case Rook => Piece(Rook, src.white, Pos(src.pos.rank, src.pos.file))
    case Knight => Piece(Knight, src.white, Pos(src.pos.rank, src.pos.file))
    case Bishop => Piece(Bishop, src.white, Pos(src.pos.rank, src.pos.file))
    case King => Piece(King, src.white, Pos(src.pos.rank, src.pos.file))
    case Queen => Piece(Queen, src.white, Pos(src.pos.rank, src.pos.file))
    case Pawn => Piece(Pawn, src.white, Pos(src.pos.rank, src.pos.file))
  }
}
