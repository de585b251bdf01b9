/** `move_status` and its two helpers from game/pieces/include/piece.hpp. */
module Status {

  datatype MoveStatus =
    | Valid
    | PieceError
    | BoardStateError
    | InvalidTurn
    | DoesntLeaveCheck
    | EntersCheck
    | NoPieceToMove
    | NoSpaceToMoveFrom
    | IllegalMove
    | KingSideCastleWhite
    | KingSideCastleBlack
    | QueenSideCastleWhite
    | QueenSideCastleBlack

  predicate IsCastle(s: MoveStatus)
  {
    s.KingSideCastleWhite? || s.KingSideCastleBlack? || s.QueenSideCastleWhite? || s.QueenSideCastleBlack?
  }

  /** `is_success_status`. */
  predicate IsSuccessStatus(s: MoveStatus)
  {
    s == Valid || s == KingSideCastleWhite || s == KingSideCastleBlack
    || s == QueenSideCastleWhite || s == QueenSideCastleBlack
  }

  /** `to_string(move_status)`: one fixed message per status, of the length
      `MessageLength` gives; a castle's message opens with the side's initial.
      The trailing "INVALID STATUS CODE" return is unreachable for a
      well-formed enum. */
  function StatusMessage(s: MoveStatus): (m: string)
    ensures |m| == MessageLength(s)
    ensures IsCastle(s) ==> m[0] == if WhiteCastle(s) then 'W' else 'B'
  {
    match s
    case Valid => "VALID"
    case PieceError => "PIECE DOES NOT MOVE LIKE THAT"
    case BoardStateError => "THE CURRENT BOARD STATE DOES NOT ALLOW FOR THIS MOVE"
    case InvalidTurn => "IT IS NOT YOUR TURN"
    case DoesntLeaveCheck => "THIS MOVE FAILS TO LEAVE CHECK"
    case EntersCheck => "THIS MOVE CAUSES YOU TO ENTER CHECK"
    case NoPieceToMove => "THERE IS NO PIECE AT THIS SPACE TO MOVE"
    case NoSpaceToMoveFrom => "YOU NEED TO SELECT A SPACE FIRST"
    case IllegalMove => "ILLEGAL MOVE"
    case KingSideCastleWhite => "WHITE KING-SIDE CASTLE"
    case KingSideCastleBlack => "BLACK KING-SIDE CASTLE"
    case QueenSideCastleWhite => "WHITE QUEEN-SIDE CASTLE"
    case QueenSideCastleBlack => "BLACK QUEEN-SIDE CASTLE"
  }

  /** A success is either a plain valid move or one of the four castles. */
  lemma SuccessIsValidOrCastle(s: MoveStatus)
    ensures IsSuccessStatus(s) <==> (s == Valid || IsCastle(s))
  {
  }

  /** Message lengths: only the white and black form of each castle share one. */
  function MessageLength(s: MoveStatus): nat
  {
    match s
    case Valid => 5
    case PieceError => 29
    case BoardStateError => 52
    case InvalidTurn => 19
    case DoesntLeaveCheck => 30
    case EntersCheck => 35
    case NoPieceToMove => 39
    case NoSpaceToMoveFrom => 32
    case IllegalMove => 12
    case KingSideCastleWhite => 22
    case KingSideCastleBlack => 22
    case QueenSideCastleWhite => 23
    case QueenSideCastleBlack => 23
  }

  predicate WhiteCastle(s: MoveStatus)
  {
    s == KingSideCastleWhite || s == QueenSideCastleWhite
  }

  /** Every status has its own message, so the text identifies the status. */
  lemma StatusMessageInjective(s: MoveStatus, t: MoveStatus)
    requires StatusMessage(s) == StatusMessage(t)
    ensures s == t
  {
    assert MessageLength(s) == MessageLength(t);
  }
}
