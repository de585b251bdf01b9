/** The text protocol between the server controller
    (game/controllers/src/server_controller.cpp) and the networked client
    (networking/client/src/client_game.cpp). A request or reply is a command
    prefix followed by a payload; squares travel as two characters, file
    letter then rank digit. The four prefixes are defined outside this model
    and are parameters here. */
module Wire {
  import opened Wrappers
  import opened Geometry
  import opened Status
  import opened Spaces
  import opened Board

  datatype Commands = Commands(updateBoard: string, possibleMoves: string, move: string, status: string)

  predicate StartsWith(s: string, prefix: string)
  {
    |prefix| <= |s| && s[..|prefix|] == prefix
  }

  /** `s[i]`, reading the terminating NUL at and past the end. */
  function CharAt(s: string, i: nat): char
  {
    if i < |s| then s[i] else 0 as char
  }

  // ------------------------------------------------------------ squares

  /** `to_pos(file, rank)`: the square named by a letter and a digit, or the
      error "Non Position String:" followed by the two characters. */
  function ToPos(file: char, rank: char): (r: Result<Pos, string>)
    ensures r.Failure? ==> r.error == "Non Position String:" + [file, rank]
  {
    match Itopos(1 + (rank as int - '1' as int), 1 + (file as int - 'A' as int))
    case Some(p) => Success(p)
    case None => Failure("Non Position String:" + [file, rank])
  }

  /** `to_pos` accepts exactly the letters A to H followed by the digits 1 to
      8, and then reads back the square whose name those characters are. */
  lemma ToPosExact(file: char, rank: char)
    ensures ToPos(file, rank).Success? <==> 'A' <= file <= 'H' && '1' <= rank <= '8'
    ensures ToPos(file, rank).Success? ==> PosToString(ToPos(file, rank).value) == [file, rank]
  {
    if ToPos(file, rank).Success? {
      var s := PosToString(ToPos(file, rank).value);
      assert s[0] == file && s[1] == rank;
    }
  }

  /** Printing a square and reading it back gives the square. */
  lemma ToPosRoundTrip(p: Pos)
    ensures ToPos(PosToString(p)[0], PosToString(p)[1]) == Success(p)
  {
  }

  // ------------------------------------------------------------ move lists

  /** The payload of a possible-moves reply: every square's two characters, in order. */
  function MovesText(ps: seq<Pos>): (s: string)
    ensures |s| == 2 * |ps|
  {
    if |ps| == 0 then "" else PosToString(ps[0]) + MovesText(ps[1..])
  }

  function Positions(sps: seq<Space>): (ps: seq<Pos>)
    ensures |ps| == |sps|
    ensures forall i :: 0 <= i < |sps| ==> ps[i] == Position(sps[i])
  {
    if |sps| == 0 then [] else [Position(sps[0])] + Positions(sps[1..])
  }

  /** Reads consecutive two-character squares; the first bad pair's error wins. */
  function ParsePositions(s: string): (r: Result<seq<Pos>, string>)
    requires |s| % 2 == 0
    ensures r.Success? ==> 2 * |r.value| == |s|
    decreases |s|
  {
    if |s| == 0 then Success([])
    else
      match ToPos(s[0], s[1])
      case Failure(e) => Failure(e)
      case Success(p) =>
        match ParsePositions(s[2..])
        case Failure(e) => Failure(e)
        case Success(ps) => Success([p] + ps)
  }

  /** Parsing inverts printing. */
  lemma {:induction false} ParseMovesText(ps: seq<Pos>)
    ensures ParsePositions(MovesText(ps)) == Success(ps)
  {
    if |ps| > 0 {
      var s := MovesText(ps);
      var name := PosToString(ps[0]);
      assert s[0] == name[0] && s[1] == name[1];
      assert s[2..] == MovesText(ps[1..]);
      ToPosRoundTrip(ps[0]);
      assert ToPos(s[0], s[1]) == Success(ps[0]);
      ParseMovesText(ps[1..]);
      assert [ps[0]] + ps[1..] == ps;
    }
  }

  /** Printing inverts a successful parse: the parsed squares spell the text. */
  lemma {:induction false} MovesTextOfParse(s: string)
    requires |s| % 2 == 0
    requires ParsePositions(s).Success?
    ensures MovesText(ParsePositions(s).value) == s
    decreases |s|
  {
    if |s| > 0 {
      ToPosExact(s[0], s[1]);
      MovesTextOfParse(s[2..]);
      assert s == [s[0], s[1]] + s[2..];
    }
  }

  /** The client's `string_to_spaces`: an odd-length payload is an error;
      otherwise each square is looked up on the client's board. */
  function StringToSpaces(b: Board, s: string): (r: Result<seq<Space>, string>)
    ensures |s| % 2 != 0 ==> r == Failure("Possible Moves Response is not even length: " + s)
    ensures r.Success? ==> 2 * |r.value| == |s| && forall i :: 0 <= i < |r.value| ==> r.value[i].piece.Some? ==> r.value[i].piece.value.pos == Position(r.value[i])
  {
    if |s| % 2 != 0 then Failure("Possible Moves Response is not even length: " + s)
    else
      match ParsePositions(s)
      case Failure(e) => Failure(e)
      case Success(ps) => Success(GetAll(b, ps))
  }

  function GetAll(b: Board, ps: seq<Pos>): (sps: seq<Space>)
    ensures |sps| == |ps|
    ensures forall i :: 0 <= i < |ps| ==> sps[i] == Get(b, ps[i])
  {
    if |ps| == 0 then [] else [Get(b, ps[0])] + GetAll(b, ps[1..])
  }

  // ------------------------------------------------------------ server

  /** The game the server serves: its board text, the space at a square, the
      spaces a space's piece may move to, playing a move, and its state. */
  datatype Game<!G> = Game(
    text: G -> string,
    get: (G, Pos) -> Space,
    legal: (G, Space) -> seq<Space>,
    play: (G, Space, Space) -> (G, MoveStatus),
    state: G -> GameState)

  /** `game_state` of game/game/include/game.hpp. */
  datatype GameState = WhiteMove | BlackMove | WhiteCheck | BlackCheck | WhiteWins | BlackWins
                     | WhiteOffersDraw | BlackOffersDraw | WhiteResigns | BlackResigns | Draw | InvalidGameState

  function StateMessage(s: GameState): string
  {
    match s
    case WhiteMove => "White to move"
    case BlackMove => "Black to move"
    case WhiteCheck => "White is in check"
    case BlackCheck => "Black is in check"
    case WhiteWins => "White wins"
    case BlackWins => "Black wins"
    case WhiteOffersDraw => "White offers a draw"
    case BlackOffersDraw => "Black offers a draw"
    case WhiteResigns => "White resigns"
    case BlackResigns => "Black resigns"
    case Draw => "Game is a draw"
    case InvalidGameState => "Invalid game state"
  }

  /** `possible_moves_handler`: the possible-moves prefix and the squares the
      piece on the named square may reach; the empty string when the first
      two characters do not name a square. */
  function PossibleMovesHandler<G>(cmds: Commands, eng: Game<G>, g: G, move: string): (reply: string)
    ensures ToPos(CharAt(move, 0), CharAt(move, 1)).Failure? ==> reply == ""
  {
    match ToPos(CharAt(move, 0), CharAt(move, 1))
    case Failure(_) => ""
    case Success(p) => cmds.possibleMoves + MovesText(Positions(eng.legal(g, eng.get(g, p))))
  }

  /** `move_handler`: plays source to destination and replies with the move
      prefix only when the status is `Valid`; every other status, the four
      castles among them, gets the empty string. A bad square is not caught here: its
      error escapes as a `Failure`. */
  function MoveHandler<G>(cmds: Commands, eng: Game<G>, g: G, moves: string): (r: Result<(G, string), string>)
    ensures r.Success? ==> r.value.1 == cmds.move || r.value.1 == ""
  {
    match ToPos(CharAt(moves, 0), CharAt(moves, 1))
    case Failure(e) => Failure(e)
    case Success(src) =>
      match ToPos(CharAt(moves, 2), CharAt(moves, 3))
      case Failure(e) => Failure(e)
      case Success(dst) =>
        var (g2, status) := eng.play(g, eng.get(g, src), eng.get(g, dst));
        Success((g2, if status == Valid then cmds.move else ""))
  }

  /** What one message read by `listen` does: the game afterwards, the
      replies written, and an escaping error if any. */
  datatype Step<G> = Step(game: G, writes: seq<string>, fault: Option<string>)

  /** One turn of `listen`'s loop as written: the first matching prefix
      decides. A possible-moves or move payload of the wrong size is answered
      with the empty string and then handled anyway. */
  function Dispatch<G>(cmds: Commands, eng: Game<G>, g: G, read: string): (r: Step<G>)
    ensures StartsWith(read, cmds.updateBoard) ==> r == Step(g, [cmds.updateBoard + eng.text(g)], None)
    ensures (!StartsWith(read, cmds.updateBoard) && !StartsWith(read, cmds.possibleMoves)
             && !StartsWith(read, cmds.move) && StartsWith(read, cmds.status))
            ==> r == Step(g, [cmds.status + StateMessage(eng.state(g))], None)
    ensures (!StartsWith(read, cmds.updateBoard) && !StartsWith(read, cmds.possibleMoves)
             && !StartsWith(read, cmds.move) && !StartsWith(read, cmds.status))
            ==> r == Step(g, [], None)
    ensures r.fault.None? && r.game != g ==> !StartsWith(read, cmds.updateBoard) && !StartsWith(read, cmds.possibleMoves) && StartsWith(read, cmds.move)
  {
    if StartsWith(read, cmds.updateBoard) then
      Step(g, [cmds.updateBoard + eng.text(g)], None)
    else if StartsWith(read, cmds.possibleMoves) then
      var move := read[|cmds.possibleMoves|..];
      var early := if |move| != 2 then [""] else [];
      Step(g, early + [PossibleMovesHandler(cmds, eng, g, move)], None)
    else if StartsWith(read, cmds.move) then
      var moves := read[|cmds.move|..];
      var early := if |moves| != 4 then [""] else [];
      match MoveHandler(cmds, eng, g, moves)
      case Failure(e) => Step(g, early, Some(e))
      case Success((g2, w)) => Step(g2, early + [w], None)
    else if StartsWith(read, cmds.status) then
      Step(g, [cmds.status + StateMessage(eng.state(g))], None)
    else
      Step(g, [], None)
  }

  /** A possible-moves request of the wrong size is answered twice. */
  lemma DispatchAnswersTwice<G>(cmds: Commands, eng: Game<G>, g: G)
    requires !StartsWith(cmds.possibleMoves + "A1x", cmds.updateBoard)
    ensures |Dispatch(cmds, eng, g, cmds.possibleMoves + "A1x").writes| == 2
  {
    var read := cmds.possibleMoves + "A1x";
    assert read[..|cmds.possibleMoves|] == cmds.possibleMoves;
    assert read[|cmds.possibleMoves|..] == "A1x";
  }

  /** `listen` with a `return` after rejecting a payload of the wrong size. */
  function DispatchIntended<G>(cmds: Commands, eng: Game<G>, g: G, read: string): (r: Step<G>)
    ensures |r.writes| <= 1
    ensures r.fault.Some? ==> r.writes == [] && r.game == g
  {
    if StartsWith(read, cmds.updateBoard) then
      Step(g, [cmds.updateBoard + eng.text(g)], None)
    else if StartsWith(read, cmds.possibleMoves) then
      var move := read[|cmds.possibleMoves|..];
      if |move| != 2 then Step(g, [""], None)
      else Step(g, [PossibleMovesHandler(cmds, eng, g, move)], None)
    else if StartsWith(read, cmds.move) then
      var moves := read[|cmds.move|..];
      if |moves| != 4 then Step(g, [""], None)
      else
        match MoveHandler(cmds, eng, g, moves)
        case Failure(e) => Step(g, [], Some(e))
        case Success((g2, w)) => Step(g2, [w], None)
    else if StartsWith(read, cmds.status) then
      Step(g, [cmds.status + StateMessage(eng.state(g))], None)
    else
      Step(g, [], None)
  }

  /** On well-sized payloads the corrected loop behaves exactly as written. */
  lemma DispatchIntendedAgrees<G>(cmds: Commands, eng: Game<G>, g: G, read: string)
    requires StartsWith(read, cmds.possibleMoves) ==> |read| == |cmds.possibleMoves| + 2
    requires StartsWith(read, cmds.move) ==> |read| == |cmds.move| + 4
    ensures DispatchIntended(cmds, eng, g, read) == Dispatch(cmds, eng, g, read)
  {
  }

  // ------------------------------------------------------------ client

  /** The client's request for the moves of `sp`. */
  function PossibleMovesRequest(cmds: Commands, sp: Space): (req: string)
    ensures StartsWith(req, cmds.possibleMoves) && |req| == |cmds.possibleMoves| + 2
  {
    cmds.possibleMoves + PosToString(Position(sp))
  }

  /** The client's `possible_moves` on a reply: a reply without the prefix
      gives no moves; otherwise the payload is read as squares on the
      client's board, and a malformed payload is an error. */
  function ClientPossibleMoves(cmds: Commands, b: Board, msg: string): (r: Result<seq<Space>, string>)
    ensures !StartsWith(msg, cmds.possibleMoves) ==> r == Success([])
  {
    if !StartsWith(msg, cmds.possibleMoves) then Success([])
    else StringToSpaces(b, msg[|cmds.possibleMoves|..])
  }

  /** The client's `update_board`: a reply without the prefix leaves the
      board as it was; otherwise the whole message goes to the board loader,
      which is outside this model. */
  function ClientUpdateBoard(cmds: Commands, b: Board, msg: string, load: string -> Board): (r: Board)
    ensures !StartsWith(msg, cmds.updateBoard) ==> r == b
    ensures StartsWith(msg, cmds.updateBoard) ==> r == load(msg)
  {
    if !StartsWith(msg, cmds.updateBoard) then b else load(msg)
  }

  /** End to end: when no other prefix shadows the possible-moves prefix,
      the client asking for the moves of `sp` gets back, looked up on its own
      board, exactly the squares of the spaces the server's game lists. */
  lemma PossibleMovesRoundTrip<G>(cmds: Commands, eng: Game<G>, g: G, b: Board, sp: Space)
    requires !StartsWith(PossibleMovesRequest(cmds, sp), cmds.updateBoard)
    ensures var replies := Dispatch(cmds, eng, g, PossibleMovesRequest(cmds, sp)).writes;
            var ps := Positions(eng.legal(g, eng.get(g, Position(sp))));
            |replies| == 1 && ClientPossibleMoves(cmds, b, replies[0]) == Success(GetAll(b, ps))
  {
    var req := PossibleMovesRequest(cmds, sp);
    var name := PosToString(Position(sp));
    assert req[|cmds.possibleMoves|..] == name;
    ToPosRoundTrip(Position(sp));
    var ps := Positions(eng.legal(g, eng.get(g, Position(sp))));
    var reply := cmds.possibleMoves + MovesText(ps);
    assert reply[..|cmds.possibleMoves|] == cmds.possibleMoves;
    assert reply[|cmds.possibleMoves|..] == MovesText(ps);
    ParseMovesText(ps);
  }
}
