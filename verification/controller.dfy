/** `controller` (game/controllers/src/controller.cpp): remembers one
    selected space and forwards a move from it to the shared game. The game
    is any state `G` with two operations handed in: `get`, the space at a
    square, and `move`, which plays a move and reports its status. In the
    source the game is a static member shared by every controller, so one
    controller sees the moves another makes; here each controller value
    carries the game it acts on, and sharing is left to the caller. */
module Controllers {
  import opened Wrappers
  import opened Geometry
  import opened Status
  import opened Spaces

  datatype Controller<G> = Controller(game: G, selected: Option<Space>)

  /** `select_space`: remembers the game's space at `pos`; the game is untouched. */
  function SelectSpace<G>(c: Controller<G>, get: (G, Pos) -> Space, pos: Pos): (r: Controller<G>)
    ensures r.game == c.game
    ensures r.selected == Some(get(c.game, pos))
  {
    Controller(c.game, Some(get(c.game, pos)))
  }

  /** `move`: with a selection, plays it to `dst`; without one, reports
      `NoSpaceToMoveFrom` and leaves the game alone. Either way the selection
      is cleared. */
  function Move<G>(c: Controller<G>, gameMove: (G, Space, Space) -> (G, MoveStatus), dst: Space): (r: (Controller<G>, MoveStatus))
    ensures r.0.selected.None?
    ensures c.selected.None? ==> r.0.game == c.game && r.1 == NoSpaceToMoveFrom
    ensures c.selected.Some? ==> (r.0.game, r.1) == gameMove(c.game, c.selected.value, dst)
  {
    match c.selected
    case None => (Controller(c.game, None), NoSpaceToMoveFrom)
    case Some(src) =>
      var (g, status) := gameMove(c.game, src, dst);
      (Controller(g, None), status)
  }

  /** Selecting a square then moving plays exactly that square's space to
      `dst`; a second move without a new selection does nothing and says so. */
  lemma SelectThenMove<G>(c: Controller<G>, get: (G, Pos) -> Space, gameMove: (G, Space, Space) -> (G, MoveStatus), pos: Pos, dst: Space, dst2: Space)
    ensures var (c1, s1) := Move(SelectSpace(c, get, pos), gameMove, dst);
            (c1.game, s1) == gameMove(c.game, get(c.game, pos), dst)
            && Move(c1, gameMove, dst2) == (c1, NoSpaceToMoveFrom)
  {
  }
}
