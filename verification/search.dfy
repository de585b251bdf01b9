/** The search of `ai_controller` (game/controllers/src/ai_controller.cpp):
    depth-limited minimax with alpha-beta pruning, and the root loop
    `select_best_move`; and the same search in Smarter_GA.py. The game is
    abstracted to the tree of positions its legal moves reach: each node
    holds a position, whether the game is over there, and one child per
    legal move, in the order `legal_moves` lists them. The evaluator is a
    parameter; the C++ passes it the side being maximised. Scores are exact
    reals with the two infinities the search starts from. */
module Search {
  import opened Wrappers

  datatype Ext = NegInf | Fin(v: real) | PosInf

  predicate Le(x: Ext, y: Ext)
  {
    match (x, y)
    case (NegInf, _) => true
    case (_, PosInf) => true
    case (Fin(a), Fin(b)) => a <= b
    case _ => false
  }

  predicate Lt(x: Ext, y: Ext)
  {
    !Le(y, x)
  }

  /** `std::max`: the second argument when the first is smaller. */
  function Max(x: Ext, y: Ext): Ext
  {
    if Lt(x, y) then y else x
  }

  function Min(x: Ext, y: Ext): Ext
  {
    if Lt(y, x) then y else x
  }

  datatype Tree<S> = Node(state: S, over: bool, kids: seq<Tree<S>>)

  // -------------------------------------------------------------- minimax

  /** Plain minimax: the reference the pruned search is measured against. */
  function Minimax<S>(t: Tree<S>, depth: int, maximizing: bool, eval: (S, bool) -> real): Ext
    decreases t
  {
    if depth == 0 || t.over then Fin(eval(t.state, maximizing))
    else if maximizing then BestMax(t.kids, depth, eval)
    else BestMin(t.kids, depth, eval)
  }

  function BestMax<S>(ks: seq<Tree<S>>, depth: int, eval: (S, bool) -> real): Ext
    decreases ks
  {
    if |ks| == 0 then NegInf
    else Max(Minimax(ks[0], depth - 1, false, eval), BestMax(ks[1..], depth, eval))
  }

  function BestMin<S>(ks: seq<Tree<S>>, depth: int, eval: (S, bool) -> real): Ext
    decreases ks
  {
    if |ks| == 0 then PosInf
    else Min(Minimax(ks[0], depth - 1, true, eval), BestMin(ks[1..], depth, eval))
  }

  // ----------------------------------------------------------- alpha-beta

  /** `minimax`: at a leaf (depth 0 or game over) the evaluation; otherwise
      the children in order, each searched one ply shallower for the other
      side with the window narrowed by the scores seen so far, stopping as
      soon as beta <= alpha. The value is fail-soft: it may lie outside the
      window. */
  function AlphaBeta<S>(t: Tree<S>, depth: int, alpha: Ext, beta: Ext, maximizing: bool, eval: (S, bool) -> real): Ext
    decreases t
  {
    if depth == 0 || t.over then Fin(eval(t.state, maximizing))
    else if maximizing then MaxLoop(t.kids, depth, alpha, beta, NegInf, eval)
    else MinLoop(t.kids, depth, alpha, beta, PosInf, eval)
  }

  /** The maximising loop from some child on; `best` is `max_eval` so far. */
  function MaxLoop<S>(ks: seq<Tree<S>>, depth: int, alpha: Ext, beta: Ext, best: Ext, eval: (S, bool) -> real): Ext
    decreases ks
  {
    if |ks| == 0 then best
    else
      var s := AlphaBeta(ks[0], depth - 1, alpha, beta, false, eval);
      var best' := Max(best, s);
      var alpha' := Max(alpha, s);
      if Le(beta, alpha') then best' else MaxLoop(ks[1..], depth, alpha', beta, best', eval)
  }

  function MinLoop<S>(ks: seq<Tree<S>>, depth: int, alpha: Ext, beta: Ext, best: Ext, eval: (S, bool) -> real): Ext
    decreases ks
  {
    if |ks| == 0 then best
    else
      var s := AlphaBeta(ks[0], depth - 1, alpha, beta, true, eval);
      var best' := Min(best, s);
      var beta' := Min(beta, s);
      if Le(beta', alpha) then best' else MinLoop(ks[1..], depth, alpha, beta', best', eval)
  }

  /** What a fail-soft search with window (a, b) promises about the true
      value v when it returns r: inside the window r is v; below it r is an
      upper bound on v that is still at most a; above it r is a lower bound
      on v that is still at least b. */
  predicate FailSoft(v: Ext, r: Ext, a: Ext, b: Ext)
  {
    (Lt(a, v) && Lt(v, b) ==> r == v) &&
    (Le(v, a) ==> Le(v, r) && Le(r, a)) &&
    (Le(b, v) ==> Le(b, r) && Le(r, v))
  }

  lemma {:induction false} AlphaBetaSound<S>(t: Tree<S>, depth: int, a: Ext, b: Ext, maximizing: bool, eval: (S, bool) -> real)
    requires Lt(a, b)
    ensures FailSoft(Minimax(t, depth, maximizing, eval), AlphaBeta(t, depth, a, b, maximizing, eval), a, b)
    decreases t
  {
    if !(depth == 0 || t.over) {
      if maximizing {
        MaxLoopSound(t.kids, depth, a, b, NegInf, eval);
      } else {
        MinLoopSound(t.kids, depth, a, b, PosInf, eval);
      }
    }
  }

  lemma LeTotal(x: Ext, y: Ext)
    ensures Le(x, y) || Le(y, x)
  {
  }

  lemma LeTrans(x: Ext, y: Ext, z: Ext)
    requires Le(x, y) && Le(y, z)
    ensures Le(x, z)
  {
  }

  lemma LeAntisym(x: Ext, y: Ext)
    requires Le(x, y) && Le(y, x)
    ensures x == y
  {
  }

  /** One step of the maximising loop, on values alone: the first child's
      result s obeys the window, and so does the rest of the loop when it
      runs with alpha raised to max(a, s). */
  lemma MaxStep(v0: Ext, s: Ext, rest: Ext, r': Ext, best: Ext, a: Ext, b: Ext)
    requires Lt(a, b) && Le(best, a)
    requires FailSoft(v0, s, a, b)
    requires !Le(b, Max(a, s)) ==> FailSoft(Max(Max(best, s), rest), r', Max(a, s), b)
    ensures FailSoft(Max(best, Max(v0, rest)), if Le(b, Max(a, s)) then Max(best, s) else r', a, b)
  {
    LeTotal(s, a);
    LeTotal(v0, a);
    LeTotal(b, v0);
    if Le(b, Max(a, s)) {
      MaxCutoff(v0, s, rest, best, a, b);
    } else if Le(s, a) {
      MaxBelow(v0, s, rest, r', best, a, b);
    } else {
      MaxInside(v0, s, rest, r', best, a, b);
    }
  }

  lemma MaxCutoff(v0: Ext, s: Ext, rest: Ext, best: Ext, a: Ext, b: Ext)
    requires Lt(a, b) && Le(best, a)
    requires FailSoft(v0, s, a, b)
    requires Le(b, Max(a, s))
    ensures FailSoft(Max(best, Max(v0, rest)), Max(best, s), a, b)
  {
    assert Le(b, s) && Le(b, v0);
    assert Max(best, s) == s;
  }

  lemma MaxBelow(v0: Ext, s: Ext, rest: Ext, r': Ext, best: Ext, a: Ext, b: Ext)
    requires Lt(a, b) && Le(best, a)
    requires FailSoft(v0, s, a, b)
    requires Le(s, a) && !Le(b, Max(a, s))
    requires FailSoft(Max(Max(best, s), rest), r', Max(a, s), b)
    ensures FailSoft(Max(best, Max(v0, rest)), r', a, b)
  {
    assert Max(a, s) == a;
    BelowWindow(v0, s, a, b);
    MaxMonotone(best, v0, s, rest);
    LeTotal(rest, a);
    if !Le(rest, a) {
      assert Max(best, Max(v0, rest)) == rest == Max(Max(best, s), rest);
    }
  }

  /** A result at or below alpha bounds the true value from above. */
  lemma BelowWindow(v0: Ext, s: Ext, a: Ext, b: Ext)
    requires Lt(a, b) && FailSoft(v0, s, a, b) && Le(s, a)
    ensures Le(v0, s)
  {
    LeTotal(v0, a);
    LeTotal(b, v0);
  }

  lemma AboveWindow(v0: Ext, s: Ext, a: Ext, b: Ext)
    requires Lt(a, b) && FailSoft(v0, s, a, b) && Le(b, s)
    ensures Le(s, v0)
  {
    LeTotal(v0, a);
    LeTotal(b, v0);
  }

  lemma MaxMonotone(best: Ext, x: Ext, y: Ext, rest: Ext)
    requires Le(x, y)
    ensures Le(Max(best, Max(x, rest)), Max(Max(best, y), rest))
  {
  }

  lemma MinMonotone(best: Ext, x: Ext, y: Ext, rest: Ext)
    requires Le(x, y)
    ensures Le(Min(Min(best, x), rest), Min(best, Min(y, rest)))
  {
  }

  lemma MaxInside(v0: Ext, s: Ext, rest: Ext, r': Ext, best: Ext, a: Ext, b: Ext)
    requires Lt(a, b) && Le(best, a)
    requires FailSoft(v0, s, a, b)
    requires Lt(a, s) && !Le(b, Max(a, s))
    requires FailSoft(Max(Max(best, s), rest), r', Max(a, s), b)
    ensures FailSoft(Max(best, Max(v0, rest)), r', a, b)
  {
    assert v0 == s;
    assert Max(a, s) == s && Max(best, s) == s;
    assert Max(best, Max(v0, rest)) == Max(s, rest);
  }

  lemma MinStep(v0: Ext, s: Ext, rest: Ext, r': Ext, best: Ext, a: Ext, b: Ext)
    requires Lt(a, b) && Le(b, best)
    requires FailSoft(v0, s, a, b)
    requires !Le(Min(b, s), a) ==> FailSoft(Min(Min(best, s), rest), r', a, Min(b, s))
    ensures FailSoft(Min(best, Min(v0, rest)), if Le(Min(b, s), a) then Min(best, s) else r', a, b)
  {
    LeTotal(s, b);
    LeTotal(v0, a);
    LeTotal(b, v0);
    if Le(Min(b, s), a) {
      MinCutoff(v0, s, rest, best, a, b);
    } else if Le(b, s) {
      MinAbove(v0, s, rest, r', best, a, b);
    } else {
      MinInside(v0, s, rest, r', best, a, b);
    }
  }

  lemma MinCutoff(v0: Ext, s: Ext, rest: Ext, best: Ext, a: Ext, b: Ext)
    requires Lt(a, b) && Le(b, best)
    requires FailSoft(v0, s, a, b)
    requires Le(Min(b, s), a)
    ensures FailSoft(Min(best, Min(v0, rest)), Min(best, s), a, b)
  {
    assert Le(s, a) && Le(v0, a);
    assert Min(best, s) == s;
  }

  lemma MinAbove(v0: Ext, s: Ext, rest: Ext, r': Ext, best: Ext, a: Ext, b: Ext)
    requires Lt(a, b) && Le(b, best)
    requires FailSoft(v0, s, a, b)
    requires Le(b, s) && !Le(Min(b, s), a)
    requires FailSoft(Min(Min(best, s), rest), r', a, Min(b, s))
    ensures FailSoft(Min(best, Min(v0, rest)), r', a, b)
  {
    assert Min(b, s) == b;
    AboveWindow(v0, s, a, b);
    MinMonotone(best, s, v0, rest);
    LeTotal(b, rest);
    if !Le(b, rest) {
      assert Min(best, Min(v0, rest)) == rest == Min(Min(best, s), rest);
    }
  }

  lemma MinInside(v0: Ext, s: Ext, rest: Ext, r': Ext, best: Ext, a: Ext, b: Ext)
    requires Lt(a, b) && Le(b, best)
    requires FailSoft(v0, s, a, b)
    requires Lt(s, b) && !Le(Min(b, s), a)
    requires FailSoft(Min(Min(best, s), rest), r', a, Min(b, s))
    ensures FailSoft(Min(best, Min(v0, rest)), r', a, b)
  {
    assert v0 == s;
    assert Min(b, s) == s && Min(best, s) == s;
    assert Min(best, Min(v0, rest)) == Min(s, rest);
  }

  lemma {:induction false} MaxLoopSound<S>(ks: seq<Tree<S>>, depth: int, a: Ext, b: Ext, best: Ext, eval: (S, bool) -> real)
    requires Lt(a, b) && Le(best, a)
    ensures FailSoft(Max(best, BestMax(ks, depth, eval)), MaxLoop(ks, depth, a, b, best, eval), a, b)
    decreases ks
  {
    if |ks| > 0 {
      var s := AlphaBeta(ks[0], depth - 1, a, b, false, eval);
      AlphaBetaSound(ks[0], depth - 1, a, b, false, eval);
      var a' := Max(a, s);
      if !Le(b, a') {
        MaxLoopSound(ks[1..], depth, a', b, Max(best, s), eval);
      }
      MaxStep(Minimax(ks[0], depth - 1, false, eval), s, BestMax(ks[1..], depth, eval),
              MaxLoop(ks[1..], depth, a', b, Max(best, s), eval), best, a, b);
    }
  }

  lemma {:induction false} MinLoopSound<S>(ks: seq<Tree<S>>, depth: int, a: Ext, b: Ext, best: Ext, eval: (S, bool) -> real)
    requires Lt(a, b) && Le(b, best)
    ensures FailSoft(Min(best, BestMin(ks, depth, eval)), MinLoop(ks, depth, a, b, best, eval), a, b)
    decreases ks
  {
    if |ks| > 0 {
      var s := AlphaBeta(ks[0], depth - 1, a, b, true, eval);
      AlphaBetaSound(ks[0], depth - 1, a, b, true, eval);
      var b' := Min(b, s);
      if !Le(b', a) {
        MinLoopSound(ks[1..], depth, a, b', Min(best, s), eval);
      }
      MinStep(Minimax(ks[0], depth - 1, true, eval), s, BestMin(ks[1..], depth, eval),
              MinLoop(ks[1..], depth, a, b', Min(best, s), eval), best, a, b);
    }
  }

  /** Over the full window pruning changes nothing: the search returns the
      minimax value. */
  lemma AlphaBetaFullWindow<S>(t: Tree<S>, depth: int, maximizing: bool, eval: (S, bool) -> real)
    ensures AlphaBeta(t, depth, NegInf, PosInf, maximizing, eval) == Minimax(t, depth, maximizing, eval)
  {
    AlphaBetaSound(t, depth, NegInf, PosInf, maximizing, eval);
  }

  // ------------------------------------------------------------ root move

  /** x is strictly better than y for the side to move: higher for white,
      lower for black. */
  predicate Better(white: bool, x: Ext, y: Ext)
  {
    if white then Lt(y, x) else Lt(x, y)
  }

  /** The score `best_score` starts from: the worst value for the mover. */
  function Sentinel(white: bool): Ext
  {
    if white then NegInf else PosInf
  }

  /** The root loop from move i on: a move replaces the best so far only
      when its score is strictly better. */
  function Pick(scores: seq<Ext>, white: bool, i: nat, bestScore: Ext, best: Option<nat>): Option<nat>
    decreases |scores| - i
  {
    if i >= |scores| then best
    else if Better(white, scores[i], bestScore) then Pick(scores, white, i + 1, scores[i], Some(i))
    else Pick(scores, white, i + 1, bestScore, best)
  }

  /** Move i has the best score, and every earlier move a strictly worse
      one: the first of the best. */
  predicate IsFirstBest(scores: seq<Ext>, white: bool, i: int)
  {
    0 <= i < |scores| &&
    (forall j :: 0 <= j < |scores| ==> !Better(white, scores[j], scores[i])) &&
    (forall j :: 0 <= j < i ==> Better(white, scores[i], scores[j]))
  }

  /** What the loop knows after the first i moves. */
  predicate PickState(scores: seq<Ext>, white: bool, i: nat, bestScore: Ext, best: Option<nat>)
  {
    i <= |scores| &&
    match best
    case None =>
      bestScore == Sentinel(white) && forall j :: 0 <= j < i ==> !Better(white, scores[j], Sentinel(white))
    case Some(k) =>
      k < i && bestScore == scores[k] && Better(white, scores[k], Sentinel(white)) &&
      (forall j :: 0 <= j < i ==> !Better(white, scores[j], scores[k])) &&
      (forall j :: 0 <= j < k ==> Better(white, scores[k], scores[j]))
  }

  lemma BetterOrder(white: bool, x: Ext, y: Ext, z: Ext)
    ensures Better(white, x, y) && !Better(white, z, y) ==> Better(white, x, z) && !Better(white, z, x)
    ensures !Better(white, x, y) && !Better(white, y, z) ==> !Better(white, x, z)
  {
  }

  lemma {:induction false} PickSound(scores: seq<Ext>, white: bool, i: nat, bestScore: Ext, best: Option<nat>)
    requires PickState(scores, white, i, bestScore, best)
    ensures var r := Pick(scores, white, i, bestScore, best);
      (r.None? ==> forall j :: 0 <= j < |scores| ==> !Better(white, scores[j], Sentinel(white))) &&
      (r.Some? ==> IsFirstBest(scores, white, r.value) && Better(white, scores[r.value], Sentinel(white)))
    decreases |scores| - i
  {
    if i < |scores| {
      if Better(white, scores[i], bestScore) {
        forall j | 0 <= j < i ensures Better(white, scores[i], scores[j]) && !Better(white, scores[j], scores[i]) {
          BetterOrder(white, scores[i], bestScore, scores[j]);
        }
        if best.None? {
          assert Better(white, scores[i], Sentinel(white));
        } else {
          BetterOrder(white, scores[i], bestScore, Sentinel(white));
        }
        PickSound(scores, white, i + 1, scores[i], Some(i));
      } else {
        if best.Some? {
          BetterOrder(white, scores[i], bestScore, bestScore);
        }
        PickSound(scores, white, i + 1, bestScore, best);
      }
    }
  }

  /** No move beats the sentinel exactly when every score equals it. */
  lemma SentinelUnbeaten(white: bool, x: Ext)
    ensures !Better(white, x, Sentinel(white)) <==> x == Sentinel(white)
  {
  }

  /** The scores of the root's moves: each child searched one ply shallower
      over the full window, for the other side. */
  function RootScores<S>(t: Tree<S>, depth: int, white: bool, eval: (S, bool) -> real): (r: seq<Ext>)
    ensures |r| == |t.kids|
  {
    seq(|t.kids|, i requires 0 <= i < |t.kids| => AlphaBeta(t.kids[i], depth - 1, NegInf, PosInf, !white, eval))
  }

  /** The reference scores: plain minimax of every child. */
  function MinimaxScores<S>(t: Tree<S>, depth: int, white: bool, eval: (S, bool) -> real): (r: seq<Ext>)
    ensures |r| == |t.kids|
  {
    seq(|t.kids|, i requires 0 <= i < |t.kids| => Minimax(t.kids[i], depth - 1, !white, eval))
  }

  /** `select_best_move`: "No Legal Moves" when there is no move; the first
      move with the best score otherwise. When no move's score beats the
      sentinel, `best_move.value()` throws. */
  function SelectBestMove<S>(t: Tree<S>, depth: int, white: bool, eval: (S, bool) -> real): Result<nat, string>
  {
    if |t.kids| == 0 then Failure("No Legal Moves")
    else
      match Pick(RootScores(t, depth, white, eval), white, 0, Sentinel(white), None)
      case None => Failure(BadOptionalAccess)
      case Some(i) => Success(i)
  }

  lemma RootScoresAreMinimax<S>(t: Tree<S>, depth: int, white: bool, eval: (S, bool) -> real)
    ensures RootScores(t, depth, white, eval) == MinimaxScores(t, depth, white, eval)
  {
    forall i | 0 <= i < |t.kids|
      ensures RootScores(t, depth, white, eval)[i] == MinimaxScores(t, depth, white, eval)[i]
    {
      AlphaBetaFullWindow(t.kids[i], depth - 1, !white, eval);
    }
  }

  /** The chosen move is the first whose minimax value is best for the
      mover; the search fails only with no moves, or when every move scores
      the mover's worst infinity. */
  lemma SelectBestMoveSpec<S>(t: Tree<S>, depth: int, white: bool, eval: (S, bool) -> real)
    ensures SelectBestMove(t, depth, white, eval) == Failure("No Legal Moves") <==> |t.kids| == 0
    ensures SelectBestMove(t, depth, white, eval) == Failure(BadOptionalAccess) <==>
      |t.kids| > 0 && forall i :: 0 <= i < |t.kids| ==> MinimaxScores(t, depth, white, eval)[i] == Sentinel(white)
    ensures SelectBestMove(t, depth, white, eval).Success? ==>
      var i := SelectBestMove(t, depth, white, eval).value;
      IsFirstBest(MinimaxScores(t, depth, white, eval), white, i) &&
      MinimaxScores(t, depth, white, eval)[i] != Sentinel(white)
  {
    var scores := MinimaxScores(t, depth, white, eval);
    RootScoresAreMinimax(t, depth, white, eval);
    PickSound(scores, white, 0, Sentinel(white), None);
    forall i | 0 <= i < |scores| ensures !Better(white, scores[i], Sentinel(white)) <==> scores[i] == Sentinel(white) {
      SentinelUnbeaten(white, scores[i]);
    }
    var r := Pick(scores, white, 0, Sentinel(white), None);
    if r.Some? {
      SentinelUnbeaten(white, scores[r.value]);
    }
  }

  // --------------------------------------------------------------- Python

  /** The evaluator of Smarter_GA.py takes no side: it is always white's
      score. */
  function Blind<S>(eval: S -> real): (S, bool) -> real
  {
    (s: S, maximizing: bool) => eval(s)
  }

  /** The root scores of Smarter_GA.py's `select_best_move`, each child
      searched with `maximizing_player` set to `childMax`. */
  function PyRootScores<S>(t: Tree<S>, depth: int, childMax: bool, eval: S -> real): (r: seq<Ext>)
    ensures |r| == |t.kids|
  {
    seq(|t.kids|, i requires 0 <= i < |t.kids| => AlphaBeta(t.kids[i], depth - 1, NegInf, PosInf, childMax, Blind(eval)))
  }

  /** As written: after pushing white's move the flag is
      `board.turn == chess.BLACK`, which is true, so black's replies are
      searched as if black maximised white's score (and the other way round
      for a black root). No move, or none beating the sentinel, gives None. */
  function PySelectBestMoveAsWritten<S>(t: Tree<S>, depth: int, white: bool, eval: S -> real): Option<nat>
  {
    Pick(PyRootScores(t, depth, white, eval), white, 0, Sentinel(white), None)
  }

  /** Corrected: the side to move after the push maximises iff it is white. */
  function PySelectBestMove<S>(t: Tree<S>, depth: int, white: bool, eval: S -> real): Option<nat>
  {
    Pick(PyRootScores(t, depth, !white, eval), white, 0, Sentinel(white), None)
  }

  /** Corrected, the Python search picks what the C++ search picks, with
      None for either of its failures. */
  lemma PySelectBestMoveAgrees<S>(t: Tree<S>, depth: int, white: bool, eval: S -> real)
    ensures PySelectBestMove(t, depth, white, eval) ==
      match SelectBestMove(t, depth, white, Blind(eval))
      case Success(i) => Some(i)
      case Failure(_) => None
  {
    assert PyRootScores(t, depth, !white, eval) == RootScores(t, depth, white, Blind(eval));
  }

  function Leaf(v: real): Tree<real>
  {
    Node(v, true, [])
  }

  /** A position where white has two moves: after the first, black chooses
      between +10 and -10 for white; after the second, every reply leaves 0. */
  function Trap(): Tree<real>
  {
    Node(0.0, false, [Node(0.0, false, [Leaf(10.0), Leaf(-10.0)]), Node(0.0, false, [Leaf(0.0), Leaf(0.0)])])
  }

  function Identity(s: real): real
  {
    s
  }

  lemma TrapFirstMove(maximizing: bool)
    ensures AlphaBeta(Trap().kids[0], 1, NegInf, PosInf, maximizing, Blind(Identity)) ==
      if maximizing then Fin(10.0) else Fin(-10.0)
  {
    var e := Blind(Identity);
    var ks := Trap().kids[0].kids;
    assert e(10.0, !maximizing) == 10.0 && e(-10.0, !maximizing) == -10.0;
    assert AlphaBeta(ks[0], 0, NegInf, PosInf, !maximizing, e) == Fin(10.0);
    assert ks[1..] == [Leaf(-10.0)];
    assert ks[1..][1..] == [];
    if maximizing {
      assert AlphaBeta(ks[1..][0], 0, Fin(10.0), PosInf, false, e) == Fin(-10.0);
      assert MaxLoop(ks[1..], 1, Fin(10.0), PosInf, Fin(10.0), e) == Fin(10.0);
    } else {
      assert AlphaBeta(ks[1..][0], 0, NegInf, Fin(10.0), true, e) == Fin(-10.0);
      assert MinLoop(ks[1..], 1, NegInf, Fin(10.0), Fin(10.0), e) == Fin(-10.0);
    }
  }

  lemma TrapSecondMove(maximizing: bool)
    ensures AlphaBeta(Trap().kids[1], 1, NegInf, PosInf, maximizing, Blind(Identity)) == Fin(0.0)
  {
    var e := Blind(Identity);
    var ks := Trap().kids[1].kids;
    assert e(0.0, !maximizing) == 0.0;
    assert AlphaBeta(ks[0], 0, NegInf, PosInf, !maximizing, e) == Fin(0.0);
    assert ks[1..] == [Leaf(0.0)];
    assert ks[1..][1..] == [];
    if maximizing {
      assert AlphaBeta(ks[1..][0], 0, Fin(0.0), PosInf, false, e) == Fin(0.0);
    } else {
      assert AlphaBeta(ks[1..][0], 0, NegInf, Fin(0.0), true, e) == Fin(0.0);
    }
  }

  /** At depth 2 the as-written search walks into the first move, where black
      answers with -10; the corrected search and the C++ take the second. */
  lemma PySelectBestMoveCounterexample()
    ensures PySelectBestMoveAsWritten(Trap(), 2, true, Identity) == Some(0)
    ensures PySelectBestMove(Trap(), 2, true, Identity) == Some(1)
    ensures SelectBestMove(Trap(), 2, true, Blind(Identity)) == Success(1)
  {
    var t := Trap();
    TrapFirstMove(true);
    TrapFirstMove(false);
    TrapSecondMove(true);
    TrapSecondMove(false);
    var asWritten := PyRootScores(t, 2, true, Identity);
    var corrected := PyRootScores(t, 2, false, Identity);
    assert asWritten[0] == Fin(10.0) && asWritten[1] == Fin(0.0);
    assert corrected[0] == Fin(-10.0) && corrected[1] == Fin(0.0);
    assert Pick(asWritten, true, 0, NegInf, None) == Pick(asWritten, true, 1, Fin(10.0), Some(0));
    assert !Better(true, asWritten[1], Fin(10.0));
    assert Pick(asWritten, true, 1, Fin(10.0), Some(0)) == Pick(asWritten, true, 2, Fin(10.0), Some(0)) == Some(0);
    assert Pick(corrected, true, 0, NegInf, None) == Pick(corrected, true, 1, Fin(-10.0), Some(0));
    assert Better(true, corrected[1], Fin(-10.0));
    assert Pick(corrected, true, 1, Fin(-10.0), Some(0)) == Pick(corrected, true, 2, Fin(0.0), Some(1)) == Some(1);
    PySelectBestMoveAgrees(t, 2, true, Identity);
  }
}
