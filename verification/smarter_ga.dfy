/** The weight-vector genetic algorithm of
    genetic_algorithms_python/Smarter_GA.py. A chromosome is a Python list:
    nine scalar weights, then six 64-entry piece-square tables. Every draw
    of `random` is an input: a coin in [0, 1) per choice and, for a
    mutation, a delta drawn from [-strength, strength]. Games are played
    over an abstract game whose positions, moves and rules are parameters. */
module SmarterGA {
  import opened Wrappers
  import opened Search
  import opened Evolution

  const PopulationSize: nat := 20
  const Generations: nat := 20
  const ScalarGenes: nat := 9
  const TableGenes: nat := 6
  const TableSize: nat := 64
  /** `mutate`'s default `mutation_strength`, the one the generation loop
      uses. */
  const Strength: real := 0.1

  datatype Gene = Scalar(x: real) | Table(entries: seq<real>)

  type Chromosome = seq<Gene>

  /** The shape `generate_chromosome` builds. */
  predicate Shaped(c: Chromosome)
  {
    |c| == ScalarGenes + TableGenes &&
    (forall i :: 0 <= i < ScalarGenes ==> c[i].Scalar?) &&
    (forall i :: ScalarGenes <= i < |c| ==> c[i].Table? && |c[i].entries| == TableSize)
  }

  /** A draw of `random.random()`. */
  predicate IsCoin(u: real)
  {
    0.0 <= u < 1.0
  }

  // ------------------------------------------------------------ crossover

  /** `crossover`: slot by slot, parent1's gene when the coin shows less than
      one half, parent2's otherwise; the first loop covers the scalars, the
      second the tables, each copied whole. */
  method Crossover(p1: Chromosome, p2: Chromosome, coins: seq<real>) returns (child: Chromosome)
    requires Shaped(p1) && Shaped(p2)
    requires |coins| == |p1| && forall i :: 0 <= i < |coins| ==> IsCoin(coins[i])
    ensures |child| == |p1|
    ensures forall i :: 0 <= i < |child| ==> child[i] == (if coins[i] < 0.5 then p1[i] else p2[i])
  {
    child := [];
    var i := 0;
    while i < ScalarGenes
      invariant 0 <= i <= ScalarGenes && |child| == i
      invariant forall k :: 0 <= k < i ==> child[k] == (if coins[k] < 0.5 then p1[k] else p2[k])
    {
      if coins[i] < 0.5 {
        child := child + [p1[i]];
      } else {
        child := child + [p2[i]];
      }
      i := i + 1;
    }
    while i < |p1|
      invariant ScalarGenes <= i <= |p1| && |child| == i
      invariant forall k :: 0 <= k < i ==> child[k] == (if coins[k] < 0.5 then p1[k] else p2[k])
    {
      if coins[i] < 0.5 {
        child := child + [p1[i]];
      } else {
        child := child + [p2[i]];
      }
      i := i + 1;
    }
  }

  /** The crossover as one expression, for use inside the generation step. */
  function Cross(p1: Chromosome, p2: Chromosome, coins: seq<real>): (child: Chromosome)
    requires |coins| == |p1| <= |p2|
  {
    seq(|p1|, i requires 0 <= i < |p1| => if coins[i] < 0.5 then p1[i] else p2[i])
  }

  /** The loops build exactly `Cross`. */
  lemma CrossoverIsCross(p1: Chromosome, p2: Chromosome, coins: seq<real>, child: Chromosome)
    requires Shaped(p1) && Shaped(p2) && |coins| == |p1|
    requires |child| == |p1|
    requires forall i :: 0 <= i < |child| ==> child[i] == (if coins[i] < 0.5 then p1[i] else p2[i])
    ensures child == Cross(p1, p2, coins)
  {
  }

  /** The child has the parents' shape; every slot, scalar or whole table,
      is one parent's; a parent crossed with itself comes back; and coins all
      below one half give parent1. */
  lemma CrossSpec(p1: Chromosome, p2: Chromosome, coins: seq<real>)
    requires Shaped(p1) && Shaped(p2) && |coins| == |p1|
    ensures Shaped(Cross(p1, p2, coins))
    ensures forall i :: 0 <= i < |p1| ==> Cross(p1, p2, coins)[i] == p1[i] || Cross(p1, p2, coins)[i] == p2[i]
    ensures Cross(p1, p1, coins) == p1
    ensures (forall i :: 0 <= i < |coins| ==> coins[i] < 0.5) ==> Cross(p1, p2, coins) == p1
  {
  }

  // ------------------------------------------------------------- mutation

  /** One slot's draws: the coin against the rate and, when it wins, the
      delta added. */
  datatype Draw = Draw(coin: real, delta: real)

  predicate ValidDraw(d: Draw, strength: real)
  {
    IsCoin(d.coin) && -strength <= d.delta <= strength
  }

  /** Draws for every slot a shaped chromosome has: one per scalar, one per
      table entry. */
  predicate FitsShape(ds: seq<seq<Draw>>, strength: real)
  {
    |ds| == ScalarGenes + TableGenes &&
    (forall i :: 0 <= i < ScalarGenes ==> |ds[i]| == 1) &&
    (forall i :: ScalarGenes <= i < |ds| ==> |ds[i]| == TableSize) &&
    (forall i, j :: 0 <= i < |ds| && 0 <= j < |ds[i]| ==> ValidDraw(ds[i][j], strength))
  }

  function Nudge(x: real, d: Draw, rate: real): real
  {
    if d.coin < rate then x + d.delta else x
  }

  function MutateGene(g: Gene, ds: seq<Draw>, rate: real): Gene
    requires if g.Scalar? then |ds| >= 1 else |ds| >= |g.entries|
  {
    match g
    case Scalar(x) => Scalar(Nudge(x, ds[0], rate))
    case Table(e) => Table(seq(|e|, j requires 0 <= j < |e| => Nudge(e[j], ds[j], rate)))
  }

  /** `mutate` on a deep copy: each scalar, and each table entry, gains its
      delta when its coin shows less than the rate. */
  function Mutate(c: Chromosome, rate: real, ds: seq<seq<Draw>>): (r: Chromosome)
    requires Shaped(c) && FitsShape(ds, Strength)
  {
    seq(|c|, i requires 0 <= i < |c| => MutateGene(c[i], ds[i], rate))
  }

  /** The value in slot i, entry j (j is 0 for a scalar). */
  function Weight(c: Chromosome, i: nat, j: nat): real
    requires Shaped(c) && i < |c|
    requires if i < ScalarGenes then j == 0 else j < TableSize
  {
    if i < ScalarGenes then c[i].x else c[i].entries[j]
  }

  /** The mutant keeps the shape; no weight moves by more than the strength;
      a weight moves only where its coin fell below the rate; and at rate
      zero nothing moves. */
  lemma MutateSpec(c: Chromosome, rate: real, ds: seq<seq<Draw>>)
    requires Shaped(c) && FitsShape(ds, Strength)
    ensures Shaped(Mutate(c, rate, ds))
    ensures forall i, j :: 0 <= i < |c| && (if i < ScalarGenes then j == 0 else 0 <= j < TableSize) ==>
      -Strength <= Weight(Mutate(c, rate, ds), i, j) - Weight(c, i, j) <= Strength &&
      (Weight(Mutate(c, rate, ds), i, j) != Weight(c, i, j) ==> ds[i][j].coin < rate)
    ensures rate <= 0.0 ==> Mutate(c, rate, ds) == c
  {
    var r := Mutate(c, rate, ds);
    if rate <= 0.0 {
      forall i | 0 <= i < |c| ensures r[i] == c[i] {
        if i >= ScalarGenes {
          assert r[i].entries == c[i].entries;
        }
      }
    }
  }

  /** `max(0.02, 0.1 * (1 - gen / GENERATIONS))`, with Python's true
      division. */
  function Rate(gen: nat): real
  {
    var decayed := 0.1 * (1.0 - gen as real / Generations as real);
    if 0.02 > decayed then 0.02 else decayed
  }

  /** The rate starts at 0.1, never leaves [0.02, 0.1], and never rises. */
  lemma RateSpec(g1: nat, g2: nat)
    ensures 0.02 <= Rate(g1) <= 0.1
    ensures Rate(0) == 0.1
    ensures g1 <= g2 ==> Rate(g2) <= Rate(g1)
  {
  }

  // ---------------------------------------------------------------- games

  /** What `play_game` needs from python-chess and the players: whether the
      game is over, its result string, the move the side to move picks
      (`select_best_move` for white, Stockfish or `select_best_move` for
      black; None when it finds none), making a move, and
      `material_balance`. */
  datatype Game<!S, !M> = Game(over: S -> bool, result: S -> string, choose: S -> Option<M>,
                             push: (S, M) -> S, material: S -> real)

  /** How a game ended: its score, the final position and the plies
      played. */
  datatype Outcome<S> = Outcome(score: Ext, last: S, plies: nat)

  /** `play_game` from position s with `left` iterations of the move loop to
      go. */
  function Play<S, M>(g: Game<S, M>, s: S, left: nat): Outcome<S>
  {
    if left == 0 then Outcome(Fin(g.material(s)), s, 0)
    else if g.over(s) then
      var r := g.result(s);
      Outcome(if r == "1-0" then PosInf else if r == "0-1" then NegInf else Fin(g.material(s)), s, 0)
    else match g.choose(s)
      case None => Outcome(Fin(g.material(s)), s, 0)
      case Some(m) =>
        var o := Play(g, g.push(s, m), left - 1);
        Outcome(o.score, o.last, o.plies + 1)
  }

  /** At most `left` plies are played. A win for white scores +inf and a
      win for black -inf, exactly when the loop found the game over with
      that result before running out; every other ending scores the
      material balance of the final position. */
  lemma {:induction false} PlaySpec<S, M>(g: Game<S, M>, s: S, left: nat)
    ensures Play(g, s, left).plies <= left
    ensures Play(g, s, left).score == PosInf <==>
      Play(g, s, left).plies < left && g.over(Play(g, s, left).last) && g.result(Play(g, s, left).last) == "1-0"
    ensures Play(g, s, left).score == NegInf <==>
      Play(g, s, left).plies < left && g.over(Play(g, s, left).last) && g.result(Play(g, s, left).last) == "0-1"
    ensures Play(g, s, left).score.Fin? ==> Play(g, s, left).score.v == g.material(Play(g, s, left).last)
  {
    if left > 0 && !g.over(s) && g.choose(s).Some? {
      PlaySpec(g, g.push(s, g.choose(s).value), left - 1);
    }
  }

  /** `evaluate_fitness`: the best of the games' scores and zero, keeping the
      earlier value on a tie. */
  function BestOf(fitness: Ext, games: seq<Ext>): Ext
    decreases |games|
  {
    if |games| == 0 then fitness
    else BestOf(if Lt(fitness, games[0]) then games[0] else fitness, games[1..])
  }

  function EvaluateFitness(games: seq<Ext>): Ext
  {
    BestOf(Fin(0.0), games)
  }

  /** The fitness is never below zero or below any game's score, and it is
      zero or one of the scores. */
  lemma {:induction false} BestOfSpec(fitness: Ext, games: seq<Ext>)
    ensures Le(fitness, BestOf(fitness, games))
    ensures forall i :: 0 <= i < |games| ==> Le(games[i], BestOf(fitness, games))
    ensures BestOf(fitness, games) == fitness || BestOf(fitness, games) in games
    decreases |games|
  {
    if |games| > 0 {
      var f := if Lt(fitness, games[0]) then games[0] else fitness;
      BestOfSpec(f, games[1..]);
      LeTotal(fitness, games[0]);
      LeTrans(fitness, f, BestOf(f, games[1..]));
      forall i | 0 <= i < |games| ensures Le(games[i], BestOf(fitness, games)) {
        if i == 0 {
          LeTrans(games[0], f, BestOf(f, games[1..]));
        } else {
          assert games[i] == games[1..][i - 1];
        }
      }
    }
  }

  lemma EvaluateFitnessSpec(games: seq<Ext>)
    ensures Le(Fin(0.0), EvaluateFitness(games))
    ensures forall i :: 0 <= i < |games| ==> Le(games[i], EvaluateFitness(games))
    ensures EvaluateFitness(games) == Fin(0.0) || EvaluateFitness(games) in games
  {
    BestOfSpec(Fin(0.0), games);
  }

  // ----------------------------------------------------------- generation

  /** The draws one child of the generation loop consumes: two tournament
      samples, the crossover coins and the mutation draws. */
  datatype ChildDraws = ChildDraws(sample1: seq<nat>, sample2: seq<nat>, coins: seq<real>, mutation: seq<seq<Draw>>)

  predicate ValidChildDraws(d: ChildDraws, n: nat)
  {
    ValidSample(d.sample1, n) && ValidSample(d.sample2, n) &&
    |d.coins| == ScalarGenes + TableGenes && (forall i :: 0 <= i < |d.coins| ==> IsCoin(d.coins[i])) &&
    FitsShape(d.mutation, Strength)
  }

  predicate AllShaped(scores: seq<(Chromosome, Ext)>)
  {
    forall i :: 0 <= i < |scores| ==> Shaped(scores[i].0)
  }

  /** One child: two tournament winners crossed, then mutated at the
      generation's rate. */
  function Breed(gen: nat, sorted: seq<(Chromosome, Ext)>, d: ChildDraws): Chromosome
    requires AllShaped(sorted) && ValidChildDraws(d, |sorted|)
  {
    var p1 := Tournament(sorted, d.sample1);
    var p2 := Tournament(sorted, d.sample2);
    TournamentShaped(sorted, d.sample1);
    TournamentShaped(sorted, d.sample2);
    CrossSpec(p1, p2, d.coins);
    Mutate(Cross(p1, p2, d.coins), Rate(gen), d.mutation)
  }

  lemma TournamentShaped(sorted: seq<(Chromosome, Ext)>, sample: seq<nat>)
    requires AllShaped(sorted) && ValidSample(sample, |sorted|)
    ensures Shaped(Tournament(sorted, sample))
  {
    TournamentSpec(sorted, sample);
  }

  /** Sorting loses no chromosome, so a shaped population stays shaped. */
  lemma SortShaped(scores: seq<(Chromosome, Ext)>)
    requires AllShaped(scores)
    ensures AllShaped(SortByFitness(scores))
  {
    var s := SortByFitness(scores);
    SortByFitnessSpec(scores);
    forall i | 0 <= i < |s| ensures Shaped(s[i].0) {
      assert s[i] in multiset(scores);
    }
  }

  /** `Breed` at generation `gen`, as the breeding step of `NextGeneration`. */
  function Breeder(gen: nat): (seq<(Chromosome, Ext)>, ChildDraws) --> Chromosome
  {
    (s: seq<(Chromosome, Ext)>, d: ChildDraws) requires AllShaped(s) && ValidChildDraws(d, |s|) => Breed(gen, s, d)
  }

  /** The child a draw breeds from the whole population: `Breed` over the
      population sorted best first. */
  function Child(gen: nat, scores: seq<(Chromosome, Ext)>, d: ChildDraws): Chromosome
    requires AllShaped(scores) && ValidChildDraws(d, |scores|)
  {
    SortShaped(scores);
    Breed(gen, SortByFitness(scores), d)
  }

  /** One pass of `genetic_algorithm`'s generation loop over the population
      paired with its fitness. */
  method NextGen(gen: nat, scores: seq<(Chromosome, Ext)>, draws: seq<ChildDraws>) returns (next: seq<Chromosome>)
    requires |scores| >= 3 && AllShaped(scores)
    requires |draws| >= PopulationSize - 2
    requires forall i :: 0 <= i < |draws| ==> ValidChildDraws(draws[i], |scores|)
    ensures |next| == PopulationSize
    ensures next[0] == Elite(scores, 0) && next[1] == Elite(scores, 1)
    ensures forall k :: 2 <= k < PopulationSize ==> next[k] == Child(gen, scores, draws[k - 2])
    ensures forall k :: 0 <= k < |next| ==> Shaped(next[k])
  {
    var sorted := SortByFitness(scores);
    SortShaped(scores);
    next := NextGeneration(scores, PopulationSize, draws, Breeder(gen));
    forall k | 0 <= k < |next| ensures Shaped(next[k]) {
      if k >= 2 {
        var d := draws[k - 2];
        var p1 := Tournament(sorted, d.sample1);
        var p2 := Tournament(sorted, d.sample2);
        TournamentShaped(sorted, d.sample1);
        TournamentShaped(sorted, d.sample2);
        CrossSpec(p1, p2, d.coins);
        MutateSpec(Cross(p1, p2, d.coins), Rate(gen), d.mutation);
      } else {
        assert sorted[k] in sorted;
      }
    }
  }
}
