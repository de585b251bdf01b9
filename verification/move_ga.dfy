/** The move-sequence genetic algorithm of
    genetic_algorithms_python/GA_random_moves.py. A chromosome is a list of
    UCI move strings played from the starting position. The chess rules are
    parameters: the legal moves of a position, in python-chess's order, and
    the position a move leads to; a string that does not parse is simply
    not among the legal moves. Every draw of `random` is an input. */
module MoveGA {
  import opened Wrappers
  import opened Search
  import opened Evolution

  const PopulationSize: nat := 20
  const MaxMoves: nat := 200
  const MutationRate: real := 0.1

  type Chromosome = seq<string>

  /** What the algorithm needs from python-chess: the legal moves of a
      position, making a move, whether the game is over, its result with
      draws claimed, and `material_score`. */
  datatype Rules<!S> = Rules(legal: S -> seq<string>, push: (S, string) -> S, over: S -> bool,
                             result: S -> string, material: S -> real)

  /** Playing the moves in order from s: the final position, or None at the
      first move that is not legal where it is played. */
  function Replay<S>(r: Rules<S>, s: S, moves: Chromosome): Option<S>
    decreases |moves|
  {
    if |moves| == 0 then Some(s)
    else if moves[0] in r.legal(s) then Replay(r, r.push(s, moves[0]), moves[1..])
    else None
  }

  /** Replaying a concatenation replays the first part, then the second
      from where the first ended. */
  lemma {:induction false} ReplayAppend<S>(r: Rules<S>, s: S, a: Chromosome, b: Chromosome)
    ensures Replay(r, s, a + b) == (if Replay(r, s, a).Some? then Replay(r, Replay(r, s, a).value, b) else None)
    decreases |a|
  {
    if |a| > 0 {
      assert (a + b)[0] == a[0] && (a + b)[1..] == a[1..] + b;
      if a[0] in r.legal(s) {
        ReplayAppend(r, r.push(s, a[0]), a[1..], b);
      }
    } else {
      assert a + b == b;
    }
  }

  // -------------------------------------------------------------- fitness

  /** `evaluate_fitness`: -inf at the first illegal move; otherwise 1000 for
      a white win, -1000 for a black win, 0 for a draw and the material
      score for an unfinished game. */
  function Fitness<S>(r: Rules<S>, start: S, c: Chromosome): Ext
  {
    match Replay(r, start, c)
    case None => NegInf
    case Some(s) =>
      var res := r.result(s);
      if res == "1-0" then Fin(1000.0)
      else if res == "0-1" then Fin(-1000.0)
      else if res == "1/2-1/2" then Fin(0.0)
      else Fin(r.material(s))
  }

  /** A chromosome scores -inf exactly when some move of it is illegal where
      it is played; an illegal prefix dooms every extension of it; and a
      decided game scores 1000 or -1000 by its winner. */
  lemma FitnessSpec<S>(r: Rules<S>, start: S, a: Chromosome, b: Chromosome)
    ensures Fitness(r, start, a) == NegInf <==>
      exists i :: 0 <= i < |a| && Replay(r, start, a[..i]).Some? && a[i] !in r.legal(Replay(r, start, a[..i]).value)
    ensures Replay(r, start, a).None? ==> Fitness(r, start, a + b) == NegInf
    ensures Replay(r, start, a).Some? && r.result(Replay(r, start, a).value) == "1-0" ==> Fitness(r, start, a) == Fin(1000.0)
    ensures Replay(r, start, a).Some? && r.result(Replay(r, start, a).value) == "0-1" ==> Fitness(r, start, a) == Fin(-1000.0)
  {
    ReplayAppend(r, start, a, b);
    FirstIllegal(r, start, a);
  }

  /** Replay fails exactly when some move is illegal in the position its
      prefix reaches. */
  lemma {:induction false} FirstIllegal<S>(r: Rules<S>, s: S, a: Chromosome)
    ensures Replay(r, s, a).None? <==>
      exists i :: 0 <= i < |a| && Replay(r, s, a[..i]).Some? && a[i] !in r.legal(Replay(r, s, a[..i]).value)
    decreases |a|
  {
    if |a| > 0 {
      assert a[..0] == [];
      if a[0] in r.legal(s) {
        var t := r.push(s, a[0]);
        FirstIllegal(r, t, a[1..]);
        forall i | 1 <= i <= |a| ensures Replay(r, s, a[..i]) == Replay(r, t, a[1..][..i - 1]) {
          assert a[..i] == [a[0]] + a[1..][..i - 1];
          assert a[..i][1..] == a[1..][..i - 1];
        }
        if Replay(r, t, a[1..]).None? {
          var j :| 0 <= j < |a[1..]| && Replay(r, t, a[1..][..j]).Some? && a[1..][j] !in r.legal(Replay(r, t, a[1..][..j]).value);
          assert Replay(r, s, a[..j + 1]) == Replay(r, t, a[1..][..j]);
        } else {
          forall i | 0 <= i < |a| && Replay(r, s, a[..i]).Some?
            ensures a[i] in r.legal(Replay(r, s, a[..i]).value)
          {
            if i > 0 {
              assert Replay(r, s, a[..i]) == Replay(r, t, a[1..][..i - 1]);
              assert a[i] == a[1..][i - 1];
            }
          }
        }
      }
    }
  }

  // ----------------------------------------------------- random chromosome

  /** `random.choice(seq)`: the entry a draw selects. */
  function Choose(moves: seq<string>, pick: nat): string
    requires |moves| > 0
  {
    moves[pick % |moves|]
  }

  /** `random_chromosome`: random legal moves from the start until the game
      is over or `MAX_MOVES` moves are made. `random.choice` on a position
      with no legal moves raises `IndexError`. */
  method RandomChromosome<S>(r: Rules<S>, start: S, picks: seq<nat>) returns (res: Result<Chromosome, string>)
    requires |picks| >= MaxMoves
    ensures res.Success? ==> |res.value| <= MaxMoves
    ensures res.Success? ==> Replay(r, start, res.value).Some?
    ensures res.Success? ==> |res.value| == MaxMoves || r.over(Replay(r, start, res.value).value)
  {
    var board := start;
    var chromosome: Chromosome := [];
    while !r.over(board) && |chromosome| < MaxMoves
      invariant |chromosome| <= MaxMoves
      invariant Replay(r, start, chromosome) == Some(board)
      decreases MaxMoves - |chromosome|
    {
      var moves := r.legal(board);
      if |moves| == 0 {
        return Failure("Cannot choose from an empty sequence");
      }
      var move := Choose(moves, picks[|chromosome|]);
      ReplayAppend(r, start, chromosome, [move]);
      chromosome := chromosome + [move];
      board := r.push(board, move);
    }
    return Success(chromosome);
  }

  /** So a random chromosome never scores -inf. */
  lemma RandomChromosomeFit<S>(r: Rules<S>, start: S, c: Chromosome)
    requires Replay(r, start, c).Some?
    ensures Fitness(r, start, c) != NegInf
  {
  }

  // ------------------------------------------------------------ crossover

  /** `crossover`: alternate parents position by position while both have a
      move, then pad with the rest of the longer parent (parent2 on a tie). */
  method Crossover(p1: Chromosome, p2: Chromosome) returns (child: Chromosome)
    ensures |child| == if |p1| > |p2| then |p1| else |p2|
    ensures forall i :: 0 <= i < |p1| && i < |p2| ==> child[i] == (if i % 2 == 0 then p1[i] else p2[i])
    ensures forall i :: |p2| <= i < |p1| ==> child[i] == p1[i]
    ensures forall i :: |p1| <= i < |p2| ==> child[i] == p2[i]
  {
    child := [];
    var n := if |p1| < |p2| then |p1| else |p2|;
    var i := 0;
    while i < n
      invariant 0 <= i <= n && |child| == i
      invariant forall k :: 0 <= k < i ==> child[k] == (if k % 2 == 0 then p1[k] else p2[k])
    {
      if i % 2 == 0 {
        child := child + [p1[i]];
      } else {
        child := child + [p2[i]];
      }
      i := i + 1;
    }
    var longer := if |p1| > |p2| then p1 else p2;
    child := child + longer[|child|..];
  }

  /** A chromosome crossed with itself comes back, and every position of
      the child is one parent's move at that position. */
  lemma CrossoverSpec(p1: Chromosome, p2: Chromosome, child: Chromosome)
    requires |child| == if |p1| > |p2| then |p1| else |p2|
    requires forall i :: 0 <= i < |p1| && i < |p2| ==> child[i] == (if i % 2 == 0 then p1[i] else p2[i])
    requires forall i :: |p2| <= i < |p1| ==> child[i] == p1[i]
    requires forall i :: |p1| <= i < |p2| ==> child[i] == p2[i]
    ensures p1 == p2 ==> child == p1
    ensures forall i :: 0 <= i < |child| ==> (i < |p1| && child[i] == p1[i]) || (i < |p2| && child[i] == p2[i])
  {
  }

  /** The crossover as one expression, for use inside the generation step. */
  function Cross(p1: Chromosome, p2: Chromosome): (child: Chromosome)
  {
    seq(if |p1| > |p2| then |p1| else |p2|, i requires 0 <= i < (if |p1| > |p2| then |p1| else |p2|) =>
      if i < |p1| && i < |p2| then (if i % 2 == 0 then p1[i] else p2[i])
      else if i < |p1| then p1[i] else p2[i])
  }

  // ------------------------------------------------------------- mutation

  /** One position's draws: the coin against `MUTATION_RATE` and the pick
      among the legal moves. */
  datatype Draw = Draw(coin: real, pick: nat)

  /** `mutate` as written, from position idx on with the board at s: the
      move at idx is played first, and only then, when the coin wins, is
      the replacement drawn, from the position after it, and played on top
      of it. */
  function MutateAsWritten<S>(r: Rules<S>, c: Chromosome, idx: nat, s: S, ds: seq<Draw>): (res: Chromosome)
    requires |ds| >= |c|
    ensures |res| == |c|
    decreases |c| - idx
  {
    if idx >= |c| then c
    else if c[idx] !in r.legal(s) then c
    else
      var s1 := r.push(s, c[idx]);
      if ds[idx].coin < MutationRate then
        var ms := r.legal(s1);
        if |ms| == 0 then c
        else
          var m := Choose(ms, ds[idx].pick);
          MutateAsWritten(r, c[idx := m], idx + 1, r.push(s1, m), ds)
      else MutateAsWritten(r, c, idx + 1, s1, ds)
  }

  /** The evident intent: the walk stops at the first illegal standing
      move, as the source does; otherwise, when the coin wins, the move at
      idx is replaced by one drawn from the position before it (never an
      empty list, since the standing move is legal there) and only the move
      that now stands at idx is played. Returns the chromosome and how many
      of its moves were played. */
  function Mutate<S>(r: Rules<S>, c: Chromosome, idx: nat, s: S, ds: seq<Draw>): (res: (Chromosome, nat))
    requires |ds| >= |c|
    ensures |res.0| == |c|
    ensures idx <= |c| ==> idx <= res.1 <= |c|
    decreases |c| - idx
  {
    if idx >= |c| then (c, idx)
    else if c[idx] !in r.legal(s) then (c, idx)
    else
      var c' := if ds[idx].coin < MutationRate then c[idx := Choose(r.legal(s), ds[idx].pick)] else c;
      Mutate(r, c', idx + 1, r.push(s, c'[idx]), ds)
  }

  /** The corrected mutation keeps the length, leaves every position past
      the walk alone, and everything it walked replays legally: a mutated
      chromosome stays legal up to where the walk stopped, only positions
      whose coin won can change, and so a chromosome whose coins never win
      is returned as it was. */
  lemma {:induction false} MutateSpec<S>(r: Rules<S>, start: S, c: Chromosome, idx: nat, s: S, ds: seq<Draw>)
    requires |ds| >= |c| && idx <= |c|
    requires Replay(r, start, c[..idx]) == Some(s)
    ensures idx <= Mutate(r, c, idx, s, ds).1 <= |c|
    ensures Mutate(r, c, idx, s, ds).0[..idx] == c[..idx]
    ensures Mutate(r, c, idx, s, ds).0[Mutate(r, c, idx, s, ds).1..] == c[Mutate(r, c, idx, s, ds).1..]
    ensures Replay(r, start, Mutate(r, c, idx, s, ds).0[..Mutate(r, c, idx, s, ds).1]).Some?
    ensures forall j :: idx <= j < |c| && Mutate(r, c, idx, s, ds).0[j] != c[j] ==> ds[j].coin < MutationRate
    ensures (forall j :: idx <= j < |c| ==> ds[j].coin >= MutationRate) ==> Mutate(r, c, idx, s, ds).0 == c
    decreases |c| - idx
  {
    if idx < |c| && c[idx] in r.legal(s) {
      var c' := if ds[idx].coin < MutationRate then c[idx := Choose(r.legal(s), ds[idx].pick)] else c;
      assert c'[idx] in r.legal(s);
      assert c'[..idx] == c[..idx];
      ReplayAppend(r, start, c'[..idx], [c'[idx]]);
      assert c'[..idx + 1] == c'[..idx] + [c'[idx]];
      MutateSpec(r, start, c', idx + 1, r.push(s, c'[idx]), ds);
      var res := Mutate(r, c', idx + 1, r.push(s, c'[idx]), ds);
      assert res.0[..idx] == res.0[..idx + 1][..idx];
      assert c'[res.1..] == c[res.1..];
      forall j | idx <= j < |c| && res.0[j] != c[j] ensures ds[j].coin < MutationRate {
        if j == idx {
          assert res.0[idx] == res.0[..idx + 1][idx] == c'[idx];
        }
      }
    }
  }

  /** A two-move game where white may only play "w" and black only "b". */
  function Alternate(): Rules<int>
  {
    Rules((s: int) => if s % 2 == 0 then ["w"] else ["b"], (s: int, m: string) => s + 1,
          (s: int) => false, (s: int) => "*", (s: int) => 0.0)
  }

  /** The counterexample: the legal one-move chromosome ["w"] with a winning
      coin. As written, "w" is played first and the replacement is black's
      reply "b", which is not legal as white's first move, so the mutant
      scores -inf; the corrected mutation redraws white's move and stays
      legal. */
  lemma MutateAsWrittenCounterexample()
    ensures Fitness(Alternate(), 0, ["w"]) == Fin(0.0)
    ensures MutateAsWritten(Alternate(), ["w"], 0, 0, [Draw(0.0, 0)]) == ["b"]
    ensures Fitness(Alternate(), 0, ["b"]) == NegInf
    ensures Mutate(Alternate(), ["w"], 0, 0, [Draw(0.0, 0)]) == (["w"], 1)
  {
    var r := Alternate();
    assert r.legal(0) == ["w"] && r.legal(1) == ["b"];
    assert "b" !in r.legal(0);
    assert ["w"][1..] == [];
    assert Replay(r, 1, []) == Some(1);
    assert Replay(r, 0, ["w"]) == Some(1);
    assert ["w"][0 := "b"] == ["b"];
    assert MutateAsWritten(r, ["b"], 1, 2, [Draw(0.0, 0)]) == ["b"];
    assert Choose(["w"], 0) == "w";
    assert ["w"][0 := "w"] == ["w"];
    assert Mutate(r, ["w"], 1, 1, [Draw(0.0, 0)]) == (["w"], 1);
  }

  // ----------------------------------------------------------- generation

  /** The draws one child of the generation loop consumes. */
  datatype ChildDraws = ChildDraws(sample1: seq<nat>, sample2: seq<nat>, mutation: seq<Draw>)

  /** The longest chromosome of a population. */
  function Longest(scores: seq<(Chromosome, Ext)>): nat
  {
    if |scores| == 0 then 0
    else
      var rest := Longest(scores[1..]);
      if |scores[0].0| > rest then |scores[0].0| else rest
  }

  predicate ValidChildDraws(d: ChildDraws, scores: seq<(Chromosome, Ext)>)
  {
    ValidSample(d.sample1, |scores|) && ValidSample(d.sample2, |scores|) && |d.mutation| >= Longest(scores)
  }

  lemma {:induction false} LongestBound(scores: seq<(Chromosome, Ext)>, i: int)
    requires 0 <= i < |scores|
    ensures |scores[i].0| <= Longest(scores)
  {
    if i > 0 {
      LongestBound(scores[1..], i - 1);
    }
  }

  lemma {:induction false} LongestAttained(scores: seq<(Chromosome, Ext)>)
    requires |scores| > 0
    ensures exists i :: 0 <= i < |scores| && |scores[i].0| == Longest(scores)
  {
    if |scores| > 1 && |scores[0].0| <= Longest(scores[1..]) {
      LongestAttained(scores[1..]);
      var i :| 0 <= i < |scores[1..]| && |scores[1..][i].0| == Longest(scores[1..]);
      assert scores[1..][i] == scores[i + 1];
    } else {
      assert |scores[0].0| == Longest(scores);
    }
  }

  lemma LongestAtMost(a: seq<(Chromosome, Ext)>, b: seq<(Chromosome, Ext)>)
    requires multiset(a) == multiset(b)
    ensures Longest(a) <= Longest(b)
  {
    if |a| > 0 {
      LongestAttained(a);
      var i :| 0 <= i < |a| && |a[i].0| == Longest(a);
      assert a[i] in multiset(a);
      var j :| 0 <= j < |b| && b[j] == a[i];
      LongestBound(b, j);
    }
  }

  /** Sorting by fitness neither lengthens nor shortens the longest
      chromosome, so draws long enough for the population are long enough
      for its sorted copy. */
  lemma LongestSorted(scores: seq<(Chromosome, Ext)>)
    ensures Longest(SortByFitness(scores)) == Longest(scores)
  {
    SortByFitnessSpec(scores);
    LongestAtMost(scores, SortByFitness(scores));
    LongestAtMost(SortByFitness(scores), scores);
  }

  /** One child: two tournament winners crossed, then mutated (with the
      corrected mutation) from the starting position. */
  function Breed<S>(r: Rules<S>, start: S, sorted: seq<(Chromosome, Ext)>, d: ChildDraws): Chromosome
    requires ValidChildDraws(d, sorted)
  {
    var p1 := Tournament(sorted, d.sample1);
    var p2 := Tournament(sorted, d.sample2);
    TournamentBound(sorted, d.sample1);
    TournamentBound(sorted, d.sample2);
    var child := Cross(p1, p2);
    Mutate(r, child, 0, start, d.mutation).0
  }

  lemma TournamentBound(sorted: seq<(Chromosome, Ext)>, sample: seq<nat>)
    requires ValidSample(sample, |sorted|)
    ensures |Tournament(sorted, sample)| <= Longest(sorted)
  {
    TournamentSpec(sorted, sample);
    var i :| 0 <= i < |sample| && Tournament(sorted, sample) == sorted[sample[i]].0;
    LongestBound(sorted, sample[i]);
  }

  /** The child a draw breeds from the whole population: `Breed` over the
      population sorted best first. */
  function Child<S>(r: Rules<S>, start: S, scores: seq<(Chromosome, Ext)>, d: ChildDraws): Chromosome
    requires ValidChildDraws(d, scores)
  {
    LongestSorted(scores);
    Breed(r, start, SortByFitness(scores), d)
  }

  /** One pass of `genetic_algorithm`'s generation loop: the two best
      sequences, then bred children up to `POPULATION_SIZE`. */
  method NextGen<S>(r: Rules<S>, start: S, scores: seq<(Chromosome, Ext)>, draws: seq<ChildDraws>)
      returns (next: seq<Chromosome>)
    requires |scores| >= 3
    requires |draws| >= PopulationSize - 2
    requires forall i :: 0 <= i < |draws| ==> ValidChildDraws(draws[i], scores)
    ensures |next| == PopulationSize
    ensures next[0] == Elite(scores, 0) && next[1] == Elite(scores, 1)
    ensures forall k :: 2 <= k < PopulationSize ==> next[k] == Child(r, start, scores, draws[k - 2])
    ensures forall k :: 2 <= k < PopulationSize ==> |next[k]| <= Longest(scores)
  {
    var sorted := SortByFitness(scores);
    LongestSorted(scores);
    var breed := (s: seq<(Chromosome, Ext)>, d: ChildDraws) requires ValidChildDraws(d, s) => Breed(r, start, s, d);
    next := NextGeneration(scores, PopulationSize, draws, breed);
    forall k | 2 <= k < PopulationSize ensures |next[k]| <= Longest(sorted) {
      var d := draws[k - 2];
      TournamentBound(sorted, d.sample1);
      TournamentBound(sorted, d.sample2);
    }
  }
}
