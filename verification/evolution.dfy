/** The selection machinery both genetic algorithms share
    (genetic_algorithms_python/Smarter_GA.py and GA_random_moves.py): the
    population paired with its fitness is sorted best first, the two best
    survive unchanged, and children bred from tournament winners fill the
    rest. The draws `random` would make are inputs. */
module Evolution {
  import opened Search

  /** Best first: no entry is fitter than one before it. */
  predicate SortedDesc<C>(s: seq<(C, Ext)>)
  {
    forall i, j :: 0 <= i < j < |s| ==> Le(s[j].1, s[i].1)
  }

  /** Inserting into a best-first list ahead of the first entry that is no
      fitter, so earlier entries stay ahead of equally fit later ones. */
  function Insert<C>(x: (C, Ext), s: seq<(C, Ext)>): (r: seq<(C, Ext)>)
    ensures |r| == |s| + 1
  {
    if |s| == 0 || Le(s[0].1, x.1) then [x] + s else [s[0]] + Insert(x, s[1..])
  }

  /** `sort(key=lambda x: x[1], reverse=True)`. */
  function SortByFitness<C>(xs: seq<(C, Ext)>): (r: seq<(C, Ext)>)
    ensures |r| == |xs|
  {
    if |xs| == 0 then [] else Insert(xs[0], SortByFitness(xs[1..]))
  }

  lemma {:induction false} InsertMultiset<C>(x: (C, Ext), s: seq<(C, Ext)>)
    ensures multiset(Insert(x, s)) == multiset(s) + multiset{x}
  {
    if |s| > 0 && !Le(s[0].1, x.1) {
      InsertMultiset(x, s[1..]);
      assert s == [s[0]] + s[1..];
    }
  }

  lemma InsertFrom<C>(x: (C, Ext), s: seq<(C, Ext)>)
    ensures forall j :: 0 <= j < |Insert(x, s)| ==> Insert(x, s)[j] == x || Insert(x, s)[j] in s
  {
    var u := Insert(x, s);
    InsertMultiset(x, s);
    forall j | 0 <= j < |u| ensures u[j] == x || u[j] in s {
      assert u[j] in multiset(u);
    }
  }

  /** Inserting keeps a best-first list best first. */
  lemma {:induction false} InsertSorted<C>(x: (C, Ext), s: seq<(C, Ext)>)
    requires SortedDesc(s)
    ensures SortedDesc(Insert(x, s))
  {
    var r := Insert(x, s);
    if |s| > 0 && !Le(s[0].1, x.1) {
      var t := s[1..];
      var u := Insert(x, t);
      InsertSorted(x, t);
      InsertFrom(x, t);
      assert r == [s[0]] + u;
      forall j | 0 <= j < |u| ensures Le(u[j].1, s[0].1) {
        if u[j] != x {
          var k :| 0 <= k < |t| && t[k] == u[j];
          assert t[k] == s[k + 1];
        } else {
          LeTotal(x.1, s[0].1);
        }
      }
      forall i, j | 0 <= i < j < |r| ensures Le(r[j].1, r[i].1) {
        if i == 0 {
          assert r[j] == u[j - 1];
        } else {
          assert r[i] == u[i - 1] && r[j] == u[j - 1];
        }
      }
    } else {
      forall i, j | 0 <= i < j < |r| ensures Le(r[j].1, r[i].1) {
        if i == 0 && j > 1 {
          assert r[j] == s[j - 1];
          LeTrans(s[j - 1].1, s[0].1, x.1);
        }
      }
    }
  }

  /** The result is a permutation of the input, best first. */
  lemma {:induction false} SortByFitnessSpec<C>(xs: seq<(C, Ext)>)
    ensures SortedDesc(SortByFitness(xs))
    ensures multiset(SortByFitness(xs)) == multiset(xs)
  {
    if |xs| > 0 {
      SortByFitnessSpec(xs[1..]);
      InsertSorted(xs[0], SortByFitness(xs[1..]));
      InsertMultiset(xs[0], SortByFitness(xs[1..]));
      assert xs == [xs[0]] + xs[1..];
    }
  }

  /** Entry i is as fit as any, and strictly fitter than every entry
      before it. */
  predicate FirstFittest<C>(xs: seq<(C, Ext)>, i: int)
  {
    0 <= i < |xs| &&
    (forall j :: 0 <= j < |xs| ==> Le(xs[j].1, xs[i].1)) &&
    (forall j :: 0 <= j < i ==> Lt(xs[j].1, xs[i].1))
  }

  /** The sort is stable where it matters for selection: its head is the
      earliest of the fittest entries. */
  lemma {:induction false} SortedFirstIsFirstFittest<C>(xs: seq<(C, Ext)>)
    requires |xs| > 0
    ensures exists i :: FirstFittest(xs, i) && SortByFitness(xs)[0] == xs[i]
  {
    if |xs| == 1 {
      assert FirstFittest(xs, 0);
    } else {
      var rest := xs[1..];
      SortedFirstIsFirstFittest(rest);
      var k :| FirstFittest(rest, k) && SortByFitness(rest)[0] == rest[k];
      var top := rest[k];
      assert SortByFitness(xs) == Insert(xs[0], SortByFitness(rest));
      if Le(top.1, xs[0].1) {
        forall j | 0 <= j < |xs| ensures Le(xs[j].1, xs[0].1) {
          if j > 0 {
            assert xs[j] == rest[j - 1];
            LeTrans(xs[j].1, top.1, xs[0].1);
          }
        }
        assert FirstFittest(xs, 0);
      } else {
        LeTotal(xs[0].1, top.1);
        forall j | 0 <= j < |xs| ensures Le(xs[j].1, xs[k + 1].1) {
          if j > 0 {
            assert xs[j] == rest[j - 1];
          }
        }
        forall j | 0 < j < k + 1 ensures Lt(xs[j].1, xs[k + 1].1) {
          assert xs[j] == rest[j - 1];
        }
        assert FirstFittest(xs, k + 1);
      }
    }
  }

  /** `random.sample(fitness_scores, 3)`: three distinct positions. */
  predicate ValidSample(sample: seq<nat>, n: nat)
  {
    |sample| == 3 && (forall i :: 0 <= i < 3 ==> sample[i] < n) &&
    (forall i, j :: 0 <= i < j < 3 ==> sample[i] != sample[j])
  }

  /** The entries `random.sample` picked, in the order it picked them. */
  function Picked<C>(scores: seq<(C, Ext)>, sample: seq<nat>): (r: seq<(C, Ext)>)
    requires forall i :: 0 <= i < |sample| ==> sample[i] < |scores|
    ensures |r| == |sample|
  {
    seq(|sample|, i requires 0 <= i < |sample| => scores[sample[i]])
  }

  /** `tournament_selection`: sort the sample best first and take the
      first chromosome. An empty sample would fail the indexing. */
  function Tournament<C>(scores: seq<(C, Ext)>, sample: seq<nat>): C
    requires |sample| > 0
    requires forall i :: 0 <= i < |sample| ==> sample[i] < |scores|
  {
    SortByFitness(Picked(scores, sample))[0].0
  }

  /** The winner is the earliest sampled entry among the fittest sampled:
      ties go to the one `random.sample` drew first. */
  lemma TournamentSpec<C>(scores: seq<(C, Ext)>, sample: seq<nat>)
    requires |sample| > 0
    requires forall i :: 0 <= i < |sample| ==> sample[i] < |scores|
    ensures exists i :: FirstFittest(Picked(scores, sample), i) && Tournament(scores, sample) == scores[sample[i]].0
    ensures exists i :: (0 <= i < |sample| && Tournament(scores, sample) == scores[sample[i]].0 &&
      forall j :: 0 <= j < |sample| ==> Le(scores[sample[j]].1, scores[sample[i]].1))
  {
    var p := Picked(scores, sample);
    SortedFirstIsFirstFittest(p);
    var i :| FirstFittest(p, i) && SortByFitness(p)[0] == p[i];
    forall j | 0 <= j < |sample| ensures Le(scores[sample[j]].1, scores[sample[i]].1) {
      assert p[j] == scores[sample[j]];
    }
  }

  /** The survivors are the fittest: the first is the earliest of the
      fittest, the second at least as fit as anyone but the first, and no
      chromosome is lost or duplicated by the sort. */
  lemma ElitesAreFittest<C>(scores: seq<(C, Ext)>)
    requires |scores| >= 2
    ensures exists i :: FirstFittest(scores, i) && SortByFitness(scores)[0] == scores[i]
    ensures forall k :: 1 <= k < |scores| ==> Le(SortByFitness(scores)[k].1, SortByFitness(scores)[1].1)
    ensures multiset(SortByFitness(scores)) == multiset(scores)
  {
    SortedFirstIsFirstFittest(scores);
    SortByFitnessSpec(scores);
  }

  /** The `k`-th fittest chromosome: what elitism keeps at place `k`. */
  function Elite<C>(scores: seq<(C, Ext)>, k: nat): C
    requires k < |scores|
  {
    SortByFitness(scores)[k].0
  }

  /** One generation: the two best of the sorted population first, then one
      child per draw until the population is full again. `breed` is the
      selection, crossover and mutation of one child from the sorted list
      and its draws. */
  method NextGeneration<C, D>(scores: seq<(C, Ext)>, populationSize: nat, draws: seq<D>,
                              breed: (seq<(C, Ext)>, D) --> C)
      returns (next: seq<C>)
    requires |scores| >= 2 && populationSize >= 2
    requires |draws| >= populationSize - 2
    requires forall i :: 0 <= i < |draws| ==> breed.requires(SortByFitness(scores), draws[i])
    ensures |next| == populationSize
    ensures next[0] == Elite(scores, 0) && next[1] == Elite(scores, 1)
    ensures forall k :: 2 <= k < populationSize ==> next[k] == breed(SortByFitness(scores), draws[k - 2])
  {
    var sorted := SortByFitness(scores);
    next := [sorted[0].0, sorted[1].0];
    var i := 0;
    while |next| < populationSize
      invariant |next| == i + 2 <= populationSize
      invariant next[0] == sorted[0].0 && next[1] == sorted[1].0
      invariant forall k :: 2 <= k < |next| ==> next[k] == breed(sorted, draws[k - 2])
    {
      next := next + [breed(sorted, draws[i])];
      i := i + 1;
    }
  }
}
