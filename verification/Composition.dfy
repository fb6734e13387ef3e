/** What it means for a transducer to be a composition of two others, and what follows for its paths. */
module Composition {
  import opened Transducer
  import opened Weights
  import opened Filter

  /** A composed transducer with its origin: the key of each state, the move behind each arc. */
  datatype Composed = Composed(w: Wfst, keys: seq<Key>, moves: seq<seq<Move>>)

  ghost predicate Shaped(c: Problem, r: Composed)
    requires Ok(c)
  {
    && |r.keys| == |r.moves| == |r.w.states|
    && (forall s :: 0 <= s < |r.keys| ==> KeyOk(c, r.keys[s]))
    && (forall s, t :: 0 <= s < t < |r.keys| ==> r.keys[s] != r.keys[t])
  }

  /** The arc at s, k is the composed arc of its move. */
  ghost predicate ArcFits(c: Problem, r: Composed, s: nat, arc: Arc, m: Move)
    requires Ok(c) && Shaped(c, r) && s < |r.keys|
  {
    && Enabled(c, r.keys[s], m)
    && arc.dest < |r.keys| && r.keys[arc.dest] == Target(c, r.keys[s], m)
    && arc.inp == MoveIn(c, r.keys[s], m) && arc.out == MoveOut(c, r.keys[s], m)
    && arc.weight == MoveWeight(c, r.keys[s], m)
  }

  /** Every arc of state s is that of an enabled move, no move twice. */
  ghost predicate StateSound(c: Problem, r: Composed, s: nat)
    requires Ok(c) && Shaped(c, r) && s < |r.keys|
  {
    && |r.moves[s]| == |r.w.states[s]|
    && NoDuplicates(r.moves[s])
    && forall k :: 0 <= k < |r.moves[s]| ==> ArcFits(c, r, s, r.w.states[s][k], r.moves[s][k])
  }

  ghost predicate StateComplete(c: Problem, r: Composed, s: nat)
    requires Ok(c) && Shaped(c, r) && s < |r.keys|
  {
    forall m :: Enabled(c, r.keys[s], m) ==> m in r.moves[s]
  }

  /** Everything the composition has to get right, state by state. */
  ghost predicate Realizes(c: Problem, r: Composed)
    requires Ok(c)
  {
    && Shaped(c, r)
    && |r.keys| > 0 && r.keys[0] == Trio(0, 0, 0)
    && (forall s :: 0 <= s < |r.keys| ==> StateSound(c, r, s) && StateComplete(c, r, s))
    && r.w.final < |r.keys|
    && (forall s :: 0 <= s < |r.keys| ==> (Accepts(c, r.keys[s]) <==> s == r.w.final))
    && r.w.ins == c.a.ins && r.w.outs == c.b.outs
  }

  lemma RealizesValid(c: Problem, r: Composed)
    requires Ok(c) && Realizes(c, r)
    ensures Valid(r.w)
  {
    forall q, k | 0 <= q < |r.w.states| && 0 <= k < |r.w.states[q]|
      ensures ArcOk(r.w, r.w.states[q][k])
    {
      assert StateSound(c, r, q);
      assert ArcFits(c, r, q, r.w.states[q][k], r.moves[q][k]);
    }
  }

  /** The moves behind the arcs of a path. */
  ghost function MovesOf(r: Composed, s: nat, p: seq<nat>): seq<Move>
    requires Valid(r.w) && |r.moves| == |r.w.states| && s < |r.moves| && IsPath(r.w, s, p)
    requires forall q :: 0 <= q < |r.moves| ==> |r.moves[q]| == |r.w.states[q]|
    decreases |p|
  {
    if |p| == 0 then [] else [r.moves[s][p[0]]] + MovesOf(r, r.w.states[s][p[0]].dest, p[1..])
  }

  ghost predicate Traceable(c: Problem, r: Composed)
    requires Ok(c)
  {
    && Realizes(c, r) && Valid(r.w)
    && forall q :: 0 <= q < |r.moves| ==> |r.moves[q]| == |r.w.states[q]|
  }

  lemma RealizesTraceable(c: Problem, r: Composed)
    requires Ok(c) && Realizes(c, r)
    ensures Traceable(c, r)
  {
    RealizesValid(c, r);
    forall q | 0 <= q < |r.moves| ensures |r.moves[q]| == |r.w.states[q]| {
      assert StateSound(c, r, q);
    }
  }

  /** A path of the result is a run, with its labels and weights. */
  lemma {:induction false} PathIsRun(c: Problem, r: Composed, s: nat, p: seq<nat>)
    requires Ok(c) && Traceable(c, r) && s < |r.keys| && IsPath(r.w, s, p)
    ensures IsRun(c, r.keys[s], MovesOf(r, s, p))
    ensures RunEnd(c, r.keys[s], MovesOf(r, s, p)) == r.keys[End(r.w, s, p)]
    ensures InputOf(r.w, s, p) == RunIn(c, r.keys[s], MovesOf(r, s, p))
    ensures OutputOf(r.w, s, p) == RunOut(c, r.keys[s], MovesOf(r, s, p))
    ensures Factors(r.w, s, p) == RunFactors(c, r.keys[s], MovesOf(r, s, p))
    decreases |p|
  {
    hide Mul;
    if |p| > 0 {
      var arc, m := r.w.states[s][p[0]], r.moves[s][p[0]];
      assert StateSound(c, r, s);
      assert ArcFits(c, r, s, arc, m);
      PathIsRun(c, r, arc.dest, p[1..]);
      assert MovesOf(r, s, p)[1..] == MovesOf(r, arc.dest, p[1..]);
    }
  }

  /** A run is a path of the result. */
  lemma {:induction false} RunIsPath(c: Problem, r: Composed, s: nat, ms: seq<Move>) returns (p: seq<nat>)
    requires Ok(c) && Traceable(c, r) && s < |r.keys| && IsRun(c, r.keys[s], ms)
    ensures IsPath(r.w, s, p) && MovesOf(r, s, p) == ms
    decreases |ms|
  {
    if |ms| == 0 {
      p := [];
    } else {
      hide Realizes, Enabled, Target, KeyOk;
      var k := ArcOfMove(c, r, s, ms[0]);
      var p' := RunIsPath(c, r, r.w.states[s][k].dest, ms[1..]);
      p := [k] + p';
      assert p[1..] == p';
      assert ms == [ms[0]] + ms[1..];
    }
  }

  /** An enabled move has its arc. */
  lemma ArcOfMove(c: Problem, r: Composed, s: nat, m: Move) returns (k: nat)
    requires Ok(c) && Traceable(c, r) && s < |r.keys| && KeyOk(c, r.keys[s]) && Enabled(c, r.keys[s], m)
    ensures |r.keys| == |r.moves| == |r.w.states| && k < |r.moves[s]| == |r.w.states[s]| && r.moves[s][k] == m
    ensures r.w.states[s][k].dest < |r.keys| && r.keys[r.w.states[s][k].dest] == Target(c, r.keys[s], m)
  {
    hide Enabled, Target, KeyOk, Valid;
    assert StateComplete(c, r, s) && StateSound(c, r, s);
    k :| 0 <= k < |r.moves[s]| && r.moves[s][k] == m;
    assert ArcFits(c, r, s, r.w.states[s][k], r.moves[s][k]);
  }

  /** Distinct paths have distinct moves. */
  lemma {:induction false} MovesDetermine(c: Problem, r: Composed, s: nat, p: seq<nat>, p': seq<nat>)
    requires Ok(c) && Traceable(c, r) && s < |r.keys| && IsPath(r.w, s, p) && IsPath(r.w, s, p')
    requires MovesOf(r, s, p) == MovesOf(r, s, p')
    ensures p == p'
    decreases |p|
  {
    MovesLength(r, s, p);
    MovesLength(r, s, p');
    if |p| > 0 {
      var ms, ms' := MovesOf(r, s, p), MovesOf(r, s, p');
      assert ms[0] == r.moves[s][p[0]] && ms'[0] == r.moves[s][p'[0]];
      assert StateSound(c, r, s);
      assert p[0] == p'[0];
      assert ms[1..] == MovesOf(r, r.w.states[s][p[0]].dest, p[1..]);
      assert ms'[1..] == MovesOf(r, r.w.states[s][p[0]].dest, p'[1..]);
      MovesDetermine(c, r, r.w.states[s][p[0]].dest, p[1..], p'[1..]);
      assert p == [p[0]] + p[1..] && p' == [p'[0]] + p'[1..];
    }
  }

  lemma {:induction false} MovesLength(r: Composed, s: nat, p: seq<nat>)
    requires Valid(r.w) && |r.moves| == |r.w.states| && s < |r.moves| && IsPath(r.w, s, p)
    requires forall q :: 0 <= q < |r.moves| ==> |r.moves[q]| == |r.w.states[q]|
    ensures |MovesOf(r, s, p)| == |p|
    decreases |p|
  {
    if |p| > 0 {
      MovesLength(r, r.w.states[s][p[0]].dest, p[1..]);
    }
  }

  // ----- the main results -----

  /** An accepting path of a and one of b, the first writing what the second reads. */
  ghost predicate MatchingPair(c: Problem, pa: seq<nat>, pb: seq<nat>)
    requires Ok(c)
  {
    Accepting(c.a, pa) && Accepting(c.b, pb) && OutputOf(c.a, 0, pa) == InputOf(c.b, 0, pb)
  }

  /** p is an accepting path of the result and was composed from pa and pb. */
  ghost predicate ComposedFrom(c: Problem, r: Composed, p: seq<nat>, pa: seq<nat>, pb: seq<nat>)
    requires Ok(c) && Traceable(c, r)
  {
    Accepting(r.w, p) && ProjA(MovesOf(r, 0, p)) == pa && ProjB(MovesOf(r, 0, p)) == pb
  }

  /** Nothing else is accepted: every accepting path comes from a matching pair, and reads what the first
    * reads, writes what the second writes, with the product of their weights. */
  lemma CompositionSound(c: Problem, r: Composed, p: seq<nat>) returns (pa: seq<nat>, pb: seq<nat>)
    requires Ok(c) && Realizes(c, r) && Valid(r.w) && Accepting(r.w, p)
    ensures Traceable(c, r) && ComposedFrom(c, r, p, pa, pb) && MatchingPair(c, pa, pb)
    ensures InputOf(r.w, 0, p) == InputOf(c.a, 0, pa)
    ensures OutputOf(r.w, 0, p) == OutputOf(c.b, 0, pb)
    ensures WeightOf(r.w, 0, p) == Mul(WeightOf(c.a, 0, pa), WeightOf(c.b, 0, pb))
  {
    hide Mul, Product;
    RealizesTraceable(c, r);
    var ms := MovesOf(r, 0, p);
    PathIsRun(c, r, 0, p);
    pa, pb := ProjA(ms), ProjB(ms);
    RunProjects(c, r.keys[0], ms);
    RunWeights(c, r.keys[0], ms);
    RunMatches(c, r.keys[0], ms);
    assert [] + OutputOf(c.a, 0, pa) == OutputOf(c.a, 0, pa) && InputOf(c.b, 0, pb) + [] == InputOf(c.b, 0, pb);
    assert Accepts(c, r.keys[r.w.final]);
  }

  /** Each matching pair gives an accepting path. */
  lemma CompositionComplete(c: Problem, r: Composed, pa: seq<nat>, pb: seq<nat>) returns (p: seq<nat>)
    requires Ok(c) && Realizes(c, r) && MatchingPair(c, pa, pb)
    ensures Traceable(c, r) && ComposedFrom(c, r, p, pa, pb)
  {
    RealizesTraceable(c, r);
    assert [] + OutputOf(c.a, 0, pa) == OutputOf(c.a, 0, pa);
    MergeAccepts(c, r.keys[0], pa, pb);
    p := RunIsPath(c, r, 0, Merge(c, r.keys[0], pa, pb));
    PathIsRun(c, r, 0, p);
    assert Accepts(c, r.keys[End(r.w, 0, p)]);
  }

  /** ... and only one. */
  lemma CompositionUnique(c: Problem, r: Composed, p: seq<nat>, p': seq<nat>, pa: seq<nat>, pb: seq<nat>)
    requires Ok(c) && Traceable(c, r)
    requires ComposedFrom(c, r, p, pa, pb) && ComposedFrom(c, r, p', pa, pb)
    ensures p == p'
  {
    forall x | x == p || x == p'
      ensures Paths(c, r.keys[0], pa, pb) && MovesOf(r, 0, x) == Merge(c, r.keys[0], pa, pb)
    {
      PathIsRun(c, r, 0, x);
      RunProjects(c, r.keys[0], MovesOf(r, 0, x));
      assert Accepts(c, r.keys[r.w.final]);
      RunIsMerge(c, r.keys[0], MovesOf(r, 0, x));
    }
    MovesDetermine(c, r, 0, p, p');
  }

  /** Two compositions of the same transducers, whichever filter each used, have the same paths: those of one
    * correspond one to one to those of the other, with the same labels and weight. */
  lemma CompositionsAgree(c: Problem, r: Composed, c': Problem, r': Composed, p: seq<nat>)
    returns (pa: seq<nat>, pb: seq<nat>, p': seq<nat>)
    requires Ok(c) && Ok(c') && c.a == c'.a && c.b == c'.b
    requires Realizes(c, r) && Realizes(c', r') && Valid(r.w) && Valid(r'.w) && Accepting(r.w, p)
    ensures Traceable(c, r) && Traceable(c', r')
    ensures ComposedFrom(c, r, p, pa, pb) && ComposedFrom(c', r', p', pa, pb)
    ensures InputOf(r.w, 0, p) == InputOf(r'.w, 0, p') && OutputOf(r.w, 0, p) == OutputOf(r'.w, 0, p')
    ensures WeightOf(r.w, 0, p) == WeightOf(r'.w, 0, p')
    ensures forall x :: ComposedFrom(c', r', x, pa, pb) ==> x == p'
  {
    hide Mul, Product;
    pa, pb := CompositionSound(c, r, p);
    p' := CompositionComplete(c', r', pa, pb);
    var pa', pb' := CompositionSound(c', r', p');
    forall x | ComposedFrom(c', r', x, pa, pb) ensures x == p' {
      CompositionUnique(c', r', x, p', pa, pb);
    }
  }

  // ----- how many states there are -----

  ghost function FirstKeys(keys: seq<Key>, n: nat): set<Key>
    requires n <= |keys|
  {
    set s | 0 <= s < n :: keys[s]
  }

  lemma {:induction false} DistinctKeys(keys: seq<Key>, n: nat)
    requires n <= |keys| && NoDuplicates(keys)
    ensures |FirstKeys(keys, n)| == n
  {
    if n > 0 {
      DistinctKeys(keys, n - 1);
      assert FirstKeys(keys, n) == FirstKeys(keys, n - 1) + {keys[n - 1]};
    }
  }

  /** The triples with qa below i, all of them, or for qa == i those with qb below j. */
  ghost function Trios(i: nat, nb: nat): set<Key> {
    set qa, qb, f | 0 <= qa < i && 0 <= qb < nb && 0 <= f < 3 :: Trio(qa, qb, f)
  }

  ghost function TrioRow(i: nat, j: nat): set<Key> {
    set qb, f | 0 <= qb < j && 0 <= f < 3 :: Trio(i, qb, f)
  }

  lemma {:induction false} TrioRowSize(i: nat, j: nat)
    ensures |TrioRow(i, j)| == 3 * j
  {
    if j == 0 {
      assert TrioRow(i, 0) == {};
    } else {
      TrioRowSize(i, j - 1);
      var three := {Trio(i, j - 1, 0), Trio(i, j - 1, 1), Trio(i, j - 1, 2)};
      assert TrioRow(i, j) == TrioRow(i, j - 1) + three;
      assert TrioRow(i, j - 1) !! three;
    }
  }

  lemma TimesStep(i: nat, n: nat)
    requires i > 0
    ensures i * n == (i - 1) * n + n
  {}

  lemma {:induction false} TriosSize(i: nat, nb: nat)
    ensures |Trios(i, nb)| == 3 * (i * nb)
  {
    if i == 0 {
      assert Trios(0, nb) == {};
    } else {
      TriosSize(i - 1, nb);
      TrioRowSize(i - 1, nb);
      assert Trios(i, nb) == Trios(i - 1, nb) + TrioRow(i - 1, nb);
      assert Trios(i - 1, nb) !! TrioRow(i - 1, nb);
      TimesStep(i, nb);
    }
  }

  lemma SubsetSize<T>(s: set<T>, t: set<T>)
    requires s <= t
    ensures |s| <= |t|
  {
    if s != {} {
      var x :| x in s;
      SubsetSize(s - {x}, t - {x});
    }
  }

  /** The 3-state filter makes at most three states for each pair of states, and perhaps a sink. */
  lemma StatesBounded(c: Problem, r: Composed)
    requires Ok(c) && Realizes(c, r) && !c.groups
    ensures |r.w.states| <= 3 * (|c.a.states| * |c.b.states|) + if c.merged then 1 else 0
  {
    var na, nb, n := |c.a.states|, |c.b.states|, |r.keys|;
    DistinctKeys(r.keys, n);
    TriosSize(na, nb);
    var all := if c.merged then Trios(na, nb) + {Sink} else Trios(na, nb);
    forall k | k in FirstKeys(r.keys, n) ensures k in all {
      var s :| 0 <= s < n && r.keys[s] == k;
      assert KeyOk(c, r.keys[s]);
    }
    SubsetSize(FirstKeys(r.keys, n), all);
  }
}
