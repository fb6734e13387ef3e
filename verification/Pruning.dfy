/** derivations::prune (carmel/src/derivations.h): marked states are taken out of the lattice and the others
  * renumbered, in place. */
module Pruning {
  import opened Transducer
  import opened Lattices

  const REMOVED: int := -1

  ghost function KeptBefore(removed: seq<bool>, i: nat): nat
    requires i <= |removed|
  {
    if i == 0 then 0 else KeptBefore(removed, i - 1) + if removed[i - 1] then 0 else 1
  }

  lemma KeptStep(removed: seq<bool>, i: nat)
    requires i < |removed|
    ensures KeptBefore(removed, 0) == 0
    ensures KeptBefore(removed, i + 1) == KeptBefore(removed, i) + if removed[i] then 0 else 1
  {}

  ghost function NewIndex(removed: seq<bool>, i: nat): int
    requires i < |removed|
  {
    if removed[i] then REMOVED else KeptBefore(removed, i)
  }

  ghost predicate IsTable(removed: seq<bool>, t: seq<int>) {
    |t| == |removed| && forall i :: 0 <= i < |t| ==> t[i] == NewIndex(removed, i)
  }

  /** new_indices_keep */
  method NewIndices(removed: seq<bool>) returns (t: seq<int>, kept: nat)
    ensures IsTable(removed, t) && kept == KeptBefore(removed, |removed|)
  {
    t, kept := [], 0;
    assert KeptBefore(removed, 0) == 0;
    hide KeptBefore;
    for i := 0 to |removed|
      invariant |t| == i && kept == KeptBefore(removed, i)
      invariant forall j :: 0 <= j < i ==> t[j] == NewIndex(removed, j)
    {
      KeptStep(removed, i);
      if removed[i] {
        t := t + [REMOVED];
      } else {
        t, kept := t + [kept], kept + 1;
      }
    }
  }

  lemma {:induction false} KeptGrows(removed: seq<bool>, i: nat, j: nat)
    requires i <= j <= |removed|
    ensures KeptBefore(removed, i) <= KeptBefore(removed, j) <= KeptBefore(removed, i) + (j - i)
    ensures i < j && !removed[i] ==> KeptBefore(removed, i) < KeptBefore(removed, j)
    decreases j
  {
    if i < j { KeptGrows(removed, i, j - 1); }
  }

  /** Every new number is the number of one kept state. */
  lemma {:induction false} KeptHit(removed: seq<bool>, n: nat, m: nat) returns (i: nat)
    requires n <= |removed| && m < KeptBefore(removed, n)
    ensures i < n && !removed[i] && KeptBefore(removed, i) == m
    decreases n
  {
    if m < KeptBefore(removed, n - 1) {
      i := KeptHit(removed, n - 1, m);
    } else {
      i := n - 1;
    }
  }

  /** While moving: what came before i is in place, the rest is untouched. */
  ghost predicate Moving<T>(removed: seq<bool>, v: seq<T>, v': seq<T>, i: nat) {
    && i <= |v| == |v'| == |removed|
    && (forall j :: 0 <= j < i && !removed[j] ==> KeptBefore(removed, j) < |v| && v'[KeptBefore(removed, j)] == v[j])
    && forall j :: i <= j < |v| ==> v'[j] == v[j]
  }

  /** New places are in order, and never beyond the old ones. */
  lemma KeptInOrder(removed: seq<bool>, i: nat)
    requires i <= |removed|
    ensures KeptBefore(removed, i) <= i
    ensures forall j :: 0 <= j < i && !removed[j] ==> KeptBefore(removed, j) < KeptBefore(removed, i)
  {
    assert KeptBefore(removed, 0) == 0;
    KeptGrows(removed, 0, i);
    hide KeptBefore;
    forall j | 0 <= j < i && !removed[j] ensures KeptBefore(removed, j) < KeptBefore(removed, i) {
      KeptGrows(removed, j, i);
    }
  }

  lemma MovingStep<T>(removed: seq<bool>, v: seq<T>, v': seq<T>, i: nat)
    requires Moving(removed, v, v', i) && i < |v|
    ensures KeptBefore(removed, i) <= i
    ensures removed[i] || KeptBefore(removed, i) == i ==> Moving(removed, v, v', i + 1)
    ensures !removed[i] ==> Moving(removed, v, v'[KeptBefore(removed, i) := v'[i]], i + 1)
  {
    hide KeptBefore;
    KeptInOrder(removed, i);
  }

  lemma MovingEnds<T>(removed: seq<bool>, v: seq<T>, v': seq<T>)
    requires Moving(removed, v, v', |v|)
    ensures KeptBefore(removed, |removed|) <= |v| == |v'|
    ensures forall j :: 0 <= j < |v| && !removed[j] ==>
      KeptBefore(removed, j) < KeptBefore(removed, |removed|) && v'[KeptBefore(removed, j)] == v[j]
  {
    hide KeptBefore;
    KeptInOrder(removed, |removed|);
  }

  /** do_moves: what is kept moves down to its new place, in order, and the rest is cut off. */
  method DoMoves<T>(removed: seq<bool>, t: seq<int>, kept: nat, v: seq<T>) returns (v': seq<T>)
    requires |v| == |removed| && IsTable(removed, t) && kept == KeptBefore(removed, |removed|)
    ensures |v'| == kept
    ensures forall j :: 0 <= j < |v| && t[j] != REMOVED ==> 0 <= t[j] < kept && v'[t[j]] == v[j]
  {
    hide KeptBefore, Moving;
    v' := v;
    var i := 0;
    MovingStarts(removed, v);
    while i < |t| && t[i] != REMOVED
      invariant i <= |v| == |v'| && KeptBefore(removed, i) == i && Moving(removed, v, v', i)
    {
      MovingStep(removed, v, v', i);
      KeptStep(removed, i);
      i := i + 1;
    }
    while i < |t|
      invariant i <= |v| == |v'| && Moving(removed, v, v', i)
    {
      MovingStep(removed, v, v', i);
      if t[i] != REMOVED {
        v' := v'[t[i] := v'[i]];
      }
      i := i + 1;
    }
    MovingEnds(removed, v, v');
    v' := v'[..kept];
  }

  lemma MovingStarts<T>(removed: seq<bool>, v: seq<T>)
    requires |v| == |removed|
    ensures KeptBefore(removed, 0) == 0 && Moving(removed, v, v, 0)
  {}

  /** rewrite_GraphState: an arc into a state taken out is dropped, the others are renumbered. */
  ghost function Rewritten(arcs: seq<GArc>, t: seq<int>): seq<GArc> {
    if |arcs| == 0 then [] else
    var a := arcs[|arcs| - 1];
    Rewritten(arcs[..|arcs| - 1], t) +
    if a.dest < |t| && t[a.dest] >= 0 && a.src < |t| && t[a.src] >= 0 then [GArc(t[a.src], t[a.dest], a.id)] else []
  }

  method Rewrite(arcs: seq<GArc>, t: seq<int>) returns (arcs': seq<GArc>)
    requires forall j :: 0 <= j < |arcs| ==> arcs[j].dest < |t| && arcs[j].src < |t| && t[arcs[j].src] >= 0
    requires forall k :: 0 <= k < |t| ==> t[k] >= REMOVED
    ensures arcs' == Rewritten(arcs, t)
  {
    arcs' := [];
    for i := 0 to |arcs|
      invariant arcs' == Rewritten(arcs[..i], t)
    {
      var a := arcs[i];
      assert arcs[..i + 1][..i] == arcs[..i];
      if t[a.dest] != REMOVED {
        arcs' := arcs' + [GArc(t[a.src], t[a.dest], a.id)];
      }
    }
    assert arcs[..|arcs|] == arcs;
  }

  lemma {:induction false} RewrittenAll(arcs: seq<GArc>, t: seq<int>)
    requires forall j :: 0 <= j < |arcs| ==> arcs[j].dest < |t| && arcs[j].src < |t| && t[arcs[j].src] >= 0 && t[arcs[j].dest] >= 0
    ensures |Rewritten(arcs, t)| == |arcs|
    ensures forall j :: 0 <= j < |arcs| ==> Rewritten(arcs, t)[j] == GArc(t[arcs[j].src], t[arcs[j].dest], arcs[j].id)
  {
    if |arcs| > 0 { RewrittenAll(arcs[..|arcs| - 1], t); }
  }

  /** The kept states, in order. */
  ghost predicate IsPruned(g: seq<seq<GArc>>, t: seq<int>, g': seq<seq<GArc>>) {
    forall k :: 0 <= k < |g| && k < |t| && t[k] >= 0 ==> t[k] < |g'| && g'[t[k]] == Rewritten(g[k], t)
  }

  ghost predicate ArcsFit(g: seq<seq<GArc>>) {
    forall k, j :: 0 <= k < |g| && 0 <= j < |g[k]| ==> g[k][j].src == k && g[k][j].dest < |g|
  }

  /** While shuffling: states before i are in place, those from i on are untouched. */
  ghost predicate Shuffled(removed: seq<bool>, g: seq<seq<GArc>>, t: seq<int>, g': seq<seq<GArc>>, to: nat, i: nat) {
    && to <= i <= |g| == |g'| == |removed| == |t| && KeptBefore(removed, i) == to
    && (forall k :: 0 <= k < i && t[k] >= 0 ==> t[k] < to && g'[t[k]] == Rewritten(g[k], t))
    && (forall k :: i <= k < |g| ==> g'[k] == g[k])
  }

  /** shuffle_removing, then resize: kept states move down in order, by swaps. */
  method ShuffleRemoving(removed: seq<bool>, g: seq<seq<GArc>>, t: seq<int>) returns (g': seq<seq<GArc>>)
    requires |g| == |t| && IsTable(removed, t) && ArcsFit(g)
    ensures |g'| == KeptBefore(removed, |removed|) && IsPruned(g, t, g')
  {
    hide Shuffled, IsTable, Rewritten, KeptBefore, ArcsFit;
    ShuffleStarts(removed, g, t);
    g' := g;
    var i := 0;
    while i < |g| && t[i] != REMOVED
      invariant i <= |g| == |g'| && Shuffled(removed, g, t, g', i, i)
    {
      ShuffleStep(removed, g, t, g', i, i);
      var arcs := Rewrite(g'[i], t);
      g' := g'[i := arcs];
      assert Swapped(g', i, i) == g';
      i := i + 1;
    }
    var to := i;
    while i < |g|
      invariant to <= i <= |g| == |g'| && Shuffled(removed, g, t, g', to, i)
    {
      ShuffleStep(removed, g, t, g', to, i);
      if t[i] == REMOVED {
        g' := g'[i := []];
        i := i + 1;
      } else {
        var arcs := Rewrite(g'[i], t);
        g' := g'[i := arcs];
        g' := g'[to := g'[i]][i := g'[to]];
        to, i := to + 1, i + 1;
      }
    }
    ShuffleEnds(removed, g, t, g', to);
    g' := g'[..to];
  }

  lemma ShuffleStarts(removed: seq<bool>, g: seq<seq<GArc>>, t: seq<int>)
    requires |g| == |t| && IsTable(removed, t)
    ensures Shuffled(removed, g, t, g, 0, 0)
  {}

  lemma ShuffleEnds(removed: seq<bool>, g: seq<seq<GArc>>, t: seq<int>, g': seq<seq<GArc>>, to: nat)
    requires Shuffled(removed, g, t, g', to, |g|)
    ensures to <= |g'| && to == KeptBefore(removed, |removed|) && IsPruned(g, t, g'[..to])
  {
    hide KeptBefore, Rewritten;
  }

  ghost function Swapped(g: seq<seq<GArc>>, to: nat, i: nat): seq<seq<GArc>>
    requires to < |g| && i < |g|
  {
    g[to := g[i]][i := g[to]]
  }

  lemma ShuffleSkips(removed: seq<bool>, g: seq<seq<GArc>>, t: seq<int>, g': seq<seq<GArc>>, to: nat, i: nat)
    requires Shuffled(removed, g, t, g', to, i) && i < |g| && t[i] == REMOVED && removed[i]
    ensures Shuffled(removed, g, t, g'[i := []], to, i + 1)
  {
    KeptStep(removed, i);
    hide KeptBefore, Rewritten;
  }

  lemma ShuffleMoves(removed: seq<bool>, g: seq<seq<GArc>>, t: seq<int>, g': seq<seq<GArc>>, to: nat, i: nat)
    requires Shuffled(removed, g, t, g', to, i) && i < |g| && t[i] == to && !removed[i]
    ensures Shuffled(removed, g, t, Swapped(g'[i := Rewritten(g'[i], t)], to, i), to + 1, i + 1)
  {
    KeptStep(removed, i);
    hide KeptBefore, Rewritten;
  }

  lemma ShuffleStep(removed: seq<bool>, g: seq<seq<GArc>>, t: seq<int>, g': seq<seq<GArc>>, to: nat, i: nat)
    requires Shuffled(removed, g, t, g', to, i) && i < |g| && IsTable(removed, t) && ArcsFit(g)
    ensures forall k :: 0 <= k < |t| ==> t[k] >= REMOVED
    ensures forall j :: 0 <= j < |g'[i]| ==> g'[i][j].dest < |t| && g'[i][j].src == i
    ensures t[i] == REMOVED ==> Shuffled(removed, g, t, g'[i := []], to, i + 1)
    ensures t[i] != REMOVED ==> t[i] == to && Shuffled(removed, g, t, Swapped(g'[i := Rewritten(g'[i], t)], to, i), to + 1, i + 1)
  {
    hide KeptBefore, Rewritten;
    assert t[i] == NewIndex(removed, i);
    assert forall k :: 0 <= k < |t| ==> NewIndex(removed, k) >= REMOVED;
    assert g'[i] == g[i];
    if removed[i] {
      ShuffleSkips(removed, g, t, g', to, i);
    } else {
      ShuffleMoves(removed, g, t, g', to, i);
    }
    hide Shuffled;
  }

  ghost function KeptNames(names: seq<DState>, removed: seq<bool>, n: nat): (r: seq<DState>)
    requires n <= |removed| && n <= |names|
    ensures |r| == KeptBefore(removed, n)
  {
    if n == 0 then [] else KeptNames(names, removed, n - 1) + if removed[n - 1] then [] else [names[n - 1]]
  }

  lemma {:induction false} KeptNamesAt(names: seq<DState>, removed: seq<bool>, n: nat, k: nat)
    requires k < n <= |removed| && n <= |names| && !removed[k]
    ensures KeptBefore(removed, k) < |KeptNames(names, removed, n)| && KeptNames(names, removed, n)[KeptBefore(removed, k)] == names[k]
    decreases n
  {
    KeptGrows(removed, k, n);
    if k < n - 1 {
      KeptNamesAt(names, removed, n - 1, k);
    }
  }

  /** If no arc ends in a state taken out, and neither the start nor the goal is taken out, the lattice misses no more than before. */
  lemma PrunedExact(c: Instance, l: Lattice, removed: seq<bool>, t: seq<int>, l': Lattice)
    requires Exact(c, l) && |removed| == |l.g| && IsTable(removed, t) && IsPruned(l.g, t, l'.g)
    requires |l'.g| == KeptBefore(removed, |removed|) && l'.names == KeptNames(l.names, removed, |removed|)
    requires forall k, j :: 0 <= k < |l.g| && 0 <= j < |l.g[k]| ==> !removed[l.g[k][j].dest]
    requires !removed[0] && !removed[l.fin] && l'.fin == t[l.fin]
    ensures Exact(c, l')
  {
    KeptNamesAt(l.names, removed, |removed|, 0);
    KeptNamesAt(l.names, removed, |removed|, l.fin);
    PrunedDistinct(l.names, removed);
    forall m: nat | m < |l'.g|
      ensures StateGood(c, l', m)
    {
      var k := KeptHit(removed, |removed|, m);
      PrunedState(c, l, removed, t, l', k);
    }
    StatesGood(c, l');
  }

  lemma PrunedDistinct(names: seq<DState>, removed: seq<bool>)
    requires |names| == |removed| && forall j, k :: 0 <= j < k < |names| ==> names[j] != names[k]
    ensures forall j, k :: 0 <= j < k < |KeptNames(names, removed, |removed|)| ==>
      KeptNames(names, removed, |removed|)[j] != KeptNames(names, removed, |removed|)[k]
  {
    var names' := KeptNames(names, removed, |removed|);
    forall m, m' | 0 <= m < m' < |names'| ensures names'[m] != names'[m'] {
      var k := KeptHit(removed, |removed|, m);
      var k' := KeptHit(removed, |removed|, m');
      KeptNamesAt(names, removed, |removed|, k);
      KeptNamesAt(names, removed, |removed|, k');
      assert names[k] != names[k'];
    }
  }

  ghost predicate StateGood(c: Instance, l: Lattice, m: nat)
    requires m < |l.g| == |l.names|
  {
    && (forall j :: 0 <= j < |l.g[m]| ==> LatticeArcOk(c, l.g, l.names, m, l.g[m][j]))
    && OncePerId(l.g[m])
    && forall id :: CanTake(c, l.names[m], id) ==> Stored(l.g[m], id) || Hopeless(c, Successor(c, l.names[m], id))
  }

  lemma StatesGood(c: Instance, l: Lattice)
    requires |l.g| == |l.names| > 0 && l.names[0] == START && l.fin < |l.names| && l.names[l.fin] == Goal(c)
    requires forall j, k :: 0 <= j < k < |l.names| ==> l.names[j] != l.names[k]
    requires forall m: nat :: m < |l.g| ==> StateGood(c, l, m)
    ensures Exact(c, l)
  {
    hide LatticeArcOk, OncePerId, Hopeless, Stored, CanTake;
    forall k | 0 <= k < |l.g|
      ensures forall j :: 0 <= j < |l.g[k]| ==> LatticeArcOk(c, l.g, l.names, k, l.g[k][j])
      ensures OncePerId(l.g[k])
      ensures forall id :: CanTake(c, l.names[k], id) ==> Stored(l.g[k], id) || Hopeless(c, Successor(c, l.names[k], id))
    {
      assert StateGood(c, l, k);
    }
  }

  /** A kept state keeps all its arcs: no state that is left has lost its way. */
  lemma PrunedArcs(c: Instance, l: Lattice, removed: seq<bool>, t: seq<int>, l': Lattice)
    requires Exact(c, l) && |removed| == |l.g| && IsTable(removed, t) && IsPruned(l.g, t, l'.g)
    requires |l'.g| == KeptBefore(removed, |removed|) && l'.names == KeptNames(l.names, removed, |removed|)
    requires forall k, j :: 0 <= k < |l.g| && 0 <= j < |l.g[k]| ==> !removed[l.g[k][j].dest]
    requires forall k :: 0 <= k < |l.g| && !removed[k] && l.g[k] == [] ==> l.names[k] == Goal(c)
    ensures forall m :: 0 <= m < |l'.g| && l'.g[m] == [] ==> l'.names[m] == Goal(c)
  {
    forall m | 0 <= m < |l'.g| && l'.g[m] == [] ensures l'.names[m] == Goal(c) {
      var k := KeptHit(removed, |removed|, m);
      PrunedState(c, l, removed, t, l', k);
      KeptNamesAt(l.names, removed, |removed|, k);
    }
  }

  lemma ExactState(c: Instance, l: Lattice, k: nat)
    requires Exact(c, l) && k < |l.g|
    ensures |l.g| == |l.names| && StateGood(c, l, k)
  {
    hide LatticeArcOk, OncePerId, Hopeless, Stored, CanTake, Goal;
  }

  /** Where a kept state has gone. */
  lemma NewPlace(l: Lattice, removed: seq<bool>, t: seq<int>, l': Lattice, k: nat)
    requires |removed| == |l.g| == |l.names| && IsTable(removed, t) && IsPruned(l.g, t, l'.g)
    requires l'.names == KeptNames(l.names, removed, |removed|)
    requires k < |l.g| && !removed[k]
    ensures |t| == |l.g| && 0 <= t[k] < |l'.g| && t[k] < |l'.names| && l'.names[t[k]] == l.names[k] && l'.g[t[k]] == Rewritten(l.g[k], t)
  {
    hide Rewritten, KeptNames, KeptBefore;
    assert t[k] == NewIndex(removed, k);
    KeptNamesAt(l.names, removed, |removed|, k);
  }

  lemma PrunedState(c: Instance, l: Lattice, removed: seq<bool>, t: seq<int>, l': Lattice, k: nat)
    requires Exact(c, l) && |removed| == |l.g| && IsTable(removed, t) && IsPruned(l.g, t, l'.g)
    requires |l'.g| == KeptBefore(removed, |removed|) && l'.names == KeptNames(l.names, removed, |removed|)
    requires forall k, j :: 0 <= k < |l.g| && 0 <= j < |l.g[k]| ==> !removed[l.g[k][j].dest]
    requires k < |l.g| && !removed[k]
    ensures t[k] < |l'.g| && |l'.g[t[k]]| == |l.g[k]| && StateGood(c, l', t[k])
  {
    hide Exact, IsTable, IsPruned, Rewritten, Hopeless, KeptNames, KeptBefore, Goal, LatticeArcOk, CanTake, Stored, OncePerId;
    ExactState(c, l, k);
    NewPlace(l, removed, t, l', k);
    PrunedStateArcs(c, l, removed, t, l', k);
    SameIds(l.g[k], l'.g[t[k]]);
  }

  lemma SameIds(arcs: seq<GArc>, arcs': seq<GArc>)
    requires |arcs| == |arcs'| && forall j :: 0 <= j < |arcs| ==> arcs'[j].id == arcs[j].id
    ensures OncePerId(arcs) ==> OncePerId(arcs')
    ensures forall id :: Stored(arcs, id) ==> Stored(arcs', id)
  {
    forall id | Stored(arcs, id) ensures Stored(arcs', id) {
      var j :| 0 <= j < |arcs| && arcs[j].id == id;
      assert arcs'[j].id == id;
    }
  }

  lemma PrunedStateArcs(c: Instance, l: Lattice, removed: seq<bool>, t: seq<int>, l': Lattice, k: nat)
    requires Exact(c, l) && |removed| == |l.g| && IsTable(removed, t) && IsPruned(l.g, t, l'.g)
    requires |l'.g| == KeptBefore(removed, |removed|) && l'.names == KeptNames(l.names, removed, |removed|)
    requires forall k, j :: 0 <= k < |l.g| && 0 <= j < |l.g[k]| ==> !removed[l.g[k][j].dest]
    requires k < |l.g| && !removed[k]
    ensures 0 <= t[k] < |l'.g| && |l'.g[t[k]]| == |l.g[k]|
    ensures forall j :: 0 <= j < |l.g[k]| ==> l'.g[t[k]][j].id == l.g[k][j].id && LatticeArcOk(c, l'.g, l'.names, t[k], l'.g[t[k]][j])
  {
    hide Exact, IsTable, IsPruned, Rewritten, Hopeless, KeptNames, KeptBefore, Goal, OncePerId, Stored, CanTake;
    ExactState(c, l, k);
    NewPlace(l, removed, t, l', k);
    forall j | 0 <= j < |l.g[k]| ensures l.g[k][j].dest < |l.g| && 0 <= t[l.g[k][j].dest] < |l'.names| && l.g[k][j].src == k
      ensures l'.names[t[l.g[k][j].dest]] == l.names[l.g[k][j].dest]
    {
      assert LatticeArcOk(c, l.g, l.names, k, l.g[k][j]);
      NewPlace(l, removed, t, l', l.g[k][j].dest);
    }
    RewrittenAll(l.g[k], t);
    forall j | 0 <= j < |l.g[k]| ensures LatticeArcOk(c, l'.g, l'.names, t[k], l'.g[t[k]][j]) {
      assert LatticeArcOk(c, l.g, l.names, k, l.g[k][j]);
    }
  }
}
