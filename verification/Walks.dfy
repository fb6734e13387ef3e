/** Walks through the product of input string, transducer and output string: what can be reached, and what goes round. */
module Walks {
  import opened Transducer
  import opened Lattices

  ghost predicate Walk(c: Instance, d: DState, p: seq<nat>)
    decreases |p|
  {
    |p| == 0 || (CanTake(c, d, p[0]) && Walk(c, Successor(c, d, p[0]), p[1..]))
  }

  ghost function WalkEnd(c: Instance, d: DState, p: seq<nat>): DState
    requires Walk(c, d, p)
    decreases |p|
  {
    if |p| == 0 then d else WalkEnd(c, Successor(c, d, p[0]), p[1..])
  }

  ghost predicate WalkTo(c: Instance, d: DState, p: seq<nat>, t: DState) {
    Walk(c, d, p) && WalkEnd(c, d, p) == t
  }

  ghost predicate Leads(c: Instance, d: DState, t: DState) {
    exists p: seq<nat> :: WalkTo(c, d, p, t)
  }

  ghost predicate OnCycle(c: Instance, d: DState) {
    exists p: seq<nat> :: |p| > 0 && WalkTo(c, d, p, d)
  }

  ghost predicate ToCycle(c: Instance, d: DState) {
    exists t :: Leads(c, d, t) && OnCycle(c, t)
  }

  /** Every walk from d ends before long, and none at the goal. */
  ghost predicate Doomed(c: Instance, d: DState) {
    Hopeless(c, d) && !ToCycle(c, d)
  }

  lemma {:induction false} WalkJoin(c: Instance, d: DState, p: seq<nat>, t: DState, q: seq<nat>, u: DState)
    requires WalkTo(c, d, p, t) && WalkTo(c, t, q, u)
    ensures WalkTo(c, d, p + q, u)
    decreases |p|
  {
    if |p| == 0 {
      assert p + q == q;
    } else {
      assert (p + q)[1..] == p[1..] + q;
      WalkJoin(c, Successor(c, d, p[0]), p[1..], t, q, u);
    }
  }

  lemma WalkStep(c: Instance, d: DState, id: nat)
    requires CanTake(c, d, id)
    ensures WalkTo(c, d, [id], Successor(c, d, id))
  {
    assert [id][1..] == [];
  }

  /** The paths that reach the goal are the walks that end there. */
  lemma {:induction false} ReachesIsWalk(c: Instance, d: DState, p: seq<nat>)
    ensures Reaches(c, d, p) <==> WalkTo(c, d, p, Goal(c))
    decreases |p|
  {
    if |p| > 0 && CanTake(c, d, p[0]) { ReachesIsWalk(c, Successor(c, d, p[0]), p[1..]); }
  }

  // ----- states of a lattice that go on -----

  /** Each of `alive` stands for the goal, or its first arc goes to one of `alive`. */
  ghost predicate GoesOn(c: Instance, g: seq<seq<GArc>>, names: seq<DState>, alive: set<nat>) {
    && |g| == |names|
    && forall k :: k in alive ==> k < |names| && (names[k] == Goal(c) || FirstArcIn(c, g, names, alive, k))
  }

  ghost predicate FirstArcIn(c: Instance, g: seq<seq<GArc>>, names: seq<DState>, alive: set<nat>, k: nat)
    requires k < |g| == |names|
  {
    |g[k]| > 0 && LatticeArcOk(c, g, names, k, g[k][0]) && g[k][0].dest in alive
  }

  /** The states passed so far, all different, one arc apart. */
  ghost predicate Trace(c: Instance, names: seq<DState>, seen: seq<nat>, path: seq<nat>) {
    && |seen| == |path| + 1 && NoDuplicates(seen)
    && (forall i :: 0 <= i < |seen| ==> seen[i] < |names|)
    && forall i :: 0 <= i < |path| ==> CanTake(c, names[seen[i]], path[i]) && Successor(c, names[seen[i]], path[i]) == names[seen[i + 1]]
  }

  lemma {:induction false} TraceWalks(c: Instance, names: seq<DState>, seen: seq<nat>, path: seq<nat>, i: nat, j: nat)
    requires Trace(c, names, seen, path) && i <= j < |seen|
    ensures WalkTo(c, names[seen[i]], path[i..j], names[seen[j]])
    decreases j
  {
    if i == j {
      assert path[i..j] == [];
    } else {
      TraceWalks(c, names, seen, path, i, j - 1);
      WalkStep(c, names[seen[j - 1]], path[j - 1]);
      WalkJoin(c, names[seen[i]], path[i..j - 1], names[seen[j - 1]], [path[j - 1]], names[seen[j]]);
      assert path[i..j] == path[i..j - 1] + [path[j - 1]];
    }
  }

  ghost function Below(n: nat): (r: set<nat>)
    ensures |r| == n && forall x: nat :: x in r <==> x < n
  {
    if n == 0 then {} else Below(n - 1) + {n - 1}
  }

  ghost function Members(s: seq<nat>): (r: set<nat>)
    requires NoDuplicates(s)
    ensures |r| == |s| && forall x :: x in r <==> x in s
  {
    if |s| == 0 then {} else
    assert s == s[..|s| - 1] + [s[|s| - 1]];
    Members(s[..|s| - 1]) + {s[|s| - 1]}
  }

  lemma DistinctBelow(s: seq<nat>, n: nat)
    requires NoDuplicates(s) && forall i :: 0 <= i < |s| ==> s[i] < n
    ensures |s| <= n
  {
    Smaller(Members(s), Below(n));
  }

  lemma {:induction false} Smaller(a: set<nat>, b: set<nat>)
    requires a <= b
    ensures |a| <= |b|
  {
    if a != {} {
      var x :| x in a;
      Smaller(a - {x}, b - {x});
    }
  }

  /** Going on for ever, one passes the goal or the same state twice. */
  lemma {:induction false} AliveGoesOn(c: Instance, g: seq<seq<GArc>>, names: seq<DState>, alive: set<nat>, seen: seq<nat>, path: seq<nat>)
    requires GoesOn(c, g, names, alive) && Trace(c, names, seen, path) && seen[|path|] in alive
    ensures !Doomed(c, names[seen[0]])
    decreases |names| - |seen|
  {
    DistinctBelow(seen, |names|);
    var k := seen[|path|];
    TraceWalks(c, names, seen, path, 0, |path|);
    assert path[0..|path|] == path;
    if names[k] == Goal(c) {
      ReachesIsWalk(c, names[seen[0]], path);
    } else {
      var a := g[k][0];
      assert LatticeArcOk(c, g, names, k, a);
      if a.dest in seen {
        var j :| 0 <= j < |seen| && seen[j] == a.dest;
        RoundAgain(c, names, seen, path, j, a.id);
      } else {
        TraceGrows(c, names, seen, path, a.dest, a.id);
        DistinctBelow(seen + [a.dest], |names|);
        AliveGoesOn(c, g, names, alive, seen + [a.dest], path + [a.id]);
      }
    }
  }

  lemma RoundAgain(c: Instance, names: seq<DState>, seen: seq<nat>, path: seq<nat>, j: nat, id: nat)
    requires Trace(c, names, seen, path) && j < |seen|
    requires CanTake(c, names[seen[|path|]], id) && Successor(c, names[seen[|path|]], id) == names[seen[j]]
    ensures ToCycle(c, names[seen[0]])
  {
    TraceWalks(c, names, seen, path, 0, j);
    assert Leads(c, names[seen[0]], names[seen[j]]);
    TraceWalks(c, names, seen, path, j, |path|);
    WalkStep(c, names[seen[|path|]], id);
    WalkJoin(c, names[seen[j]], path[j..|path|], names[seen[|path|]], [id], names[seen[j]]);
    assert OnCycle(c, names[seen[j]]);
  }

  lemma TraceGrows(c: Instance, names: seq<DState>, seen: seq<nat>, path: seq<nat>, k: nat, id: nat)
    requires Trace(c, names, seen, path) && k < |names| && k !in seen
    requires CanTake(c, names[seen[|path|]], id) && Successor(c, names[seen[|path|]], id) == names[k]
    ensures Trace(c, names, seen + [k], path + [id])
  {}
}
