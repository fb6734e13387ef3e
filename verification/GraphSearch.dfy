/** Graphs as carmel searches them (graehl/shared/graph.h, carmel/src/graph.cc): what a depth-first search marks. */
module GraphSearch {
  import opened Transducer

  /** For each state, the states that its arcs lead to. */
  type Graph = seq<seq<nat>>

  ghost predicate Fits(g: Graph) {
    forall q, k :: 0 <= q < |g| && 0 <= k < |g[q]| ==> g[q][k] < |g|
  }

  ghost predicate Edge(g: Graph, q: nat, r: nat) {
    q < |g| && r < |g| && r in g[q]
  }

  /** s is a sequence of states, each with an arc to the next. */
  ghost predicate Route(g: Graph, s: seq<nat>) {
    |s| > 0 && s[0] < |g| && forall i :: 0 <= i < |s| - 1 ==> Edge(g, s[i], s[i + 1])
  }

  ghost predicate Leads(g: Graph, q: nat, r: nat) {
    exists s :: Route(g, s) && s[0] == q && s[|s| - 1] == r
  }

  lemma LeadsNowhere(g: Graph, q: nat)
    requires q < |g|
    ensures Leads(g, q, q)
  {
    assert Route(g, [q]) && [q][0] == q && [q][|[q]| - 1] == q;
  }

  lemma LeadsStep(g: Graph, q: nat, m: nat, r: nat)
    requires Edge(g, q, m) && Leads(g, m, r)
    ensures Leads(g, q, r)
  {
    var s :| Route(g, s) && s[0] == m && s[|s| - 1] == r;
    assert Route(g, [q] + s) by {
      forall i | 0 <= i < |s| ensures Edge(g, ([q] + s)[i], ([q] + s)[i + 1]) {
        if i > 0 { assert Edge(g, s[i - 1], s[i - 1 + 1]); }
      }
    }
  }

  /** A set of states that no arc leaves holds everything its states lead to. */
  lemma {:induction false} ClosedHolds(g: Graph, v: seq<bool>, s: seq<nat>)
    requires Fits(g) && |v| == |g| && Route(g, s) && v[s[0]]
    requires forall q, k :: 0 <= q < |g| && v[q] && 0 <= k < |g[q]| ==> v[g[q][k]]
    ensures s[|s| - 1] < |v| && v[s[|s| - 1]]
    decreases |s|
  {
    if |s| > 1 {
      assert Edge(g, s[0], s[0 + 1]);
      RouteTail(g, s);
      ClosedHolds(g, v, s[1..]);
    }
  }

  // ----- makeGraph, reverseGraph -----

  ghost predicate IsGraph(w: Wfst, g: Graph) {
    && |g| == |w.states| && Fits(g)
    && forall q: nat, r: nat :: q < |g| ==> (r in g[q] <==> exists k :: 0 <= k < |w.states[q]| && w.states[q][k].dest == r)
  }

  lemma GraphFits(w: Wfst, g: Graph)
    requires IsGraph(w, g)
    ensures |g| == |w.states| && Fits(g)
  {}

  lemma ReverseFits(g: Graph, rev: Graph)
    requires IsReverse(g, rev)
    ensures |rev| == |g| && Fits(rev)
  {}

  method MakeGraph(w: Wfst) returns (g: Graph)
    requires Valid(w)
    ensures IsGraph(w, g)
  {
    g := [];
    for q := 0 to |w.states|
      invariant |g| == q && forall p, k :: 0 <= p < q && 0 <= k < |g[p]| ==> g[p][k] < |w.states|
      invariant forall p: nat, r: nat :: p < q ==> (r in g[p] <==> exists k :: 0 <= k < |w.states[p]| && w.states[p][k].dest == r)
    {
      var dests := Dests(w, q);
      g := g + [dests];
    }
  }

  lemma {:induction false} PathLeads(w: Wfst, g: Graph, q: nat, p: seq<nat>)
    requires Valid(w) && IsGraph(w, g) && q < |w.states| && IsPath(w, q, p)
    ensures Leads(g, q, End(w, q, p))
    decreases |p|
  {
    if |p| == 0 {
      LeadsNowhere(g, q);
    } else {
      var m := w.states[q][p[0]].dest;
      PathLeads(w, g, m, p[1..]);
      assert Edge(g, q, m);
      LeadsStep(g, q, m, End(w, q, p));
    }
  }

  lemma {:induction false} RouteIsPath(w: Wfst, g: Graph, s: seq<nat>) returns (p: seq<nat>)
    requires Valid(w) && IsGraph(w, g) && Route(g, s)
    ensures IsPath(w, s[0], p) && End(w, s[0], p) == s[|s| - 1]
    decreases |s|
  {
    if |s| == 1 {
      p := [];
    } else {
      assert Edge(g, s[0], s[0 + 1]);
      RouteTail(g, s);
      var k :| 0 <= k < |w.states[s[0]]| && w.states[s[0]][k].dest == s[1];
      var p' := RouteIsPath(w, g, s[1..]);
      PathCons(w, s[0], k, p');
      p := [k] + p';
    }
  }

  lemma RouteTail(g: Graph, s: seq<nat>)
    requires Route(g, s) && |s| > 1
    ensures Route(g, s[1..])
  {
    assert Edge(g, s[0], s[0 + 1]);
    forall i | 0 <= i < |s| - 2 ensures Edge(g, s[1..][i], s[1..][i + 1]) {
      assert Edge(g, s[i + 1], s[i + 1 + 1]);
    }
  }

  lemma LeadsIsPath(w: Wfst, g: Graph, q: nat, r: nat) returns (p: seq<nat>)
    requires Valid(w) && IsGraph(w, g) && q < |w.states| && Leads(g, q, r)
    ensures IsPath(w, q, p) && End(w, q, p) == r
  {
    var s :| Route(g, s) && s[0] == q && s[|s| - 1] == r;
    p := RouteIsPath(w, g, s);
  }

  method Dests(w: Wfst, q: nat) returns (dests: seq<nat>)
    requires Valid(w) && q < |w.states|
    ensures forall k :: 0 <= k < |dests| ==> dests[k] < |w.states|
    ensures forall r: nat :: r in dests <==> exists k :: 0 <= k < |w.states[q]| && w.states[q][k].dest == r
  {
    var arcs := w.states[q];
    dests := [];
    for k := 0 to |arcs|
      invariant forall i :: 0 <= i < |dests| ==> dests[i] < |w.states|
      invariant forall r: nat :: r in dests <==> exists i :: 0 <= i < k && arcs[i].dest == r
    {
      assert ArcOk(w, w.states[q][k]);
      dests := [arcs[k].dest] + dests;
    }
  }

  ghost predicate IsReverse(g: Graph, rev: Graph) {
    |rev| == |g| && Fits(g) && Fits(rev) && forall q: nat, r: nat :: Edge(rev, r, q) <==> Edge(g, q, r)
  }

  method ReverseGraph(g: Graph) returns (rev: Graph)
    requires Fits(g)
    ensures IsReverse(g, rev)
  {
    hide Fits;
    rev := seq(|g|, _ => []);
    NoneReversed(g, rev);
    for q := 0 to |g|
      invariant Reversed(g, rev, q, 0)
    {
      for k := 0 to |g[q]|
        invariant Reversed(g, rev, q, k)
      {
        assert g[q][k] < |rev| by { ReversedWithin(g, rev, q, k); }
        ReverseStep(g, rev, q, k);
        rev := rev[g[q][k] := [q] + rev[g[q][k]]];
      }
      ReversedState(g, rev, q);
    }
    AllReversed(g, rev);
  }

  /** The arcs of the states before q have been reversed, and the first k of q. */
  ghost predicate Reversed(g: Graph, rev: Graph, q: nat, k: nat) {
    && |rev| == |g| && Fits(g) && Fits(rev)
    && forall p: nat, r: nat :: Edge(rev, r, p) <==> Edge(g, p, r) && (p < q || (p == q && r in g[p][..if k <= |g[p]| then k else 0]))
  }

  lemma NoneReversed(g: Graph, rev: Graph)
    requires Fits(g) && |rev| == |g| && forall q :: 0 <= q < |rev| ==> rev[q] == []
    ensures Reversed(g, rev, 0, 0)
  {}

  lemma ReversedWithin(g: Graph, rev: Graph, q: nat, k: nat)
    requires Reversed(g, rev, q, k) && q < |g| && k < |g[q]|
    ensures g[q][k] < |g| == |rev|
  {}

  lemma ReverseStep(g: Graph, rev: Graph, q: nat, k: nat)
    requires Reversed(g, rev, q, k) && q < |g| && k < |g[q]| && g[q][k] < |rev|
    ensures Reversed(g, rev[g[q][k] := [q] + rev[g[q][k]]], q, k + 1)
  {
    var r0 := g[q][k];
    var rev' := rev[r0 := [q] + rev[r0]];
    assert g[q][..k + 1] == g[q][..k] + [r0];
    forall p: nat, r: nat ensures Edge(rev', r, p) <==> Edge(rev, r, p) || (p == q && r == r0) {
      if r == r0 && r < |rev| { assert p in rev'[r] <==> p == q || p in rev[r]; }
    }
  }

  lemma ReversedState(g: Graph, rev: Graph, q: nat)
    requires q < |g| && Reversed(g, rev, q, |g[q]|)
    ensures Reversed(g, rev, q + 1, 0)
  {
    assert g[q][..|g[q]|] == g[q];
  }

  lemma AllReversed(g: Graph, rev: Graph)
    requires Reversed(g, rev, |g|, 0)
    ensures IsReverse(g, rev)
  {}

  lemma {:induction false} RouteBack(g: Graph, rev: Graph, s: seq<nat>) returns (s': seq<nat>)
    requires IsReverse(g, rev) && Route(g, s)
    ensures Route(rev, s') && |s'| == |s| && s'[0] == s[|s| - 1] && s'[|s| - 1] == s[0]
  {
    s' := seq(|s|, i requires 0 <= i < |s| => s[|s| - 1 - i]);
    if |s| > 1 { assert Edge(g, s[|s| - 2], s[|s| - 2 + 1]); }
    forall i | 0 <= i < |s| - 1 ensures Edge(rev, s'[i], s'[i + 1]) {
      assert Edge(g, s[|s| - 2 - i], s[|s| - 2 - i + 1]);
    }
  }

  lemma ReverseLeads(g: Graph, rev: Graph, q: nat, r: nat)
    requires IsReverse(g, rev)
    ensures Leads(rev, r, q) <==> Leads(g, q, r)
  {
    if Leads(g, q, r) {
      var s :| Route(g, s) && s[0] == q && s[|s| - 1] == r;
      var s' := RouteBack(g, rev, s);
    }
    if Leads(rev, r, q) {
      var s :| Route(rev, s) && s[0] == r && s[|s| - 1] == q;
      var s' := RouteBack(rev, g, s);
    }
  }

  // ----- depthFirstSearch -----

  ghost function Unvisited(v: seq<bool>): set<nat> {
    set q | 0 <= q < |v| && !v[q]
  }

  /** From v0 to v1, only states that `state` leads to were marked. */
  ghost predicate Marks(g: Graph, v0: seq<bool>, v1: seq<bool>, state: nat) {
    && |v0| == |v1| == |g|
    && (forall q :: 0 <= q < |g| && v0[q] ==> v1[q])
    && forall q :: 0 <= q < |g| && v1[q] && !v0[q] ==> Leads(g, state, q)
  }

  /** The states marked since v0, but for one, have their successors marked. */
  ghost predicate Closed(g: Graph, v0: seq<bool>, v1: seq<bool>, but: int)
    requires Fits(g) && |v0| == |v1| == |g|
  {
    forall q, k :: 0 <= q < |g| && v1[q] && !v0[q] && q != but && 0 <= k < |g[q]| ==> v1[g[q][k]]
  }

  method DfsRec(g: Graph, state: nat, vis: array<bool>)
    requires Fits(g) && vis.Length == |g| && state < |g|
    modifies vis
    ensures Marks(g, old(vis[..]), vis[..], state) && Closed(g, old(vis[..]), vis[..], -1) && vis[state]
    decreases Unvisited(vis[..])
  {
    if vis[state] { return; }
    ghost var v0 := vis[..];
    vis[state] := true;
    LeadsNowhere(g, state);
    assert vis[..] == v0[state := true];
    assert state in Unvisited(v0);
    for k := 0 to |g[state]|
      invariant Marks(g, v0, vis[..], state) && Closed(g, v0, vis[..], state) && vis[state]
      invariant forall j :: 0 <= j < k ==> vis[g[state][j]]
      invariant Unvisited(vis[..]) < Unvisited(v0)
    {
      ghost var v1 := vis[..];
      DfsRec(g, g[state][k], vis);
      Onward(g, v0, v1, vis[..], state, k);
    }
  }

  lemma Onward(g: Graph, v0: seq<bool>, v1: seq<bool>, v2: seq<bool>, state: nat, k: nat)
    requires Fits(g) && state < |g| && k < |g[state]|
    requires Marks(g, v0, v1, state) && Closed(g, v0, v1, state) && v1[state] && Unvisited(v1) < Unvisited(v0)
    requires Marks(g, v1, v2, g[state][k]) && Closed(g, v1, v2, -1)
    ensures Marks(g, v0, v2, state) && Closed(g, v0, v2, state) && Unvisited(v2) < Unvisited(v0)
  {
    forall q | 0 <= q < |g| && v2[q] && !v1[q] ensures Leads(g, state, q) {
      LeadsStep(g, state, g[state][k], q);
    }
    assert Unvisited(v2) <= Unvisited(v1);
  }

  /** The states marked are exactly those that the start leads to. */
  method DepthFirstSearch(g: Graph, start: nat) returns (visited: seq<bool>)
    requires Fits(g) && start < |g|
    ensures |visited| == |g| && forall q: nat :: q < |g| ==> (visited[q] <==> Leads(g, start, q))
  {
    var vis := new bool[|g|](_ => false);
    ghost var v0 := vis[..];
    DfsRec(g, start, vis);
    visited := vis[..];
    forall q: nat | q < |g| && Leads(g, start, q) ensures visited[q] {
      var s :| Route(g, s) && s[0] == start && s[|s| - 1] == q;
      ClosedHolds(g, visited, s);
    }
  }
}
