/** reduce and removeMarkedStates (carmel/src/fst.cc).  What the depth-first searches mark is taken as given, by what it is. */
module Reducing {
  import opened Weights
  import opened Transducer
  import opened GraphSearch
  import opened Pruning
  import opened Trimming

  /** What is left: nothing, if the start or the final state went. */
  datatype Remains = Nothing | Left(w: Wfst)

  // ----- removeMarkedStates -----

  ghost function DestMask(arcs: seq<Arc>, t: seq<int>): (r: seq<bool>)
    ensures |r| == |arcs|
  {
    if |arcs| == 0 then [] else
    var last := arcs[|arcs| - 1];
    DestMask(arcs[..|arcs| - 1], t) + [last.dest < |t| && t[last.dest] >= 0]
  }

  lemma {:induction false} DestMaskAt(arcs: seq<Arc>, t: seq<int>, k: nat)
    requires k < |arcs|
    ensures DestMask(arcs, t)[k] <==> arcs[k].dest < |t| && t[arcs[k].dest] >= 0
    decreases |arcs|
  {
    if k < |arcs| - 1 { DestMaskAt(arcs[..|arcs| - 1], t, k); }
  }

  /** renumberDestinations: arcs into states that went are erased. */
  method RenumberDestinations(arcs: seq<Arc>, t: seq<int>) returns (arcs': seq<Arc>)
    requires forall k :: 0 <= k < |arcs| ==> arcs[k].dest < |t|
    requires forall q :: 0 <= q < |t| ==> t[q] >= REMOVED
    ensures arcs' == Filtered(arcs, DestMask(arcs, t), t)
  {
    arcs' := [];
    for k := 0 to |arcs|
      invariant arcs' == Filtered(arcs[..k], DestMask(arcs[..k], t), t)
    {
      assert arcs[..k + 1][..k] == arcs[..k];
      var dest := t[arcs[k].dest];
      if dest != REMOVED {
        arcs' := arcs' + [arcs[k].(dest := dest)];
      }
    }
    assert arcs[..|arcs|] == arcs;
  }

  /** While swapping: the states before i that stay are in place. */
  ghost predicate Swapping(states: seq<seq<Arc>>, marked: seq<bool>, s: seq<seq<Arc>>, to: nat, i: nat) {
    && to <= i <= |s| == |states| == |marked| && KeptBefore(marked, i) == to
    && (forall k :: 0 <= k < i && !marked[k] ==> KeptBefore(marked, k) < to && s[KeptBefore(marked, k)] == states[k])
    && (forall k :: i <= k < |s| ==> s[k] == states[k])
  }

  /** remove_marked_swap */
  method RemoveMarkedSwap(states: seq<seq<Arc>>, marked: seq<bool>) returns (s: seq<seq<Arc>>)
    requires |states| == |marked|
    ensures |s| == KeptBefore(marked, |marked|)
    ensures forall k :: 0 <= k < |states| && !marked[k] ==> KeptBefore(marked, k) < |s| && s[KeptBefore(marked, k)] == states[k]
  {
    hide KeptBefore, Swapping;
    s := states;
    var i := 0;
    SwapStarts(states, marked);
    while i < |s| && !marked[i]
      invariant i <= |s| == |states| && Swapping(states, marked, s, i, i)
    {
      SwapSteps(states, marked, s, i, i);
      i := i + 1;
    }
    var to := i;
    while i < |s|
      invariant to <= i <= |s| == |states| && Swapping(states, marked, s, to, i)
    {
      SwapSteps(states, marked, s, to, i);
      if !marked[i] {
        s := s[to := s[i]][i := s[to]];
        to, i := to + 1, i + 1;
      } else {
        i := i + 1;
      }
    }
    SwapEnds(states, marked, s, to);
    s := s[..to];
  }

  lemma SwapStarts(states: seq<seq<Arc>>, marked: seq<bool>)
    requires |states| == |marked|
    ensures Swapping(states, marked, states, 0, 0)
  {}

  lemma SwapSteps(states: seq<seq<Arc>>, marked: seq<bool>, s: seq<seq<Arc>>, to: nat, i: nat)
    requires Swapping(states, marked, s, to, i) && i < |s|
    ensures marked[i] ==> Swapping(states, marked, s, to, i + 1)
    ensures !marked[i] ==> to <= i && Swapping(states, marked, s[to := s[i]][i := s[to]], to + 1, i + 1)
    ensures !marked[i] && to == i ==> s[to := s[i]][i := s[to]] == s
  {
    hide KeptBefore;
    KeptStep(marked, i);
  }

  lemma SwapEnds(states: seq<seq<Arc>>, marked: seq<bool>, s: seq<seq<Arc>>, to: nat)
    requires Swapping(states, marked, s, to, |s|)
    ensures to <= |s| && to == KeptBefore(marked, |marked|)
    ensures forall k :: 0 <= k < |states| && !marked[k] ==> KeptBefore(marked, k) < to && s[..to][KeptBefore(marked, k)] == states[k]
  {
    hide KeptBefore;
  }

  /** The states that are not marked, and their arcs to such states. */
  ghost predicate Without(states: seq<seq<Arc>>, t: seq<int>, states': seq<seq<Arc>>) {
    |t| == |states| && forall q :: 0 <= q < |states| && t[q] >= 0 ==>
      t[q] < |states'| && states'[t[q]] == Filtered(states[q], DestMask(states[q], t), t)
  }

  method RemoveMarkedStates(states: seq<seq<Arc>>, final: nat, marked: seq<bool>) returns (states': seq<seq<Arc>>, final': int, ghost t: seq<int>)
    requires |states| == |marked| && final < |states|
    requires forall q, k :: 0 <= q < |states| && 0 <= k < |states[q]| ==> states[q][k].dest < |states|
    ensures IsTable(marked, t) && |states'| == KeptBefore(marked, |marked|) && Without(states, t, states') && final' == t[final]
  {
    var oldToNew, kept := NewIndices(marked);
    t := oldToNew;
    if kept != |states| {
      states' := RemoveMarkedSwap(states, marked);
      states' := RenumberAll(states, marked, states', oldToNew);
      final' := oldToNew[final];
    } else {
      NothingMarked(states, marked, t);
      states', final' := states, final;
    }
  }

  method RenumberAll(states: seq<seq<Arc>>, marked: seq<bool>, s: seq<seq<Arc>>, t: seq<int>) returns (s': seq<seq<Arc>>)
    requires |states| == |marked| && IsTable(marked, t) && |s| == KeptBefore(marked, |marked|)
    requires forall k :: 0 <= k < |states| && !marked[k] ==> KeptBefore(marked, k) < |s| && s[KeptBefore(marked, k)] == states[k]
    requires forall q, k :: 0 <= q < |states| && 0 <= k < |states[q]| ==> states[q][k].dest < |states|
    ensures |s'| == |s| && Without(states, t, s')
  {
    hide KeptBefore, Filtered, DestMask;
    s' := s;
    for i := 0 to |s|
      invariant |s'| == |s|
      invariant forall k :: 0 <= k < i ==> s'[k] == Filtered(s[k], DestMask(s[k], t), t)
      invariant forall k :: i <= k < |s| ==> s'[k] == s[k]
    {
      var q := KeptHit(marked, |marked|, i);
      assert forall j :: 0 <= j < |t| ==> t[j] == NewIndex(marked, j);
      var arcs := RenumberDestinations(s'[i], t);
      s' := s'[i := arcs];
    }
    forall q | 0 <= q < |states| && t[q] >= 0
      ensures t[q] < |s'| && s'[t[q]] == Filtered(states[q], DestMask(states[q], t), t)
    {
      assert t[q] == NewIndex(marked, q);
    }
  }

  lemma {:induction false} AllKept(marked: seq<bool>, n: nat)
    requires n <= |marked| && KeptBefore(marked, n) == n
    ensures forall k :: 0 <= k < n ==> !marked[k] && KeptBefore(marked, k) == k
    decreases n
  {
    if n > 0 {
      KeptGrows(marked, 0, n - 1);
      AllKept(marked, n - 1);
    }
  }

  lemma {:induction false} FilteredWhole(arcs: seq<Arc>, t: seq<int>)
    requires forall k :: 0 <= k < |arcs| ==> arcs[k].dest < |t|
    requires forall q :: 0 <= q < |t| ==> t[q] == q
    ensures Filtered(arcs, DestMask(arcs, t), t) == arcs
  {
    if |arcs| > 0 {
      FilteredWhole(arcs[..|arcs| - 1], t);
    }
  }

  lemma NothingMarked(states: seq<seq<Arc>>, marked: seq<bool>, t: seq<int>)
    requires |states| == |marked| && IsTable(marked, t) && KeptBefore(marked, |marked|) == |states|
    requires forall q, k :: 0 <= q < |states| && 0 <= k < |states[q]| ==> states[q][k].dest < |states|
    ensures Without(states, t, states) && forall q :: 0 <= q < |states| ==> t[q] == q
  {
    AllKept(marked, |marked|);
    forall q | 0 <= q < |t| ensures t[q] == q { assert t[q] == NewIndex(marked, q); }
    forall q | 0 <= q < |states| ensures Filtered(states[q], DestMask(states[q], t), t) == states[q] {
      FilteredWhole(states[q], t);
    }
  }

  // ----- reduce -----

  predicate EmptyLoop(arc: Arc, q: int) {
    arc.inp == EPSILON && arc.out == EPSILON && arc.dest == q
  }

  ghost function NoLoops(arcs: seq<Arc>, q: int): seq<Arc> {
    if |arcs| == 0 then [] else
    NoLoops(arcs[..|arcs| - 1], q) + if EmptyLoop(arcs[|arcs| - 1], q) then [] else [arcs[|arcs| - 1]]
  }

  /** remove_epsilons_to */
  method RemoveEpsilonsTo(arcs: seq<Arc>, q: nat) returns (arcs': seq<Arc>)
    ensures arcs' == NoLoops(arcs, q)
    ensures forall arc :: multiset(arcs')[arc] == (if arc.inp == EPSILON && arc.out == EPSILON && arc.dest == q then 0 else multiset(arcs)[arc])
  {
    arcs' := [];
    for k := 0 to |arcs|
      invariant arcs' == NoLoops(arcs[..k], q)
    {
      assert arcs[..k + 1][..k] == arcs[..k];
      if !EmptyLoop(arcs[k], q) {
        arcs' := arcs' + [arcs[k]];
      }
    }
    assert arcs[..|arcs|] == arcs;
    forall arc ensures multiset(arcs')[arc] == if arc.inp == EPSILON && arc.out == EPSILON && arc.dest == q then 0 else multiset(arcs)[arc] {
      LoopsCounted(arcs, q, arc);
    }
  }

  lemma {:induction false} LoopsCounted(arcs: seq<Arc>, q: nat, arc: Arc)
    ensures multiset(NoLoops(arcs, q))[arc] == if arc.inp == EPSILON && arc.out == EPSILON && arc.dest == q then 0 else multiset(arcs)[arc]
  {
    if |arcs| > 0 {
      var n := |arcs| - 1;
      LoopsCounted(arcs[..n], q, arc);
      assert arcs == arcs[..n] + [arcs[n]];
    }
  }

  /** Kept: arcs to states that stay, but for empty loops. */
  ghost function LoopMask(arcs: seq<Arc>, t: seq<int>, q: nat): (r: seq<bool>)
    ensures |r| == |arcs|
  {
    if |arcs| == 0 then [] else
    var last := arcs[|arcs| - 1];
    LoopMask(arcs[..|arcs| - 1], t, q) + [last.dest < |t| && t[last.dest] >= 0 && !EmptyLoop(last, q)]
  }

  lemma {:induction false} LoopMaskAt(arcs: seq<Arc>, t: seq<int>, q: nat, k: nat)
    requires k < |arcs|
    ensures LoopMask(arcs, t, q)[k] <==> arcs[k].dest < |t| && t[arcs[k].dest] >= 0 && !EmptyLoop(arcs[k], q)
    decreases |arcs|
  {
    if k < |arcs| - 1 { LoopMaskAt(arcs[..|arcs| - 1], t, q, k); }
  }

  lemma {:induction false} LoopsRemoved(arcs: seq<Arc>, t: seq<int>, q: nat)
    requires q < |t| && t[q] >= 0 && forall r :: 0 <= r < |t| && r != q ==> t[r] != t[q]
    ensures NoLoops(Filtered(arcs, DestMask(arcs, t), t), t[q]) == Filtered(arcs, LoopMask(arcs, t, q), t)
  {
    if |arcs| > 0 {
      var n := |arcs| - 1;
      var last := arcs[n];
      LoopsRemoved(arcs[..n], t, q);
      assert DestMask(arcs, t)[..n] == DestMask(arcs[..n], t) && LoopMask(arcs, t, q)[..n] == LoopMask(arcs[..n], t, q);
      var before := Filtered(arcs[..n], DestMask(arcs[..n], t), t);
      if last.dest < |t| && t[last.dest] >= 0 {
        NoLoopsSnoc(before, Moved(last, t), t[q]);
        assert EmptyLoop(Moved(last, t), t[q]) <==> EmptyLoop(last, q);
        assert Filtered(arcs, DestMask(arcs, t), t) == before + [Moved(last, t)];
      } else {
        assert Filtered(arcs, DestMask(arcs, t), t) == before;
      }
    }
  }

  lemma NoLoopsSnoc(arcs: seq<Arc>, arc: Arc, q: int)
    ensures NoLoops(arcs + [arc], q) == NoLoops(arcs, q) + if EmptyLoop(arc, q) then [] else [arc]
  {
    assert (arcs + [arc])[..|arcs|] == arcs;
  }

  // ----- which states and arcs are on accepting paths -----

  ghost predicate Reached(w: Wfst, q: nat)
    requires Valid(w)
  {
    exists p :: IsPath(w, 0, p) && End(w, 0, p) == q
  }

  ghost predicate ReachesFinal(w: Wfst, q: nat)
    requires Valid(w) && q < |w.states|
  {
    exists p :: IsPath(w, q, p) && End(w, q, p) == w.final
  }

  ghost predicate Useful(w: Wfst, q: nat)
    requires Valid(w) && q < |w.states|
  {
    Reached(w, q) && ReachesFinal(w, q)
  }

  lemma {:induction false} PathSnoc(w: Wfst, q: nat, p: seq<nat>, k: nat)
    requires Valid(w) && q < |w.states| && IsPath(w, q, p) && k < |w.states[End(w, q, p)]|
    ensures IsPath(w, q, p + [k]) && End(w, q, p + [k]) == w.states[End(w, q, p)][k].dest
    decreases |p|
  {
    if |p| == 0 {
      assert (p + [k])[1..] == [];
    } else {
      assert (p + [k])[1..] == p[1..] + [k];
      PathSnoc(w, w.states[q][p[0]].dest, p[1..], k);
    }
  }

  lemma StepReached(w: Wfst, q: nat, k: nat)
    requires Valid(w) && q < |w.states| && k < |w.states[q]| && Reached(w, q)
    ensures w.states[q][k].dest < |w.states| && Reached(w, w.states[q][k].dest)
  {
    assert ArcOk(w, w.states[q][k]);
    var p :| IsPath(w, 0, p) && End(w, 0, p) == q;
    PathSnoc(w, 0, p, k);
  }

  lemma StepReachesFinal(w: Wfst, q: nat, k: nat)
    requires Valid(w) && q < |w.states| && k < |w.states[q]| && w.states[q][k].dest < |w.states| && ReachesFinal(w, w.states[q][k].dest)
    ensures ReachesFinal(w, q)
  {
    var p :| IsPath(w, w.states[q][k].dest, p) && End(w, w.states[q][k].dest, p) == w.final;
    PathCons(w, q, k, p);
  }

  ghost predicate Succeeds(w: Wfst)
    requires Valid(w)
  {
    exists p :: Accepting(w, p)
  }

  lemma UsefulEnds(w: Wfst)
    requires Valid(w)
    ensures Useful(w, 0) <==> Succeeds(w)
    ensures Useful(w, w.final) <==> Succeeds(w)
    ensures !Succeeds(w) ==> forall q :: 0 <= q < |w.states| ==> !Useful(w, q)
  {
    assert IsPath(w, 0, []) && End(w, 0, []) == 0 && IsPath(w, w.final, []) && End(w, w.final, []) == w.final;
    if ReachesFinal(w, 0) {
      var p :| IsPath(w, 0, p) && End(w, 0, p) == w.final;
      assert Accepting(w, p);
    }
    if Reached(w, w.final) {
      var p :| IsPath(w, 0, p) && End(w, 0, p) == w.final;
      assert Accepting(w, p);
    }
    if Succeeds(w) {
      var p :| Accepting(w, p);
    }
    forall q: nat | q < |w.states| && Useful(w, q) ensures Succeeds(w) {
      var p :| IsPath(w, 0, p) && End(w, 0, p) == q;
      var r :| IsPath(w, q, r) && End(w, q, r) == w.final;
      PathJoin(w, 0, p, r);
      assert Accepting(w, p + r);
    }
  }

  lemma {:induction false} PathJoin(w: Wfst, q: nat, p: seq<nat>, r: seq<nat>)
    requires Valid(w) && q < |w.states| && IsPath(w, q, p) && IsPath(w, End(w, q, p), r)
    ensures IsPath(w, q, p + r) && End(w, q, p + r) == End(w, End(w, q, p), r)
    decreases |p|
  {
    if |p| == 0 {
      assert p + r == r;
    } else {
      assert (p + r)[1..] == p[1..] + r;
      PathJoin(w, w.states[q][p[0]].dest, p[1..], r);
    }
  }

  /** reduce keeps exactly the states on accepting paths, and their arcs to such states but for empty loops. */
  ghost predicate IsReduction(w: Wfst, t: seq<int>, mask: seq<seq<bool>>)
    requires Valid(w)
  {
    && |t| == |mask| == |w.states|
    && (forall q :: 0 <= q < |w.states| ==> (t[q] >= 0 <==> Useful(w, q)) && |mask[q]| == |w.states[q]|)
    && forall q, k :: 0 <= q < |w.states| && 0 <= k < |w.states[q]| ==>
         (mask[q][k] <==> ArcOk(w, w.states[q][k]) && Useful(w, w.states[q][k].dest) && !EmptyLoop(w.states[q][k], q))
  }

  /** The two searches, forward from the start and backward from the final state. */
  method Searches(w: Wfst) returns (visitedForward: seq<bool>, visitedBackward: seq<bool>)
    requires Valid(w)
    ensures |visitedForward| == |visitedBackward| == |w.states|
    ensures forall q: nat :: q < |w.states| ==> (visitedForward[q] <==> Reached(w, q)) && (visitedBackward[q] <==> ReachesFinal(w, q))
  {
    hide IsGraph, IsReverse, Fits, Leads;
    var g := MakeGraph(w);
    GraphFits(w, g);
    var rev := ReverseGraph(g);
    ReverseFits(g, rev);
    visitedForward := DepthFirstSearch(g, 0);
    visitedBackward := DepthFirstSearch(rev, w.final);
    forall q: nat | q < |w.states|
      ensures (Leads(g, 0, q) <==> Reached(w, q)) && (Leads(rev, w.final, q) <==> ReachesFinal(w, q))
    {
      ReverseLeads(g, rev, q, w.final);
      LeadsIsUse(w, g, q);
    }
  }

  lemma LeadsIsUse(w: Wfst, g: Graph, q: nat)
    requires Valid(w) && IsGraph(w, g) && q < |w.states|
    ensures (Leads(g, 0, q) <==> Reached(w, q)) && (Leads(g, q, w.final) <==> ReachesFinal(w, q))
  {
    hide IsGraph, Leads;
    if Reached(w, q) {
      var p :| IsPath(w, 0, p) && End(w, 0, p) == q;
      PathLeads(w, g, 0, p);
    }
    if Leads(g, 0, q) {
      var p := LeadsIsPath(w, g, 0, q);
    }
    if ReachesFinal(w, q) {
      var p :| IsPath(w, q, p) && End(w, q, p) == w.final;
      PathLeads(w, g, q, p);
    }
    if Leads(g, q, w.final) {
      var p := LeadsIsPath(w, g, q, w.final);
    }
  }

  method Reduce(w: Wfst) returns (r: Remains, ghost t: seq<int>, ghost mask: seq<seq<bool>>)
    requires Valid(w)
    ensures r.Left? <==> Succeeds(w)
    ensures r.Left? ==> Valid(r.w) && Trimmed(w, r.w, t, mask) && Starts(w, r.w, t) && IsReduction(w, t, mask)
    ensures r.Left? ==> OnlyLoopsErased(w, t, mask)
    ensures forall x, y :: Relates(w, x, y) <==> r.Left? && Relates(r.w, x, y)
  {
    r, t, mask := ReduceParts(w);
    hide *;
    if r.Left? {
      ErasedLoops(w, t, mask);
      forall x, y ensures Relates(w, x, y) <==> Relates(r.w, x, y) {
        ReductionKeepsStrings(w, r.w, t, mask, x, y);
      }
    } else {
      NothingRelated(w);
    }
  }

  method ReduceParts(w: Wfst) returns (r: Remains, ghost t: seq<int>, ghost mask: seq<seq<bool>>)
    requires Valid(w)
    ensures r.Left? <==> Succeeds(w)
    ensures r.Left? ==> Valid(r.w) && Trimmed(w, r.w, t, mask) && Starts(w, r.w, t) && IsReduction(w, t, mask)
  {
    var visitedForward, visitedBackward := Searches(w);
    var marked: seq<bool> := [];
    for i := 0 to |w.states|
      invariant |marked| == i && forall q :: 0 <= q < i ==> marked[q] == !(visitedForward[q] && visitedBackward[q])
    {
      marked := marked + [!(visitedForward[i] && visitedBackward[i])];
    }
    var states, final;
    DestsWithin(w);
    states, final, t := RemoveMarkedStates(w.states, w.final, marked);
    ghost var before := states;
    for i := 0 to |states|
      invariant |states| == |before|
      invariant forall q :: 0 <= q < i ==> states[q] == NoLoops(before[q], q)
      invariant forall q :: i <= q < |states| ==> states[q] == before[q]
    {
      var arcs := RemoveEpsilonsTo(states[i], i);
      states := states[i := arcs];
    }
    mask := Masks(w.states, t, 0);
    ReduceEnds(w, marked, t, mask, before, states, final);
    r := if 0 <= final && |states| > 0 then Left(Wfst(states, final, w.ins, w.outs)) else Nothing;
  }

  ghost function Masks(states: seq<seq<Arc>>, t: seq<int>, q: nat): (r: seq<seq<bool>>)
    ensures |r| == |states|
    ensures forall k :: 0 <= k < |r| ==> r[k] == LoopMask(states[k], t, q + k)
  {
    if |states| == 0 then [] else [LoopMask(states[0], t, q)] + Masks(states[1..], t, q + 1)
  }

  lemma DestsWithin(w: Wfst)
    requires Valid(w)
    ensures forall q, k :: 0 <= q < |w.states| && 0 <= k < |w.states[q]| ==> w.states[q][k].dest < |w.states|
  {
    forall q, k | 0 <= q < |w.states| && 0 <= k < |w.states[q]| ensures w.states[q][k].dest < |w.states| {
      assert ArcOk(w, w.states[q][k]);
    }
  }

  // ----- a table of states to keep -----

  ghost predicate Keeps(marked: seq<bool>, t: seq<int>, n: nat) {
    && |t| == |marked|
    && (forall q :: 0 <= q < |t| ==> (t[q] >= 0 <==> !marked[q]) && t[q] < n)
    && (forall q, r :: 0 <= q < r < |t| && t[q] >= 0 ==> t[q] != t[r])
    && (|t| > 0 && !marked[0] ==> t[0] == 0)
    && (forall m :: 0 <= m < n ==> Numbered(t, m))
  }

  lemma TableKeeps(marked: seq<bool>, t: seq<int>)
    requires IsTable(marked, t)
    ensures Keeps(marked, t, KeptBefore(marked, |marked|))
  {
    hide KeptBefore;
    assert forall q :: 0 <= q < |t| ==> t[q] == NewIndex(marked, q);
    forall q | 0 <= q < |t| ensures t[q] < KeptBefore(marked, |marked|) {
      KeptGrows(marked, q, |marked|);
    }
    forall q, r | 0 <= q < r < |t| && t[q] >= 0 ensures t[q] != t[r] {
      KeptGrows(marked, q, r);
    }
    if |t| > 0 { KeptStep(marked, 0); }
    forall m | 0 <= m < KeptBefore(marked, |marked|) ensures Numbered(t, m) {
      var q := KeptHit(marked, |marked|, m);
      assert t[q] == m;
    }
  }

  /** Filtered arcs are good arcs. */
  lemma FilteredOk(w: Wfst, w': Wfst, t: seq<int>, q: nat, mask: seq<bool>)
    requires Valid(w) && q < |w.states| && |mask| == |w.states[q]| && w'.ins == w.ins && w'.outs == w.outs
    requires forall r :: 0 <= r < |t| ==> t[r] < |w'.states|
    requires forall k :: 0 <= k < |mask| && mask[k] ==> w.states[q][k].dest < |t| && t[w.states[q][k].dest] >= 0
    ensures forall j :: 0 <= j < |Filtered(w.states[q], mask, t)| ==> ArcOk(w', Filtered(w.states[q], mask, t)[j])
  {
    forall j | 0 <= j < |Filtered(w.states[q], mask, t)| ensures ArcOk(w', Filtered(w.states[q], mask, t)[j]) {
      var k := RankHit(mask, j);
      FilteredAt(w.states[q], mask, t, k);
      assert ArcOk(w, w.states[q][k]);
    }
  }

  /** The states and arcs that are kept make a transducer. */
  lemma TrimmedIsValid(w: Wfst, w': Wfst, marked: seq<bool>, t: seq<int>, mask: seq<seq<bool>>)
    requires Valid(w) && |w.states| == |t| == |mask| && Keeps(marked, t, |w'.states|) && !marked[0] && !marked[w.final]
    requires w'.ins == w.ins && w'.outs == w.outs && w'.final == t[w.final]
    requires forall q :: 0 <= q < |t| ==> |mask[q]| == |w.states[q]|
    requires forall q, k :: 0 <= q < |t| && 0 <= k < |mask[q]| && mask[q][k] ==> w.states[q][k].dest < |t| && t[w.states[q][k].dest] >= 0
    requires forall q :: 0 <= q < |t| && t[q] >= 0 ==> w'.states[t[q]] == Filtered(w.states[q], mask[q], t)
    ensures Valid(w') && Trimmed(w, w', t, mask) && Starts(w, w', t)
  {
    hide Filtered, Count;
    forall m, j | 0 <= m < |w'.states| && 0 <= j < |w'.states[m]| ensures ArcOk(w', w'.states[m][j]) {
      assert Numbered(t, m);
      var q :| 0 <= q < |t| && t[q] == m;
      FilteredOk(w, w', t, q, mask[q]);
    }
    hide Keeps, ArcOk;
  }

  lemma ReduceEnds(w: Wfst, marked: seq<bool>, t: seq<int>, mask: seq<seq<bool>>, before: seq<seq<Arc>>, states: seq<seq<Arc>>, final: int)
    requires Valid(w) && |marked| == |w.states| && forall q: nat :: q < |marked| ==> (marked[q] <==> !Useful(w, q))
    requires IsTable(marked, t) && |before| == |states| == KeptBefore(marked, |marked|) && Without(w.states, t, before) && final == t[w.final]
    requires forall q :: 0 <= q < |states| ==> states[q] == NoLoops(before[q], q)
    requires |mask| == |w.states| && forall q :: 0 <= q < |mask| ==> mask[q] == LoopMask(w.states[q], t, q)
    ensures (0 <= final && |states| > 0) <==> Succeeds(w)
    ensures 0 <= final ==> var w' := Wfst(states, final, w.ins, w.outs);
      Valid(w') && Trimmed(w, w', t, mask) && Starts(w, w', t) && IsReduction(w, t, mask)
  {
    hide Useful, Filtered, KeptBefore, LoopMask, NoLoops, DestMask;
    TableKeeps(marked, t);
    UsefulEnds(w);
    forall q, k | 0 <= q < |w.states| && 0 <= k < |w.states[q]|
      ensures w.states[q][k].dest < |t| && (mask[q][k] <==> t[w.states[q][k].dest] >= 0 && !EmptyLoop(w.states[q][k], q))
    {
      LoopMaskAt(w.states[q], t, q, k);
      assert ArcOk(w, w.states[q][k]);
    }
    forall q | 0 <= q < |t| && t[q] >= 0 ensures states[t[q]] == Filtered(w.states[q], mask[q], t) {
      LoopsRemoved(w.states[q], t, q);
    }
    if 0 <= final {
      TrimmedIsValid(w, Wfst(states, final, w.ins, w.outs), marked, t, mask);
    }
  }

  // ----- the paths that reduce keeps -----

  ghost predicate NoEmptyLoops(w: Wfst, q: nat, p: seq<nat>)
    requires Valid(w) && q < |w.states| && IsPath(w, q, p)
    decreases |p|
  {
    |p| > 0 ==> !EmptyLoop(w.states[q][p[0]], q) && NoEmptyLoops(w, w.states[q][p[0]].dest, p[1..])
  }

  lemma {:induction false} UsefulPathKept(w: Wfst, t: seq<int>, mask: seq<seq<bool>>, q: nat, p: seq<nat>)
    requires Valid(w) && IsReduction(w, t, mask) && q < |w.states| && IsPath(w, q, p) && Reached(w, q) && End(w, q, p) == w.final
    ensures KeptPath(w, mask, q, p) <==> NoEmptyLoops(w, q, p)
    decreases |p|
  {
    if |p| > 0 {
      var arc := w.states[q][p[0]];
      StepReached(w, q, p[0]);
      assert ReachesFinal(w, arc.dest);
      assert ArcOk(w, arc);
      UsefulPathKept(w, t, mask, arc.dest, p[1..]);
    }
  }

  /** reduce keeps every accepting path without an empty loop, and nothing else that is accepting: with TrimmedPaths, one
    * to one, with its strings and its weight. */
  lemma ReductionKeepsPaths(w: Wfst, t: seq<int>, mask: seq<seq<bool>>, p: seq<nat>)
    requires Valid(w) && IsReduction(w, t, mask) && Accepting(w, p)
    ensures KeptAccepting(w, mask, p) <==> NoEmptyLoops(w, 0, p)
  {
    assert IsPath(w, 0, []) && End(w, 0, []) == 0;
    UsefulPathKept(w, t, mask, 0, p);
  }

  // ----- the strings that reduce keeps -----

  /** Some accepting path reads x and writes y. */
  ghost predicate Relates(w: Wfst, x: seq<string>, y: seq<string>)
    requires Valid(w)
  {
    exists p :: Accepting(w, p) && InputOf(w, 0, p) == x && OutputOf(w, 0, p) == y
  }

  /** Of the arcs between two states that stay, exactly those go that read and write nothing and lead back. */
  ghost predicate OnlyLoopsErased(w: Wfst, t: seq<int>, mask: seq<seq<bool>>)
    requires Valid(w)
  {
    && |t| == |mask| == |w.states| && (forall q :: 0 <= q < |mask| ==> |mask[q]| == |w.states[q]|)
    && forall q, k :: 0 <= q < |w.states| && 0 <= k < |w.states[q]| ==>
         var arc := w.states[q][k];
         t[q] >= 0 && arc.dest < |t| && t[arc.dest] >= 0 ==> (mask[q][k] <==> !(arc.inp == EPSILON && arc.out == EPSILON && arc.dest == q))
  }

  lemma ErasedLoops(w: Wfst, t: seq<int>, mask: seq<seq<bool>>)
    requires Valid(w) && IsReduction(w, t, mask)
    ensures OnlyLoopsErased(w, t, mask)
  {
    hide Useful;
    forall q, k | 0 <= q < |w.states| && 0 <= k < |w.states[q]| ensures ArcOk(w, w.states[q][k]) {}
  }

  /** The path without its empty loops. */
  lemma {:induction false} WithoutLoops(w: Wfst, q: nat, p: seq<nat>) returns (p': seq<nat>)
    requires Valid(w) && q < |w.states| && IsPath(w, q, p)
    ensures IsPath(w, q, p') && End(w, q, p') == End(w, q, p) && NoEmptyLoops(w, q, p')
    ensures InputOf(w, q, p') == InputOf(w, q, p) && OutputOf(w, q, p') == OutputOf(w, q, p)
    decreases |p|
  {
    if |p| == 0 {
      p' := p;
    } else {
      var arc := w.states[q][p[0]];
      p' := WithoutLoops(w, arc.dest, p[1..]);
      if !EmptyLoop(arc, q) {
        PathCons(w, q, p[0], p');
        LooplessCons(w, q, p[0], p');
        p' := [p[0]] + p';
      }
    }
  }

  lemma LooplessCons(w: Wfst, q: nat, k: nat, p: seq<nat>)
    requires Valid(w) && q < |w.states| && k < |w.states[q]| && !EmptyLoop(w.states[q][k], q)
    requires IsPath(w, w.states[q][k].dest, p) && NoEmptyLoops(w, w.states[q][k].dest, p)
    ensures IsPath(w, q, [k] + p) && NoEmptyLoops(w, q, [k] + p)
  {
    assert ([k] + p)[1..] == p;
  }

  lemma ReductionKeepsStrings(w: Wfst, w': Wfst, t: seq<int>, mask: seq<seq<bool>>, x: seq<string>, y: seq<string>)
    requires Valid(w) && Valid(w') && Trimmed(w, w', t, mask) && Starts(w, w', t) && IsReduction(w, t, mask)
    ensures Relates(w, x, y) <==> Relates(w', x, y)
  {
    TrimmedPaths(w, w', t, mask);
    hide Trimmed, Starts, IsReduction, KeptPath, NoEmptyLoops, IsPath, InputOf, OutputOf;
    if Relates(w, x, y) {
      var p :| Accepting(w, p) && InputOf(w, 0, p) == x && OutputOf(w, 0, p) == y;
      var p' := WithoutLoops(w, 0, p);
      ReductionKeepsPaths(w, t, mask, p');
      assert KeptAccepting(w, mask, p');
    }
    if Relates(w', x, y) {
      var p' :| Accepting(w', p') && InputOf(w', 0, p') == x && OutputOf(w', 0, p') == y;
      var p :| KeptAccepting(w, mask, p) && Image(w, mask, 0, p) == p';
      assert Accepting(w, p);
    }
  }

  lemma NothingRelated(w: Wfst)
    requires Valid(w) && !Succeeds(w)
    ensures forall x, y :: !Relates(w, x, y)
  {}
}
