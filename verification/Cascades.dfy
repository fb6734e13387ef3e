/** cascade_parameters (carmel/src/cascade.h): tracks the original arcs behind a composition, so that weights can
  * be refreshed without composing again. */
module Cascades {
  import opened Transducer
  import opened Weights
  import opened Filter
  import opened Chains
  import opened Worklist
  import opened Reweighing
  import opened Pruning

  // ----- compress_chains -----

  ghost predicate GroupsUpTo(w: Wfst, n: nat) {
    forall q, k :: 0 <= q < |w.states| && 0 <= k < |w.states[q]| ==> w.states[q][k].group < n
  }

  lemma GroupsBelow(bk: Book, w: Wfst)
    requires !bk.trivial && Linked(bk, true, w)
    ensures GroupsUpTo(w, |bk.chains|)
  {
    forall q, k | 0 <= q < |w.states| && 0 <= k < |w.states[q]| ensures w.states[q][k].group < |bk.chains| {
      assert ArcLinked(bk, true, w.states[q][k]);
    }
  }

  lemma GroupsAt(w: Wfst, n: nat)
    requires GroupsUpTo(w, n)
    ensures forall q, k :: 0 <= q < |w.states| && 0 <= k < |w.states[q]| ==> w.states[q][k].group < n
  {}

  /** Some arc has group i. */
  ghost predicate InUse(w: Wfst, i: nat) {
    exists q, k :: 0 <= q < |w.states| && 0 <= k < |w.states[q]| && w.states[q][k].group == i
  }

  ghost predicate IsUnused(w: Wfst, remove: seq<bool>) {
    forall i :: 0 <= i < |remove| ==> (remove[i] <==> i != LOCKED_GROUP && !InUse(w, i))
  }

  /** find_used: locked arcs have the nil chain, which is not removed. */
  method FindUsed(w: Wfst, n: nat) returns (remove: seq<bool>)
    requires n > 0 && GroupsUpTo(w, n)
    ensures |remove| == n && IsUnused(w, remove)
  {
    remove := seq(n, i => i != LOCKED_GROUP);
    for q := 0 to |w.states|
      invariant |remove| == n
      invariant forall i :: 0 <= i < n ==> (remove[i] <==> i != LOCKED_GROUP && !InUse(w.(states := w.states[..q]), i))
    {
      var arcs := w.states[q];
      ghost var before := remove;
      for k := 0 to |arcs|
        invariant |remove| == n
        invariant forall i :: 0 <= i < n ==> (remove[i] <==> before[i] && forall j :: 0 <= j < k ==> arcs[j].group != i)
      {
        if arcs[k].group != LOCKED_GROUP {
          remove := remove[arcs[k].group := false];
        }
      }
      forall i: nat | i < n
        ensures InUse(w.(states := w.states[..q + 1]), i) <==> InUse(w.(states := w.states[..q]), i) || exists k :: 0 <= k < |arcs| && arcs[k].group == i
      {
        InUseSnoc(w, q, i);
      }
    }
    assert w.states[..|w.states|] == w.states;
  }

  lemma InUseSnoc(w: Wfst, q: nat, i: nat)
    requires q < |w.states|
    ensures InUse(w.(states := w.states[..q + 1]), i) <==>
      InUse(w.(states := w.states[..q]), i) || exists k :: 0 <= k < |w.states[q]| && w.states[q][k].group == i
  {
    var u, v := w.(states := w.states[..q]), w.(states := w.states[..q + 1]);
    if InUse(v, i) {
      var p, k :| 0 <= p < |v.states| && 0 <= k < |v.states[p]| && v.states[p][k].group == i;
      assert p < q ==> u.states[p][k].group == i;
    }
    if InUse(u, i) {
      var p, k :| 0 <= p < |u.states| && 0 <= k < |u.states[p]| && u.states[p][k].group == i;
      assert v.states[p][k].group == i;
    }
    if k :| 0 <= k < |w.states[q]| && w.states[q][k].group == i {
      assert v.states[q][k].group == i;
    }
  }

  ghost predicate RegroupedArcs(arcs: seq<Arc>, arcs': seq<Arc>, newIds: seq<int>) {
    && |arcs'| == |arcs|
    && forall k :: 0 <= k < |arcs| ==>
         && arcs'[k] == arcs[k].(group := arcs'[k].group)
         && arcs'[k].group == if arcs[k].group == LOCKED_GROUP || arcs[k].group >= |newIds| then arcs[k].group else newIds[arcs[k].group]
  }

  ghost predicate Regrouped(w: Wfst, w': Wfst, newIds: seq<int>) {
    && w' == w.(states := w'.states) && |w'.states| == |w.states|
    && forall q :: 0 <= q < |w.states| ==> RegroupedArcs(w.states[q], w'.states[q], newIds)
  }

  method RewriteArcs(arcs: seq<Arc>, newIds: seq<int>) returns (arcs': seq<Arc>)
    requires forall k :: 0 <= k < |arcs| ==> arcs[k].group < |newIds|
    requires forall k :: 0 <= k < |arcs| && arcs[k].group != LOCKED_GROUP ==> newIds[arcs[k].group] >= 0
    ensures RegroupedArcs(arcs, arcs', newIds)
  {
    arcs' := arcs;
    for k := 0 to |arcs|
      invariant |arcs'| == |arcs| && arcs'[k..] == arcs[k..] && RegroupedArcs(arcs[..k], arcs'[..k], newIds)
    {
      assert arcs'[k] == arcs'[k..][0] == arcs[k];
      if arcs[k].group != LOCKED_GROUP {
        arcs' := arcs'[k := arcs[k].(group := newIds[arcs[k].group])];
      }
    }
    assert arcs[..|arcs|] == arcs && arcs'[..|arcs|] == arcs';
  }

  /** The arcs' groups are all kept. */
  lemma UsedAreKept(w: Wfst, remove: seq<bool>, newIds: seq<int>)
    requires GroupsUpTo(w, |remove|) && IsUnused(w, remove) && IsTable(remove, newIds)
    ensures |newIds| == |remove|
    ensures forall q, k :: 0 <= q < |w.states| && 0 <= k < |w.states[q]| ==> w.states[q][k].group < |newIds|
    ensures forall q, k :: 0 <= q < |w.states| && 0 <= k < |w.states[q]| ==> newIds[w.states[q][k].group] >= 0
  {
    forall q, k | 0 <= q < |w.states| && 0 <= k < |w.states[q]| ensures newIds[w.states[q][k].group] >= 0 {
      assert InUse(w, w.states[q][k].group);
    }
  }

  lemma Compressed(w: Wfst, w': Wfst, chains: seq<seq<nat>>, chains': seq<seq<nat>>, remove: seq<bool>, newIds: seq<int>)
    requires |chains| == |remove| > 0 && GroupsUpTo(w, |chains|) && IsUnused(w, remove) && IsTable(remove, newIds)
    requires Regrouped(w, w', newIds) && |chains'| == KeptBefore(remove, |remove|)
    requires forall j :: 0 <= j < |chains| && newIds[j] != REMOVED ==> 0 <= newIds[j] < |chains'| && chains'[newIds[j]] == chains[j]
    ensures Alike(chains', w', chains, w)
    ensures |chains'| > 0 && chains'[0] == chains[0] && forall i :: 0 <= i < |chains'| ==> chains'[i] in chains
    ensures forall i :: 0 < i < |chains'| ==> InUse(w', i)
  {
    UsedAreKept(w, remove, newIds);
    KeptStep(remove, 0);
    assert newIds[0] == 0;
    forall q, k | 0 <= q < |w.states| && 0 <= k < |w.states[q]| ensures AlikeArc(chains', w'.states[q][k], chains, w.states[q][k]) {
      assert RegroupedArcs(w.states[q], w'.states[q], newIds);
    }
    forall i | 0 <= i < |chains'| ensures chains'[i] in chains && (i > 0 ==> InUse(w', i)) {
      var j := KeptHit(remove, |remove|, i);
      assert newIds[j] == i;
      if i > 0 {
        var q, k :| 0 <= q < |w.states| && 0 <= k < |w.states[q]| && w.states[q][k].group == j;
        assert RegroupedArcs(w.states[q], w'.states[q], newIds) && w'.states[q][k].group == i;
      }
    }
  }

  class Cascade {
    const trivial: bool
    /** The arcs of the transducers of the cascade, by identity. */
    var cells: map<nat, Cell>
    var chains: seq<seq<nat>>
    var epsilonChains: map<nat, nat>
    var isChain0: bool
    var isChain1: bool
    /** The composed transducer, and the product over each chain when it was last computed. */
    var composed: Wfst
    var chainWeights: seq<real>

    ghost function Snapshot(): Book
      reads this
    {
      Book(trivial, isChain0, isChain1, cells, chains)
    }

    ghost predicate ChainOk(chain: seq<nat>)
      reads this
    {
      forall x :: x in chain ==> x in cells && !LockedOne(cells, x)
    }

    ghost predicate Valid()
      reads this
    {
      !trivial ==>
        && |chains| > 0 && chains[0] == []
        && (forall i :: 0 <= i < |chains| ==> ChainOk(chains[i]))
        && (forall x :: x in epsilonChains ==>
              epsilonChains[x] < |chains| && chains[epsilonChains[x]] == if LockedOne(cells, x) then [] else [x])
    }

    constructor (rememberCascade: bool)
      ensures Valid() && trivial == !rememberCascade
      ensures cells == map[] && epsilonChains == map[]
      ensures chains == if rememberCascade then [[]] else []
      ensures !isChain0 && !isChain1
    {
      trivial := !rememberCascade;
      cells, epsilonChains, isChain0, isChain1 := map[], map[], false, false;
      chains := if rememberCascade then [[]] else [];
      composed, chainWeights := Wfst([], 0, [], []), [];
    }

    method PrepareCompose(firstChain: bool, secondChain: bool)
      requires Valid()
      modifies this`isChain0, this`isChain1
      ensures Valid() && isChain0 == firstChain && isChain1 == secondChain
    {
      isChain0, isChain1 := firstChain, secondChain;
    }

    method Cons(addr: nat, cdr: seq<nat>) returns (r: seq<nat>)
      ensures r == if LockedOne(cells, addr) then cdr else [addr] + cdr
    {
      if LockedOne(cells, addr) { return cdr; }
      return [addr] + cdr;
    }

    /** Both operands are chains: the arcs of the first are put in front of the second one by one. */
    method ConsAll(x: seq<nat>, y: seq<nat>) returns (r: seq<nat>)
      requires ChainOk(x)
      ensures r == Reverse(x) + y
    {
      r := y;
      for k := 0 to |x|
        invariant Reverse(x[k..]) + r == Reverse(x) + y
      {
        assert x[k..][1..] == x[k + 1..] && x[k..][0] == x[k];
        assert x[k] in x;
        r := Cons(x[k], r);
      }
    }

    method ConsChain(a: Arc, b: Arc) returns (r: seq<nat>)
      requires Valid() && !trivial
      requires ArcLinked(Snapshot(), isChain0, a) && ArcLinked(Snapshot(), isChain1, b)
      ensures r == Joined(isChain0, isChain1, Operand(Snapshot(), isChain0, a), Operand(Snapshot(), isChain1, b))
      ensures ChainOk(r)
    {
      if isChain0 {
        if isChain1 {
          r := ConsAll(chains[a.group], chains[b.group]);
          ReverseMembers(chains[a.group]);
        } else {
          r := Cons(b.addr, chains[a.group]);
        }
      } else {
        if isChain1 {
          r := Cons(a.addr, chains[b.group]);
        } else {
          var cdr := Cons(b.addr, []);
          r := Cons(a.addr, cdr);
        }
      }
    }

    /** The chain id of an arc that composition takes alone. */
    method RecordEps(e: Arc, chain: bool) returns (id: nat)
      requires Valid() && (trivial || ArcLinked(Snapshot(), chain, e))
      modifies this`chains, this`epsilonChains
      ensures Valid() && Extends(old(Snapshot()), Snapshot())
      ensures trivial ==> id == e.group && chains == old(chains)
      ensures !trivial ==> id < |chains| && chains[id] == Operand(old(Snapshot()), chain, e)
    {
      if trivial { return e.group; }
      if chain { return if e.group == LOCKED_GROUP && e.weight == 1.0 then 0 else e.group; }
      if e.addr in epsilonChains { return epsilonChains[e.addr]; }
      id := |chains|;
      epsilonChains := epsilonChains[e.addr := id];
      var v := Cons(e.addr, []);
      if v == [] {
        epsilonChains := epsilonChains[e.addr := 0];
        return 0;
      }
      chains := chains + [v];
    }

    method Record1(e: Arc) returns (id: nat)
      requires Valid() && (trivial || ArcLinked(Snapshot(), isChain0, e))
      modifies this`chains, this`epsilonChains
      ensures Valid() && Extends(old(Snapshot()), Snapshot())
      ensures trivial ==> id == e.group
      ensures !trivial ==> id < |chains| && chains[id] == Operand(old(Snapshot()), isChain0, e)
    {
      id := RecordEps(e, isChain0);
    }

    method Record2(e: Arc) returns (id: nat)
      requires Valid() && (trivial || ArcLinked(Snapshot(), isChain1, e))
      modifies this`chains, this`epsilonChains
      ensures Valid() && Extends(old(Snapshot()), Snapshot())
      ensures trivial ==> id == e.group
      ensures !trivial ==> id < |chains| && chains[id] == Operand(old(Snapshot()), isChain1, e)
    {
      id := RecordEps(e, isChain1);
    }

    /** The group of the arcs that join several filter finals: never changed by training. */
    method LockedOneGroup() returns (id: nat)
      requires Valid()
      ensures id == LOCKED_GROUP && (!trivial ==> id < |chains| && chains[id] == [])
    {
      id := if trivial then LOCKED_GROUP else 0;
    }

    /** The chain id of a matched pair of arcs. */
    method Record(a: Arc, b: Arc) returns (id: nat)
      requires Valid()
      requires trivial || (ArcLinked(Snapshot(), isChain0, a) && ArcLinked(Snapshot(), isChain1, b))
      modifies this`chains
      ensures Valid() && Extends(old(Snapshot()), Snapshot())
      ensures trivial ==> id == NO_GROUP
      ensures !trivial ==> id < |chains|
      ensures !trivial ==> var bk := old(Snapshot());
        chains[id] == Joined(isChain0, isChain1, Operand(bk, isChain0, a), Operand(bk, isChain1, b))
    {
      if trivial { return NO_GROUP; }
      var v := ConsChain(a, b);
      if v == [] { return 0; }
      id := |chains|;
      chains := chains + [v];
    }

    /** The hash of single arcs is for one composition only. */
    method DoneComposing(w: Wfst, compressRemovedArcs: bool)
      requires Valid() && Linked(Snapshot(), true, w)
      modifies this`epsilonChains, this`composed, this`chains, this`chainWeights
      ensures Valid()
      ensures trivial || !compressRemovedArcs ==> composed == w && chains == old(chains)
      ensures !trivial ==> Alike(chains, composed, old(chains), w)
      ensures !trivial && compressRemovedArcs ==> forall i :: 0 < i < |chains| ==> InUse(composed, i)
    {
      hide Alike, InUse, ArcLinked;
      composed := w;
      if trivial { return; }
      epsilonChains := map[];
      AlikeItself(Snapshot(), w);
      if compressRemovedArcs {
        CompressChains();
      }
    }

    /** Chains that no composed arc has any more are dropped, but for the nil chain, and the others renumbered. */
    method CompressChains()
      requires Valid() && !trivial && Linked(Snapshot(), true, composed) && epsilonChains == map[]
      modifies this`chains, this`composed, this`chainWeights
      ensures Valid() && Alike(chains, composed, old(chains), old(composed))
      ensures forall i :: 0 < i < |chains| ==> InUse(composed, i)
    {
      hide Cascade.Valid, InUse, Alike, GroupsUpTo, IsUnused, IsTable, KeptBefore, Linked, Regrouped, LockedOne, NewIndex;
      GroupsBelow(Snapshot(), composed);
      ghost var w, chains0 := composed, chains;
      HasNil();
      var remove := FindUsed(composed, |chains|);
      var newIds, kept := NewIndices(remove);
      UsedAreKept(w, remove, newIds);
      RewriteStates(newIds);
      chains := DoMoves(remove, newIds, kept, chains);
      chainWeights := [];
      Compressed(w, composed, chains0, chains, remove, newIds);
      StillValid(chains0);
    }

    lemma HasNil()
      requires Valid() && !trivial
      ensures |chains| > 0 && chains[0] == [] && forall i, x :: 0 <= i < |chains| && x in chains[i] ==> x in cells && !LockedOne(cells, x)
    {
      forall i | 0 <= i < |chains| ensures ChainOk(chains[i]) {}
    }

    lemma StillValid(were: seq<seq<nat>>)
      requires |were| > 0 && |chains| > 0 && epsilonChains == map[] && chains[0] == were[0] == []
      requires forall i, x :: 0 <= i < |were| && x in were[i] ==> x in cells && !LockedOne(cells, x)
      requires forall i :: 0 <= i < |chains| ==> chains[i] in were
      ensures Valid()
    {}

    method RewriteStates(newIds: seq<int>)
      requires forall q, k :: 0 <= q < |composed.states| && 0 <= k < |composed.states[q]| ==> composed.states[q][k].group < |newIds|
      requires forall q, k :: 0 <= q < |composed.states| && 0 <= k < |composed.states[q]| && composed.states[q][k].group != LOCKED_GROUP ==>
        newIds[composed.states[q][k].group] >= 0
      modifies this`composed
      ensures Regrouped(old(composed), composed, newIds)
    {
      ghost var w := composed;
      for q := 0 to |composed.states|
        invariant composed == w.(states := composed.states) && |composed.states| == |w.states|
        invariant forall p :: 0 <= p < q ==> RegroupedArcs(w.states[p], composed.states[p], newIds)
        invariant forall p :: q <= p < |w.states| ==> composed.states[p] == w.states[p]
      {
        var arcs := RewriteArcs(composed.states[q], newIds);
        composed := composed.(states := composed.states[q := arcs]);
      }
    }

    // ----- new weights for composed arcs -----

    method AccumulateChain(chain: seq<nat>) returns (w: real)
      requires ChainOk(chain)
      ensures w == ChainWeight(cells, chain)
    {
      hide Mul, LockedOne;
      w := 1.0;
      MulUnit(ChainWeight(cells, chain));
      assert chain[0..] == chain;
      for k := 0 to |chain|
        invariant Mul(w, ChainWeight(cells, chain[k..])) == ChainWeight(cells, chain)
      {
        assert chain[k] in chain && chain[k..][1..] == chain[k + 1..];
        MulAssoc(w, cells[chain[k]].weight, ChainWeight(cells, chain[k + 1..]));
        w := Times(w, cells[chain[k]].weight);
      }
      assert chain[|chain|..] == [];
      MulUnit(w);
    }

    method CalculateChainWeights()
      requires Valid() && !trivial
      modifies this`chainWeights
      ensures |chainWeights| == |chains|
      ensures forall i :: 0 <= i < |chains| ==> chainWeights[i] == ChainWeight(cells, chains[i])
    {
      chainWeights := [];
      for i := 0 to |chains|
        invariant |chainWeights| == i
        invariant forall j :: 0 <= j < i ==> chainWeights[j] == ChainWeight(cells, chains[j])
      {
        var w := AccumulateChain(chains[i]);
        chainWeights := chainWeights + [w];
      }
    }

    ghost predicate Calculated()
      reads this
    {
      |chainWeights| == |chains| && forall i :: 0 <= i < |chains| ==> chainWeights[i] == ChainWeight(cells, chains[i])
    }

    method UpdateArcs(arcs: seq<Arc>) returns (arcs': seq<Arc>)
      requires Calculated() && !trivial && forall k :: 0 <= k < |arcs| ==> ArcLinked(Snapshot(), true, arcs[k])
      ensures arcs' == NewArcs(Snapshot(), cells, true, arcs)
    {
      hide ChainWeight;
      arcs' := arcs;
      for k := 0 to |arcs|
        invariant |arcs'| == |arcs| && arcs'[k..] == arcs[k..]
        invariant forall j :: 0 <= j < k ==> arcs'[j] == arcs[j].(weight := NewWeight(Snapshot(), cells, true, arcs[j]))
      {
        assert arcs'[k] == arcs'[k..][0] == arcs[k] && ArcLinked(Snapshot(), true, arcs[k]);
        arcs' := arcs'[k := arcs'[k].(weight := chainWeights[arcs'[k].group])];
      }
    }

    /** Every composed arc gets the product of the current weights over its chain. */
    method Update()
      requires Valid() && Linked(Snapshot(), true, composed)
      modifies this`composed, this`chainWeights
      ensures Valid()
      ensures trivial ==> composed == old(composed)
      ensures !trivial ==> composed == NewWfst(Snapshot(), cells, true, old(composed))
    {
      if trivial { return; }
      hide ChainWeight;
      CalculateChainWeights();
      ghost var w := composed;
      for q := 0 to |composed.states|
        invariant composed == w.(states := composed.states) && |composed.states| == |w.states| && Calculated()
        invariant forall p :: 0 <= p < q ==> composed.states[p] == NewArcs(Snapshot(), cells, true, w.states[p])
        invariant forall p :: q <= p < |w.states| ==> composed.states[p] == w.states[p]
      {
        assert forall k :: 0 <= k < |w.states[q]| ==> ArcLinked(Snapshot(), true, w.states[q][k]);
        var arcs := UpdateArcs(composed.states[q]);
        composed := composed.(states := composed.states[q := arcs]);
      }
      assert composed.states == NewWfst(Snapshot(), cells, true, w).states;
    }

    // ----- counts back to the original arcs -----

    method ClearCounts()
      modifies this`cells
      ensures cells.Keys == old(cells).Keys
      ensures forall x :: x in cells ==> cells[x] == if old(cells)[x].locked then old(cells)[x] else Cell(0.0, false)
    {
      cells := map x | x in cells :: if cells[x].locked then cells[x] else Cell(0.0, false);
    }

    /** Give `counts` to every unlocked arc of a chain, as often as it occurs there. */
    method DistributeChainCounts(chain: seq<nat>, counts: real)
      requires forall x :: x in chain ==> x in cells
      modifies this`cells
      ensures cells.Keys == old(cells).Keys
      ensures forall x :: x in cells ==> cells[x] == AddedTo(old(cells)[x], ChainCount(chain, counts, x))
    {
      for k := 0 to |chain|
        invariant cells.Keys == old(cells).Keys
        invariant forall x :: x in cells ==> cells[x] == AddedTo(old(cells)[x], ChainCount(chain[..k], counts, x))
      {
        var p := chain[k];
        assert p in chain && chain[..k + 1][..k] == chain[..k];
        if !cells[p].locked {
          cells := cells[p := Cell(cells[p].weight + counts, false)];
        }
      }
      assert chain[..|chain|] == chain;
    }

    method DistributeArcCounts(arcs: seq<Arc>)
      requires !trivial && forall k :: 0 <= k < |arcs| ==> arcs[k].group < |chains|
      requires forall i, x :: 0 <= i < |chains| && x in chains[i] ==> x in cells
      modifies this`cells
      ensures cells.Keys == old(cells).Keys
      ensures forall x :: x in cells ==> cells[x] == AddedTo(old(cells)[x], ArcsCount(chains, arcs, x))
    {
      for k := 0 to |arcs|
        invariant cells.Keys == old(cells).Keys
        invariant forall x :: x in cells ==> cells[x] == AddedTo(old(cells)[x], ArcsCount(chains, arcs[..k], x))
      {
        assert arcs[..k + 1][..k] == arcs[..k];
        DistributeChainCounts(chains[arcs[k].group], arcs[k].weight);
      }
      assert arcs[..|arcs|] == arcs;
    }

    lemma ChainsKnown()
      requires Valid() && !trivial
      ensures forall i, x :: 0 <= i < |chains| && x in chains[i] ==> x in cells
    {
      HasNil();
    }

    /** The weights of the composed arcs are counts: each unlocked original gets the sum of them, times its
      * multiplicity in their chains; a locked one keeps its weight. */
    method DistributeCounts()
      requires Valid() && Linked(Snapshot(), true, composed)
      modifies this`cells
      ensures trivial ==> cells == old(cells)
      ensures !trivial ==> Retrained(old(cells), cells)
      ensures !trivial ==> forall x :: x in cells && !cells[x].locked ==>
        cells[x].weight == StatesCount(chains, composed.states, x)
      ensures !trivial && (forall q, k :: 0 <= q < |composed.states| && 0 <= k < |composed.states[q]| ==> composed.states[q][k].weight == 0.0) ==>
        forall x :: x in cells && !cells[x].locked ==> cells[x].weight == 0.0
    {
      hide Cascade.Valid, Linked, ArcsCount, LockedOne, GroupsUpTo, ChainCount;
      if trivial { return; }
      ChainsKnown();
      GroupsBelow(Snapshot(), composed);
      GroupsAt(composed, |chains|);
      ClearCounts();
      ghost var cleared := cells;
      for q := 0 to |composed.states|
        invariant cells.Keys == cleared.Keys
        invariant forall x :: x in cells ==> cells[x] == AddedTo(cleared[x], StatesCount(chains, composed.states[..q], x))
      {
        assert composed.states[..q + 1][..q] == composed.states[..q];
        DistributeArcCounts(composed.states[q]);
      }
      assert composed.states[..|composed.states|] == composed.states;
      if forall q, k :: 0 <= q < |composed.states| && 0 <= k < |composed.states[q]| ==> composed.states[q][k].weight == 0.0 {
        forall x ensures StatesCount(chains, composed.states, x) == 0.0 { NothingCounted(chains, composed.states, x); }
      }
    }
  }

  /** Two runs that differ in the count of one arc: every unlocked original differs by that, times its multiplicity in the
    * arc's chain.  With no counts at all giving 0, this says what every original gets. */
  method DistributeMore(one: Cascade, more: Cascade, ghost q: nat, ghost k: nat, ghost d: real)
    requires one != more && one.Valid() && more.Valid() && !one.trivial && !more.trivial
    requires Linked(one.Snapshot(), true, one.composed) && Linked(more.Snapshot(), true, more.composed)
    requires more.cells == one.cells && more.chains == one.chains && q < |one.composed.states| && k < |one.composed.states[q]|
    requires more.composed.states == one.composed.states[q := one.composed.states[q][k := WithMore(one.composed.states[q][k], d)]]
    modifies one`cells, more`cells
    ensures one.cells.Keys == more.cells.Keys == old(one.cells).Keys && one.composed.states[q][k].group < |one.chains|
    ensures forall x :: x in one.cells && !one.cells[x].locked ==>
      more.cells[x].weight == one.cells[x].weight + Mul(multiset(one.chains[one.composed.states[q][k].group])[x] as real, d)
  {
    hide Cascade.Valid, Linked, Mul, StatesCount, GroupsUpTo;
    GroupsBelow(one.Snapshot(), one.composed);
    GroupsAt(one.composed, |one.chains|);
    one.DistributeCounts();
    more.DistributeCounts();
    forall x ensures StatesCount(one.chains, more.composed.states, x)
      == StatesCount(one.chains, one.composed.states, x) + Mul(multiset(one.chains[one.composed.states[q][k].group])[x] as real, d)
    {
      OneCountsMore(one.chains, one.composed.states, q, k, d, x);
    }
  }
}
