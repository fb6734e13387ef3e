/** prunePaths without a limit on states (carmel/src/fst.cc): what is not on a path nearly as good as the best one goes. */
module PathPruning {
  import opened Weights
  import opened Transducer
  import opened Pruning
  import opened Trimming
  import opened Reducing

  /** Minus the logarithm of a weight; the cost of weight 0, and the distance of what cannot be reached, is infinite. */
  datatype Cost = Fin(v: real) | Inf

  function Plus(a: Cost, b: Cost): Cost {
    if a.Fin? && b.Fin? then Fin(a.v + b.v) else Inf
  }

  /** a > b, as for floating-point infinities: not if both are infinite. */
  predicate Above(a: Cost, b: Cost) {
    b.Fin? && (a.Inf? || a.v > b.v)
  }

  /** The costs of the arcs. */
  ghost predicate Costs(w: Wfst, c: seq<seq<Cost>>) {
    |c| == |w.states| && forall q :: 0 <= q < |c| ==> |c[q]| == |w.states[q]|
  }

  ghost function PathCost(w: Wfst, c: seq<seq<Cost>>, q: nat, p: seq<nat>): Cost
    requires Valid(w) && Costs(w, c) && q < |w.states| && IsPath(w, q, p)
    decreases |p|
  {
    if |p| == 0 then Fin(0.0) else Plus(c[q][p[0]], PathCost(w, c, w.states[q][p[0]].dest, p[1..]))
  }

  /** dist[q] is the cost of the cheapest path from the start to q. */
  ghost predicate FromStart(w: Wfst, c: seq<seq<Cost>>, q: nat, dist: Cost)
    requires Valid(w) && Costs(w, c)
  {
    && (forall p :: IsPath(w, 0, p) && End(w, 0, p) == q ==> !Above(dist, PathCost(w, c, 0, p)))
    && (dist.Fin? ==> exists p :: IsPath(w, 0, p) && End(w, 0, p) == q && PathCost(w, c, 0, p) == dist)
  }

  ghost predicate ToFinal(w: Wfst, c: seq<seq<Cost>>, q: nat, dist: Cost)
    requires Valid(w) && Costs(w, c) && q < |w.states|
  {
    && (forall p :: IsPath(w, q, p) && End(w, q, p) == w.final ==> !Above(dist, PathCost(w, c, q, p)))
    && (dist.Fin? ==> exists p :: IsPath(w, q, p) && End(w, q, p) == w.final && PathCost(w, c, q, p) == dist)
  }

  ghost predicate Distances(w: Wfst, c: seq<seq<Cost>>, forDist: seq<Cost>, revDist: seq<Cost>)
    requires Valid(w)
  {
    && Costs(w, c) && |forDist| == |revDist| == |w.states|
    && forall q: nat :: q < |w.states| ==> FromStart(w, c, q, forDist[q]) && ToFinal(w, c, q, revDist[q])
  }

  // ----- erasing arcs -----

  ghost function KeepBy(arcs: seq<Arc>, mask: seq<bool>): seq<Arc>
    requires |arcs| == |mask|
  {
    if |arcs| == 0 then [] else
    KeepBy(arcs[..|arcs| - 1], mask[..|arcs| - 1]) + if mask[|arcs| - 1] then [arcs[|arcs| - 1]] else []
  }

  ghost function BothMasks(arcs: seq<Arc>, mask: seq<bool>, t: seq<int>): (r: seq<bool>)
    requires |arcs| == |mask|
    ensures |r| == |arcs|
  {
    if |arcs| == 0 then [] else
    var last := arcs[|arcs| - 1];
    BothMasks(arcs[..|arcs| - 1], mask[..|arcs| - 1], t) + [mask[|arcs| - 1] && last.dest < |t| && t[last.dest] >= 0]
  }

  lemma {:induction false} BothMasksAt(arcs: seq<Arc>, mask: seq<bool>, t: seq<int>, k: nat)
    requires |arcs| == |mask| && k < |arcs|
    ensures BothMasks(arcs, mask, t)[k] <==> mask[k] && arcs[k].dest < |t| && t[arcs[k].dest] >= 0
    decreases |arcs|
  {
    if k < |arcs| - 1 { BothMasksAt(arcs[..|arcs| - 1], mask[..|arcs| - 1], t, k); }
  }

  lemma {:induction false} KeptThenFiltered(arcs: seq<Arc>, mask: seq<bool>, t: seq<int>)
    requires |arcs| == |mask|
    ensures Filtered(KeepBy(arcs, mask), DestMask(KeepBy(arcs, mask), t), t) == Filtered(arcs, BothMasks(arcs, mask, t), t)
  {
    hide DestMask;
    if |arcs| > 0 {
      var n := |arcs| - 1;
      KeptThenFiltered(arcs[..n], mask[..n], t);
      assert BothMasks(arcs, mask, t)[..n] == BothMasks(arcs[..n], mask[..n], t);
      assert Filtered(arcs, BothMasks(arcs, mask, t), t)
        == Filtered(arcs[..n], BothMasks(arcs[..n], mask[..n], t), t) + if BothMasks(arcs, mask, t)[n] then [Moved(arcs[n], t)] else [];
      BothMasksAt(arcs, mask, t, n);
      KeepSnoc(arcs, mask, t);
    }
  }

  lemma KeepSnoc(arcs: seq<Arc>, mask: seq<bool>, t: seq<int>)
    requires |arcs| == |mask| > 0
    ensures var n := |arcs| - 1; var arc := arcs[n]; var kept := KeepBy(arcs[..n], mask[..n]);
      Filtered(KeepBy(arcs, mask), DestMask(KeepBy(arcs, mask), t), t)
        == Filtered(kept, DestMask(kept, t), t) + if mask[n] && arc.dest < |t| && t[arc.dest] >= 0 then [Moved(arc, t)] else []
  {
    hide Filtered, DestMask;
    var n := |arcs| - 1;
    if mask[n] {
      FilteredSnoc(KeepBy(arcs[..n], mask[..n]), arcs[n], t);
    } else {
      assert KeepBy(arcs, mask) == KeepBy(arcs[..n], mask[..n]);
    }
  }

  lemma {:induction false} KeptAreArcs(arcs: seq<Arc>, mask: seq<bool>)
    requires |arcs| == |mask|
    ensures forall k :: 0 <= k < |KeepBy(arcs, mask)| ==> KeepBy(arcs, mask)[k] in arcs
  {
    if |arcs| > 0 { KeptAreArcs(arcs[..|arcs| - 1], mask[..|arcs| - 1]); }
  }

  lemma FilteredSnoc(arcs: seq<Arc>, arc: Arc, t: seq<int>)
    ensures Filtered(arcs + [arc], DestMask(arcs + [arc], t), t)
      == Filtered(arcs, DestMask(arcs, t), t) + if arc.dest < |t| && t[arc.dest] >= 0 then [Moved(arc, t)] else []
  {
    var more := arcs + [arc];
    assert more[..|arcs|] == arcs;
    assert DestMask(more, t)[..|arcs|] == DestMask(arcs, t);
  }

  /** The best path through the arc costs no more than `worst`. */
  ghost predicate ArcStays(w: Wfst, c: seq<seq<Cost>>, forDist: seq<Cost>, revDist: seq<Cost>, worst: Cost, q: nat, k: nat)
    requires Costs(w, c) && |forDist| == |revDist| == |w.states| && q < |w.states| && k < |w.states[q]| && w.states[q][k].dest < |w.states|
  {
    !Above(Plus(Plus(c[q][k], forDist[q]), revDist[w.states[q][k].dest]), worst)
  }

  /** The loop over a state's arcs. */
  method EraseArcs(w: Wfst, c: seq<seq<Cost>>, forDist: seq<Cost>, revDist: seq<Cost>, worst: Cost, q: nat)
    returns (arcs: seq<Arc>, ghost mask: seq<bool>)
    requires Valid(w) && Costs(w, c) && |forDist| == |revDist| == |w.states| && q < |w.states|
    requires forall k :: 0 <= k < |w.states[q]| ==> w.states[q][k].dest < |w.states|
    ensures |mask| == |w.states[q]| && arcs == KeepBy(w.states[q], mask)
    ensures forall k :: 0 <= k < |mask| ==> (mask[k] <==> ArcStays(w, c, forDist, revDist, worst, q, k))
  {
    arcs, mask := [], [];
    var all := w.states[q];
    for k := 0 to |all|
      invariant |mask| == k && arcs == KeepBy(all[..k], mask)
      invariant forall j :: 0 <= j < k ==> (mask[j] <==> ArcStays(w, c, forDist, revDist, worst, q, j))
    {
      var bestPathThisArc := Plus(Plus(c[q][k], forDist[q]), revDist[all[k].dest]);
      ghost var before := mask;
      if Above(bestPathThisArc, worst) {
        mask := mask + [false];
      } else {
        arcs := arcs + [all[k]];
        mask := mask + [true];
      }
      assert all[..k + 1][..k] == all[..k] && mask[..k] == before;
    }
    assert all[..|all|] == all;
  }

  ghost predicate StateStays(forDist: seq<Cost>, revDist: seq<Cost>, worst: Cost, q: nat)
    requires q < |forDist| == |revDist|
  {
    !Above(Plus(forDist[q], revDist[q]), worst)
  }

  ghost predicate IsPruning(w: Wfst, c: seq<seq<Cost>>, forDist: seq<Cost>, revDist: seq<Cost>, worst: Cost, t: seq<int>, mask: seq<seq<bool>>)
    requires Valid(w) && Costs(w, c) && |forDist| == |revDist| == |w.states|
  {
    && |t| == |mask| == |w.states|
    && (forall q :: 0 <= q < |w.states| ==> (t[q] >= 0 <==> StateStays(forDist, revDist, worst, q)) && |mask[q]| == |w.states[q]|)
    && forall q: nat, k: nat :: q < |w.states| && t[q] >= 0 && k < |w.states[q]| ==>
         (mask[q][k] <==> w.states[q][k].dest < |w.states| && ArcStays(w, c, forDist, revDist, worst, q, k) && t[w.states[q][k].dest] >= 0)
  }

  /** What the loop has made of state j. */
  ghost predicate StateDone(w: Wfst, c: seq<seq<Cost>>, forDist: seq<Cost>, revDist: seq<Cost>, worst: Cost, j: nat, removed: bool, arcs: seq<Arc>, mask: seq<bool>)
    requires Costs(w, c) && |forDist| == |revDist| == |w.states| && j < |w.states|
    requires forall k :: 0 <= k < |w.states[j]| ==> w.states[j][k].dest < |w.states|
  {
    && (removed <==> !StateStays(forDist, revDist, worst, j))
    && |mask| == |w.states[j]| && arcs == KeepBy(w.states[j], mask)
    && (!removed ==> forall k :: 0 <= k < |mask| ==> (mask[k] <==> ArcStays(w, c, forDist, revDist, worst, j, k)))
  }

  /** The loop over the states. */
  method MarkAndErase(w: Wfst, c: seq<seq<Cost>>, forDist: seq<Cost>, revDist: seq<Cost>, worst: Cost)
    returns (remove: seq<bool>, states: seq<seq<Arc>>, ghost kept: seq<seq<bool>>)
    requires Valid(w) && Costs(w, c) && |forDist| == |revDist| == |w.states|
    requires forall q, k :: 0 <= q < |w.states| && 0 <= k < |w.states[q]| ==> w.states[q][k].dest < |w.states|
    ensures |remove| == |states| == |kept| == |w.states|
    ensures forall j: nat :: j < |w.states| ==> StateDone(w, c, forDist, revDist, worst, j, remove[j], states[j], kept[j])
  {
    hide Valid, KeepBy, ArcStays, IsAlphabet;
    remove, states, kept := [], [], [];
    for q := 0 to |w.states|
      invariant |remove| == |states| == |kept| == q
      invariant forall j: nat :: j < q ==> StateDone(w, c, forDist, revDist, worst, j, remove[j], states[j], kept[j])
    {
      if Above(Plus(forDist[q], revDist[q]), worst) {
        WholeKept(w.states[q]);
        remove, states, kept := remove + [true], states + [w.states[q]], kept + [seq(|w.states[q]|, _ => true)];
      } else {
        var arcs;
        ghost var m;
        arcs, m := EraseArcs(w, c, forDist, revDist, worst, q);
        remove, states, kept := remove + [false], states + [arcs], kept + [m];
      }
    }
  }

  method PrunePaths(w: Wfst, c: seq<seq<Cost>>, forDist: seq<Cost>, revDist: seq<Cost>, ratio: real)
    returns (r: Remains, ghost t: seq<int>, ghost mask: seq<seq<bool>>)
    requires Valid(w) && Distances(w, c, forDist, revDist)
    ensures IsPruning(w, c, forDist, revDist, Plus(forDist[w.final], Fin(ratio)), t, mask)
    ensures r.Left? <==> StateStays(forDist, revDist, Plus(forDist[w.final], Fin(ratio)), 0)
    ensures r.Left? ==> Valid(r.w) && Trimmed(w, r.w, t, mask) && Starts(w, r.w, t)
  {
    hide *;
    DistancesShape(w, c, forDist, revDist);
    DestsWithin(w);
    var bestPath := forDist[w.final];
    var worstPath := Plus(bestPath, Fin(ratio));
    var remove, states;
    ghost var kept;
    remove, states, kept := MarkAndErase(w, c, forDist, revDist, worstPath);
    DoneParts(w, c, forDist, revDist, worstPath, remove, states, kept);
    KeptDests(w, states, kept);
    var states', final;
    states', final, t := RemoveMarkedStates(states, w.final, remove);
    mask := AllMasks(w.states, kept, t);
    PruneEnds(w, c, forDist, revDist, worstPath, remove, t, kept, mask, states, states', final);
    r := if 0 <= final && |states'| > 0 then Left(Wfst(states', final, w.ins, w.outs)) else Nothing;
  }

  lemma DoneParts(w: Wfst, c: seq<seq<Cost>>, forDist: seq<Cost>, revDist: seq<Cost>, worst: Cost, remove: seq<bool>, states: seq<seq<Arc>>, kept: seq<seq<bool>>)
    requires Costs(w, c) && |forDist| == |revDist| == |w.states| == |remove| == |states| == |kept|
    requires forall q, k :: 0 <= q < |w.states| && 0 <= k < |w.states[q]| ==> w.states[q][k].dest < |w.states|
    requires forall j: nat :: j < |w.states| ==> StateDone(w, c, forDist, revDist, worst, j, remove[j], states[j], kept[j])
    ensures forall j :: 0 <= j < |remove| ==> (remove[j] <==> !StateStays(forDist, revDist, worst, j))
    ensures forall j :: 0 <= j < |kept| ==> |kept[j]| == |w.states[j]| && states[j] == KeepBy(w.states[j], kept[j])
    ensures forall j, k :: 0 <= j < |kept| && !remove[j] && 0 <= k < |kept[j]| ==> (kept[j][k] <==> ArcStays(w, c, forDist, revDist, worst, j, k))
  {
    hide KeepBy, ArcStays, StateStays;
    forall j | 0 <= j < |remove|
      ensures remove[j] <==> !StateStays(forDist, revDist, worst, j)
      ensures |kept[j]| == |w.states[j]| && states[j] == KeepBy(w.states[j], kept[j])
      ensures !remove[j] ==> forall k :: 0 <= k < |kept[j]| ==> (kept[j][k] <==> ArcStays(w, c, forDist, revDist, worst, j, k))
    {
      assert StateDone(w, c, forDist, revDist, worst, j, remove[j], states[j], kept[j]);
    }
  }

  lemma DistancesShape(w: Wfst, c: seq<seq<Cost>>, forDist: seq<Cost>, revDist: seq<Cost>)
    requires Valid(w) && Distances(w, c, forDist, revDist)
    ensures Costs(w, c) && |forDist| == |revDist| == |w.states| > 0 && w.final < |w.states|
  {}

  lemma {:induction false} WholeKept(arcs: seq<Arc>)
    ensures KeepBy(arcs, seq(|arcs|, _ => true)) == arcs
  {
    if |arcs| > 0 {
      var n := |arcs| - 1;
      WholeKept(arcs[..n]);
      assert seq(|arcs|, _ => true)[..n] == seq(n, _ => true);
    }
  }

  lemma KeptDests(w: Wfst, states: seq<seq<Arc>>, kept: seq<seq<bool>>)
    requires Valid(w) && |states| == |kept| == |w.states|
    requires forall j :: 0 <= j < |kept| ==> |kept[j]| == |w.states[j]| && states[j] == KeepBy(w.states[j], kept[j])
    ensures forall q, k :: 0 <= q < |states| && 0 <= k < |states[q]| ==> states[q][k].dest < |states|
  {
    forall q, k | 0 <= q < |states| && 0 <= k < |states[q]| ensures states[q][k].dest < |states| {
      KeptAreArcs(w.states[q], kept[q]);
      var j :| 0 <= j < |w.states[q]| && w.states[q][j] == states[q][k];
      assert ArcOk(w, w.states[q][j]);
    }
  }

  ghost function AllMasks(states: seq<seq<Arc>>, kept: seq<seq<bool>>, t: seq<int>): (r: seq<seq<bool>>)
    requires |states| == |kept| && forall j :: 0 <= j < |kept| ==> |kept[j]| == |states[j]|
    ensures |r| == |states| && forall j :: 0 <= j < |r| ==> r[j] == BothMasks(states[j], kept[j], t)
  {
    if |states| == 0 then [] else [BothMasks(states[0], kept[0], t)] + AllMasks(states[1..], kept[1..], t)
  }

  lemma PruneEnds(w: Wfst, c: seq<seq<Cost>>, forDist: seq<Cost>, revDist: seq<Cost>, worst: Cost, marked: seq<bool>, t: seq<int>,
                  kept: seq<seq<bool>>, mask: seq<seq<bool>>, states: seq<seq<Arc>>, states': seq<seq<Arc>>, final: int)
    requires Valid(w) && Distances(w, c, forDist, revDist) && Costs(w, c)
    requires |marked| == |kept| == |mask| == |states| == |forDist| == |revDist| == |w.states|
    requires forall q: nat, k: nat :: q < |w.states| && k < |w.states[q]| ==> w.states[q][k].dest < |w.states|
    requires forall j :: 0 <= j < |marked| ==> (marked[j] <==> !StateStays(forDist, revDist, worst, j))
    requires forall j :: 0 <= j < |kept| ==> |kept[j]| == |w.states[j]| && states[j] == KeepBy(w.states[j], kept[j])
    requires forall j, k :: 0 <= j < |kept| && !marked[j] && 0 <= k < |kept[j]| ==> (kept[j][k] <==> ArcStays(w, c, forDist, revDist, worst, j, k))
    requires forall j :: 0 <= j < |mask| ==> mask[j] == BothMasks(w.states[j], kept[j], t)
    requires IsTable(marked, t) && |states'| == KeptBefore(marked, |marked|) && Without(states, t, states') && final == t[w.final]
    ensures IsPruning(w, c, forDist, revDist, worst, t, mask)
    ensures (0 <= final && |states'| > 0) <==> StateStays(forDist, revDist, worst, 0)
    ensures 0 <= final ==> var w' := Wfst(states', final, w.ins, w.outs); Valid(w') && Trimmed(w, w', t, mask) && Starts(w, w', t)
  {
    hide Filtered, KeptBefore, DestMask, KeepBy, BothMasks, StateStays, ArcStays, Distances;
    TableKeeps(marked, t);
    EndsStayTogether(w, c, forDist, revDist, worst);
    forall q: nat, k: nat | q < |w.states| && k < |w.states[q]|
      ensures mask[q][k] <==> kept[q][k] && t[w.states[q][k].dest] >= 0
    {
      BothMasksAt(w.states[q], kept[q], t, k);
    }
    forall q | 0 <= q < |t| && t[q] >= 0 ensures states'[t[q]] == Filtered(w.states[q], mask[q], t) {
      KeptThenFiltered(w.states[q], kept[q], t);
    }
    if 0 <= final {
      TrimmedIsValid(w, Wfst(states', final, w.ins, w.outs), marked, t, mask);
    }
  }

  // ----- what distances are like -----

  lemma OneArcCost(w: Wfst, c: seq<seq<Cost>>, q: nat, k: nat)
    requires Valid(w) && Costs(w, c) && q < |w.states| && k < |w.states[q]|
    ensures IsPath(w, q, [k]) && PathCost(w, c, q, [k]) == c[q][k] && PathCost(w, c, q, []) == Fin(0.0)
  {
    assert [k][1..] == [];
  }

  lemma {:induction false} JoinCost(w: Wfst, c: seq<seq<Cost>>, q: nat, p: seq<nat>, r: seq<nat>)
    requires Valid(w) && Costs(w, c) && q < |w.states| && IsPath(w, q, p) && IsPath(w, End(w, q, p), r)
    ensures IsPath(w, q, p + r) && End(w, q, p + r) == End(w, End(w, q, p), r)
    ensures PathCost(w, c, q, p + r) == Plus(PathCost(w, c, q, p), PathCost(w, c, End(w, q, p), r))
    decreases |p|
  {
    PathJoin(w, q, p, r);
    if |p| == 0 {
      assert p + r == r;
    } else {
      assert (p + r)[1..] == p[1..] + r;
      JoinCost(w, c, w.states[q][p[0]].dest, p[1..], r);
    }
  }

  /** Going nowhere costs nothing: were there a cheaper loop, going round it twice would be cheaper still. */
  lemma NowhereIsFree(w: Wfst, c: seq<seq<Cost>>, forDist: seq<Cost>, revDist: seq<Cost>)
    requires Valid(w) && Distances(w, c, forDist, revDist)
    ensures forDist[0] == Fin(0.0) && revDist[w.final] == Fin(0.0)
  {
    StartIsFree(w, c, forDist, revDist);
    FinalIsFree(w, c, forDist, revDist);
  }

  lemma StartIsFree(w: Wfst, c: seq<seq<Cost>>, forDist: seq<Cost>, revDist: seq<Cost>)
    requires Valid(w) && Distances(w, c, forDist, revDist)
    ensures |forDist| > 0 && forDist[0] == Fin(0.0)
  {
    hide *;
    DistancesShape(w, c, forDist, revDist);
    Stand(w, c, 0);
    NoNearerStart(w, c, forDist, revDist, []);
    NothingLess(forDist[0]);
    var p := NearestStart(w, c, forDist, revDist, 0);
    JoinCost(w, c, 0, p, p);
    NoNearerStart(w, c, forDist, revDist, p + p);
  }

  lemma FinalIsFree(w: Wfst, c: seq<seq<Cost>>, forDist: seq<Cost>, revDist: seq<Cost>)
    requires Valid(w) && Distances(w, c, forDist, revDist)
    ensures w.final < |revDist| && revDist[w.final] == Fin(0.0)
  {
    hide *;
    DistancesShape(w, c, forDist, revDist);
    Stand(w, c, w.final);
    NoNearerFinal(w, c, forDist, revDist, w.final, []);
    NothingLess(revDist[w.final]);
    var r := NearestFinal(w, c, forDist, revDist, w.final);
    JoinCost(w, c, w.final, r, r);
    NoNearerFinal(w, c, forDist, revDist, w.final, r + r);
  }

  lemma NothingLess(d: Cost)
    requires !Above(d, Fin(0.0))
    ensures d.Fin? && (!Above(d, Plus(d, d)) ==> d == Fin(0.0))
  {}

  lemma Stand(w: Wfst, c: seq<seq<Cost>>, q: nat)
    requires Valid(w) && Costs(w, c) && q < |w.states|
    ensures |w.states| > 0 && IsPath(w, q, []) && End(w, q, []) == q && PathCost(w, c, q, []) == Fin(0.0)
  {}

  /** The best cost is the same from either end. */
  lemma SameBest(w: Wfst, c: seq<seq<Cost>>, forDist: seq<Cost>, revDist: seq<Cost>)
    requires Valid(w) && Distances(w, c, forDist, revDist)
    ensures forDist[w.final] == revDist[0]
  {
    assert FromStart(w, c, w.final, forDist[w.final]) && ToFinal(w, c, 0, revDist[0]);
    if forDist[w.final].Fin? {
      var p :| IsPath(w, 0, p) && End(w, 0, p) == w.final && PathCost(w, c, 0, p) == forDist[w.final];
    }
    if revDist[0].Fin? {
      var p :| IsPath(w, 0, p) && End(w, 0, p) == w.final && PathCost(w, c, 0, p) == revDist[0];
    }
  }

  lemma EndsStayTogether(w: Wfst, c: seq<seq<Cost>>, forDist: seq<Cost>, revDist: seq<Cost>, worst: Cost)
    requires Valid(w) && Distances(w, c, forDist, revDist)
    ensures StateStays(forDist, revDist, worst, 0) <==> StateStays(forDist, revDist, worst, w.final)
  {
    NowhereIsFree(w, c, forDist, revDist);
    SameBest(w, c, forDist, revDist);
  }

  // ----- what the distances say of one state -----

  lemma NoNearerStart(w: Wfst, c: seq<seq<Cost>>, forDist: seq<Cost>, revDist: seq<Cost>, p: seq<nat>)
    requires Valid(w) && Distances(w, c, forDist, revDist) && IsPath(w, 0, p)
    ensures End(w, 0, p) < |forDist| && !Above(forDist[End(w, 0, p)], PathCost(w, c, 0, p))
  {
    hide PathCost, ToFinal, IsPath, End;
    assert FromStart(w, c, End(w, 0, p), forDist[End(w, 0, p)]);
  }

  lemma NoNearerFinal(w: Wfst, c: seq<seq<Cost>>, forDist: seq<Cost>, revDist: seq<Cost>, q: nat, r: seq<nat>)
    requires Valid(w) && Distances(w, c, forDist, revDist) && q < |w.states| && IsPath(w, q, r) && End(w, q, r) == w.final
    ensures !Above(revDist[q], PathCost(w, c, q, r))
  {
    hide PathCost, FromStart, IsPath, End;
    assert ToFinal(w, c, q, revDist[q]);
  }

  lemma NearestStart(w: Wfst, c: seq<seq<Cost>>, forDist: seq<Cost>, revDist: seq<Cost>, q: nat) returns (p: seq<nat>)
    requires Valid(w) && Distances(w, c, forDist, revDist) && q < |w.states| && forDist[q].Fin?
    ensures IsPath(w, 0, p) && End(w, 0, p) == q && PathCost(w, c, 0, p) == forDist[q]
  {
    hide PathCost, ToFinal, IsPath, End;
    assert FromStart(w, c, q, forDist[q]);
    p :| IsPath(w, 0, p) && End(w, 0, p) == q && PathCost(w, c, 0, p) == forDist[q];
  }

  lemma NearestFinal(w: Wfst, c: seq<seq<Cost>>, forDist: seq<Cost>, revDist: seq<Cost>, q: nat) returns (r: seq<nat>)
    requires Valid(w) && Distances(w, c, forDist, revDist) && q < |w.states| && revDist[q].Fin?
    ensures IsPath(w, q, r) && End(w, q, r) == w.final && PathCost(w, c, q, r) == revDist[q]
  {
    hide PathCost, FromStart, IsPath, End;
    assert ToFinal(w, c, q, revDist[q]);
    r :| IsPath(w, q, r) && End(w, q, r) == w.final && PathCost(w, c, q, r) == revDist[q];
  }

  lemma CostsAdd(step: Cost, a: Cost, a': Cost, b: Cost, b': Cost, worst: Cost)
    requires !Above(a, a') && !Above(b, b')
    ensures !Above(Plus(a', Plus(step, b')), worst) ==> !Above(Plus(Plus(step, a), b), worst)
    ensures !Above(Plus(a', b'), worst) ==> !Above(Plus(a, b), worst)
  {}

  lemma StaysBy(forDist: seq<Cost>, revDist: seq<Cost>, worst: Cost, q: nat)
    requires q < |forDist| == |revDist| && !Above(Plus(forDist[q], revDist[q]), worst)
    ensures StateStays(forDist, revDist, worst, q)
  {}

  lemma ArcStaysBy(w: Wfst, c: seq<seq<Cost>>, forDist: seq<Cost>, revDist: seq<Cost>, worst: Cost, q: nat, k: nat)
    requires Costs(w, c) && |forDist| == |revDist| == |w.states| && q < |w.states| && k < |w.states[q]| && w.states[q][k].dest < |w.states|
    requires k < |c[q]| && !Above(Plus(Plus(c[q][k], forDist[q]), revDist[w.states[q][k].dest]), worst)
    ensures ArcStays(w, c, forDist, revDist, worst, q, k)
  {}

  lemma NearestThrough(w: Wfst, c: seq<seq<Cost>>, forDist: seq<Cost>, revDist: seq<Cost>, p: seq<nat>, q: nat, r: seq<nat>, worst: Cost)
    requires Valid(w) && Distances(w, c, forDist, revDist) && q < |w.states|
    requires IsPath(w, 0, p) && End(w, 0, p) == q && IsPath(w, q, r) && End(w, q, r) == w.final
    requires !Above(Plus(PathCost(w, c, 0, p), PathCost(w, c, q, r)), worst)
    ensures StateStays(forDist, revDist, worst, q)
    ensures |r| > 0 ==> ArcOk(w, w.states[q][r[0]]) && ArcStays(w, c, forDist, revDist, worst, q, r[0])
  {
    hide *;
    DistancesShape(w, c, forDist, revDist);
    NoNearerStart(w, c, forDist, revDist, p);
    NoNearerFinal(w, c, forDist, revDist, q, r);
    CostsAdd(Fin(0.0), forDist[q], PathCost(w, c, 0, p), revDist[q], PathCost(w, c, q, r), worst);
    StaysBy(forDist, revDist, worst, q);
    if |r| > 0 {
      FirstStep(w, q, r);
      var dest := w.states[q][r[0]].dest;
      NoNearerFinal(w, c, forDist, revDist, dest, r[1..]);
      assert r == [r[0]] + r[1..];
      StepCost(w, c, q, r[0], r[1..]);
      CostsAdd(c[q][r[0]], forDist[q], PathCost(w, c, 0, p), revDist[dest], PathCost(w, c, dest, r[1..]), worst);
      ArcStaysBy(w, c, forDist, revDist, worst, q, r[0]);
    }
  }

  lemma FirstStep(w: Wfst, q: nat, r: seq<nat>)
    requires Valid(w) && q < |w.states| && IsPath(w, q, r) && |r| > 0
    ensures r[0] < |w.states[q]| && ArcOk(w, w.states[q][r[0]])
    ensures var dest := w.states[q][r[0]].dest; IsPath(w, dest, r[1..]) && End(w, dest, r[1..]) == End(w, q, r)
  {}

  lemma PassArc(w: Wfst, c: seq<seq<Cost>>, p: seq<nat>, q: nat, r: seq<nat>)
    requires Valid(w) && Costs(w, c) && q < |w.states| && |r| > 0
    requires IsPath(w, 0, p) && End(w, 0, p) == q && IsPath(w, q, r)
    ensures r[0] < |w.states[q]| && w.states[q][r[0]].dest < |w.states|
    ensures IsPath(w, 0, p + [r[0]]) && End(w, 0, p + [r[0]]) == w.states[q][r[0]].dest && IsPath(w, w.states[q][r[0]].dest, r[1..])
    ensures Plus(PathCost(w, c, 0, p + [r[0]]), PathCost(w, c, w.states[q][r[0]].dest, r[1..])) == Plus(PathCost(w, c, 0, p), PathCost(w, c, q, r))
  {
    FirstStep(w, q, r);
    assert [r[0]][1..] == [];
    JoinCost(w, c, 0, p, [r[0]]);
  }

  // ----- what is kept -----

  /** What lies on a path within the ratio of the best is kept. */
  lemma {:induction false} GoodPathKept(w: Wfst, c: seq<seq<Cost>>, forDist: seq<Cost>, revDist: seq<Cost>, worst: Cost, t: seq<int>, mask: seq<seq<bool>>,
                                        p: seq<nat>, q: nat, r: seq<nat>)
    requires Valid(w) && Distances(w, c, forDist, revDist) && IsPruning(w, c, forDist, revDist, worst, t, mask)
    requires q < |w.states| && IsPath(w, 0, p) && End(w, 0, p) == q && IsPath(w, q, r) && End(w, q, r) == w.final
    requires !Above(Plus(PathCost(w, c, 0, p), PathCost(w, c, q, r)), worst)
    ensures t[q] >= 0 && KeptPath(w, mask, q, r)
    decreases |r|
  {
    hide Distances, StateStays, ArcStays, IsPath, End, PathCost, Plus, Above;
    DistancesShape(w, c, forDist, revDist);
    NearestThrough(w, c, forDist, revDist, p, q, r, worst);
    if |r| > 0 {
      PassArc(w, c, p, q, r);
      FirstStep(w, q, r);
      GoodPathKept(w, c, forDist, revDist, worst, t, mask, p + [r[0]], w.states[q][r[0]].dest, r[1..]);
    }
  }

  /** All accepting paths that cost no more than the best by the ratio are kept. */
  lemma PruningKeepsGoodPaths(w: Wfst, c: seq<seq<Cost>>, forDist: seq<Cost>, revDist: seq<Cost>, worst: Cost, t: seq<int>, mask: seq<seq<bool>>, p: seq<nat>)
    requires Valid(w) && Distances(w, c, forDist, revDist) && IsPruning(w, c, forDist, revDist, worst, t, mask)
    requires Accepting(w, p) && !Above(PathCost(w, c, 0, p), worst)
    ensures KeptAccepting(w, mask, p)
  {
    hide Distances, IsPruning;
    DistancesShape(w, c, forDist, revDist);
    GoodPathKept(w, c, forDist, revDist, worst, t, mask, [], 0, p);
  }

  /** p and then r is an accepting path through q that is as good as asked. */
  ghost predicate GoodThrough(w: Wfst, c: seq<seq<Cost>>, worst: Cost, p: seq<nat>, q: nat, r: seq<nat>)
    requires Valid(w) && Costs(w, c)
  {
    q < |w.states| && IsPath(w, 0, p) && End(w, 0, p) == q && IsPath(w, q, r) && Accepting(w, p + r) && !Above(PathCost(w, c, 0, p + r), worst)
  }

  ghost predicate StateOnGoodPath(w: Wfst, c: seq<seq<Cost>>, worst: Cost, q: nat)
    requires Valid(w) && Costs(w, c)
  {
    exists p: seq<nat>, r: seq<nat> :: GoodThrough(w, c, worst, p, q, r)
  }

  ghost predicate ArcOnGoodPath(w: Wfst, c: seq<seq<Cost>>, worst: Cost, q: nat, k: nat)
    requires Valid(w) && Costs(w, c)
  {
    exists p: seq<nat>, r: seq<nat> :: |r| > 0 && r[0] == k && GoodThrough(w, c, worst, p, q, r)
  }

  /** If something is accepted, what is kept is on a path that costs no more than the best by the ratio. */
  lemma KeptIsOnGoodPath(w: Wfst, c: seq<seq<Cost>>, forDist: seq<Cost>, revDist: seq<Cost>, worst: Cost, t: seq<int>, mask: seq<seq<bool>>, q: nat)
    requires Valid(w) && Distances(w, c, forDist, revDist) && IsPruning(w, c, forDist, revDist, worst, t, mask)
    requires worst.Fin? && q < |w.states| && t[q] >= 0
    ensures Costs(w, c) && StateOnGoodPath(w, c, worst, q)
    ensures |mask[q]| == |w.states[q]| && forall k: nat :: k < |w.states[q]| && mask[q][k] ==> ArcOnGoodPath(w, c, worst, q, k)
  {
    hide Distances, IsPath, End, PathCost, ArcOnGoodPath, ArcStays;
    DistancesShape(w, c, forDist, revDist);
    var p := NearestStart(w, c, forDist, revDist, q);
    var r := NearestFinal(w, c, forDist, revDist, q);
    JoinCost(w, c, 0, p, r);
    assert GoodThrough(w, c, worst, p, q, r);
    forall k: nat | k < |w.states[q]| && mask[q][k] ensures ArcOnGoodPath(w, c, worst, q, k) {
      KeptArcOnGoodPath(w, c, forDist, revDist, worst, p, q, k);
    }
  }

  lemma KeptArcOnGoodPath(w: Wfst, c: seq<seq<Cost>>, forDist: seq<Cost>, revDist: seq<Cost>, worst: Cost, p: seq<nat>, q: nat, k: nat)
    requires Valid(w) && Distances(w, c, forDist, revDist) && worst.Fin? && q < |w.states|
    requires IsPath(w, 0, p) && End(w, 0, p) == q && PathCost(w, c, 0, p) == forDist[q]
    requires k < |w.states[q]| && w.states[q][k].dest < |w.states| && ArcStays(w, c, forDist, revDist, worst, q, k)
    ensures ArcOnGoodPath(w, c, worst, q, k)
  {
    hide Distances, IsPath, End, PathCost;
    DistancesShape(w, c, forDist, revDist);
    var s := NearestFinal(w, c, forDist, revDist, w.states[q][k].dest);
    StepCost(w, c, q, k, s);
    JoinCost(w, c, 0, p, [k] + s);
    assert GoodThrough(w, c, worst, p, q, [k] + s);
  }

  lemma StepCost(w: Wfst, c: seq<seq<Cost>>, q: nat, k: nat, s: seq<nat>)
    requires Valid(w) && Costs(w, c) && q < |w.states| && k < |w.states[q]| && w.states[q][k].dest < |w.states|
    requires IsPath(w, w.states[q][k].dest, s)
    ensures IsPath(w, q, [k] + s) && End(w, q, [k] + s) == End(w, w.states[q][k].dest, s)
    ensures PathCost(w, c, q, [k] + s) == Plus(c[q][k], PathCost(w, c, w.states[q][k].dest, s))
  {
    assert ([k] + s)[1..] == s;
  }

  /** The best cost is finite exactly when some accepting path has a finite cost; if none has, nothing is above it and nothing goes. */
  lemma NothingAcceptedNothingPruned(w: Wfst, c: seq<seq<Cost>>, forDist: seq<Cost>, revDist: seq<Cost>, ratio: real, t: seq<int>, mask: seq<seq<bool>>)
    requires Valid(w) && Distances(w, c, forDist, revDist)
    requires IsPruning(w, c, forDist, revDist, Plus(forDist[w.final], Fin(ratio)), t, mask)
    ensures Costs(w, c) && (forDist[w.final].Fin? <==> exists p: seq<nat> :: Accepting(w, p) && PathCost(w, c, 0, p).Fin?)
    ensures forDist[w.final].Inf? ==> forall q: nat :: q < |w.states| ==> t[q] >= 0 && |mask[q]| == |w.states[q]|
    ensures forDist[w.final].Inf? ==> forall q: nat, k: nat :: q < |w.states| && k < |w.states[q]| ==> mask[q][k]
  {
    hide Distances, IsPath, End, PathCost;
    DistancesShape(w, c, forDist, revDist);
    if forDist[w.final].Fin? {
      var p := NearestStart(w, c, forDist, revDist, w.final);
    } else {
      forall p: seq<nat> | Accepting(w, p) ensures PathCost(w, c, 0, p).Inf? { NoNearerStart(w, c, forDist, revDist, p); }
      NothingAbove(w, c, forDist, revDist, t, mask);
    }
  }

  lemma NothingAbove(w: Wfst, c: seq<seq<Cost>>, forDist: seq<Cost>, revDist: seq<Cost>, t: seq<int>, mask: seq<seq<bool>>)
    requires Valid(w) && Costs(w, c) && |forDist| == |revDist| == |w.states| && IsPruning(w, c, forDist, revDist, Inf, t, mask)
    ensures forall q: nat :: q < |w.states| ==> t[q] >= 0 && |mask[q]| == |w.states[q]|
    ensures forall q: nat, k: nat :: q < |w.states| && k < |w.states[q]| ==> mask[q][k]
  {
    forall q: nat | q < |w.states| ensures t[q] >= 0 && |mask[q]| == |w.states[q]| { assert StateStays(forDist, revDist, Inf, q); }
    DestsWithin(w);
  }

  // ----- exactly when only good paths are kept -----

  /** All that is kept is on accepting paths within the ratio of the best. */
  ghost predicate OnlyGoodKept(w: Wfst, c: seq<seq<Cost>>, worst: Cost, t: seq<int>, mask: seq<seq<bool>>)
    requires Valid(w) && Costs(w, c) && |t| == |mask| == |w.states| && forall q :: 0 <= q < |mask| ==> |mask[q]| == |w.states[q]|
  {
    && (forall q: nat :: q < |w.states| && t[q] >= 0 ==> StateOnGoodPath(w, c, worst, q))
    && forall q: nat, k: nat :: q < |w.states| && t[q] >= 0 && k < |w.states[q]| && mask[q][k] ==> ArcOnGoodPath(w, c, worst, q, k)
  }

  ghost predicate SomethingWeighs(w: Wfst, c: seq<seq<Cost>>)
    requires Valid(w) && Costs(w, c)
  {
    exists p: seq<nat> :: Accepting(w, p) && PathCost(w, c, 0, p).Fin?
  }

  /** Only what is good is kept exactly if some accepting path has a weight, or every state is on an accepting path. */
  lemma OnlyGoodKeptExactly(w: Wfst, c: seq<seq<Cost>>, forDist: seq<Cost>, revDist: seq<Cost>, ratio: real, t: seq<int>, mask: seq<seq<bool>>)
    requires Valid(w) && Distances(w, c, forDist, revDist)
    requires IsPruning(w, c, forDist, revDist, Plus(forDist[w.final], Fin(ratio)), t, mask)
    ensures OnlyGoodKept(w, c, Plus(forDist[w.final], Fin(ratio)), t, mask) <==>
      SomethingWeighs(w, c) || forall q: nat :: q < |w.states| ==> Useful(w, q)
  {
    hide Distances, IsPruning, StateOnGoodPath, ArcOnGoodPath, Useful;
    DistancesShape(w, c, forDist, revDist);
    PruningShape(w, c, forDist, revDist, Plus(forDist[w.final], Fin(ratio)), t, mask);
    NothingAcceptedNothingPruned(w, c, forDist, revDist, ratio, t, mask);
    var worst := Plus(forDist[w.final], Fin(ratio));
    if worst.Fin? {
      forall q: nat | q < |w.states| && t[q] >= 0
        ensures StateOnGoodPath(w, c, worst, q) && forall k: nat :: k < |w.states[q]| && mask[q][k] ==> ArcOnGoodPath(w, c, worst, q, k)
      {
        KeptIsOnGoodPath(w, c, forDist, revDist, worst, t, mask, q);
      }
    } else {
      forall q: nat | q < |w.states| ensures StateOnGoodPath(w, c, Inf, q) <==> Useful(w, q) { AnyPathIsGood(w, c, q); }
      if forall q: nat :: q < |w.states| ==> Useful(w, q) {
        forall q: nat, k: nat | q < |w.states| && k < |w.states[q]| ensures ArcOnGoodPath(w, c, Inf, q, k) { AnyArcIsGood(w, c, q, k); }
      }
    }
  }

  lemma PruningShape(w: Wfst, c: seq<seq<Cost>>, forDist: seq<Cost>, revDist: seq<Cost>, worst: Cost, t: seq<int>, mask: seq<seq<bool>>)
    requires Valid(w) && Costs(w, c) && |forDist| == |revDist| == |w.states| && IsPruning(w, c, forDist, revDist, worst, t, mask)
    ensures |t| == |mask| == |w.states| && forall q :: 0 <= q < |mask| ==> |mask[q]| == |w.states[q]|
  {
    hide StateStays, ArcStays;
  }

  /** With no bound, any accepting path will do. */
  lemma AnyPathIsGood(w: Wfst, c: seq<seq<Cost>>, q: nat)
    requires Valid(w) && Costs(w, c) && q < |w.states|
    ensures StateOnGoodPath(w, c, Inf, q) <==> Useful(w, q)
  {
    hide IsPath, End, PathCost;
    if StateOnGoodPath(w, c, Inf, q) {
      var p: seq<nat>, r: seq<nat> :| GoodThrough(w, c, Inf, p, q, r);
      PathJoin(w, 0, p, r);
    }
    if Useful(w, q) {
      var p: seq<nat> :| IsPath(w, 0, p) && End(w, 0, p) == q;
      var r: seq<nat> :| IsPath(w, q, r) && End(w, q, r) == w.final;
      PathJoin(w, 0, p, r);
      assert GoodThrough(w, c, Inf, p, q, r);
    }
  }

  lemma AnyArcIsGood(w: Wfst, c: seq<seq<Cost>>, q: nat, k: nat)
    requires Valid(w) && Costs(w, c) && q < |w.states| && k < |w.states[q]| && forall q: nat :: q < |w.states| ==> Useful(w, q)
    ensures ArcOnGoodPath(w, c, Inf, q, k)
  {
    hide IsPath, End, PathCost;
    assert ArcOk(w, w.states[q][k]) && Useful(w, q) && Useful(w, w.states[q][k].dest);
    var p: seq<nat> :| IsPath(w, 0, p) && End(w, 0, p) == q;
    var s: seq<nat> :| IsPath(w, w.states[q][k].dest, s) && End(w, w.states[q][k].dest, s) == w.final;
    StepCost(w, c, q, k, s);
    PathJoin(w, 0, p, [k] + s);
    assert GoodThrough(w, c, Inf, p, q, [k] + s);
  }

  /** Two states and no arcs: nothing is accepted, and state 1, the final one, stays, though no path reaches it. */
  const UNREACHED: Wfst := Wfst([[], []], 1, ["*e*"], ["*e*"])

  method UnreachedStays(ratio: real) returns (r: Remains, ghost t: seq<int>)
    ensures Valid(UNREACHED) && !Reached(UNREACHED, 1)
    ensures r.Left? && |r.w.states| >= 2 && |t| == 2 && t[0] >= 0 && t[1] >= 0
  {
    hide IsPruning, Trimmed, KeepBy;
    var forDist, revDist := [Fin(0.0), Inf], [Inf, Fin(0.0)];
    ghost var mask;
    UnreachedDistances(forDist, revDist);
    r, t, mask := PrunePaths(UNREACHED, [[], []], forDist, revDist, ratio);
    NothingAcceptedNothingPruned(UNREACHED, [[], []], forDist, revDist, ratio, t, mask);
    PruningShape(UNREACHED, [[], []], forDist, revDist, Plus(forDist[1], Fin(ratio)), t, mask);
    BothStay(r, t, mask);
  }

  lemma BothStay(r: Remains, t: seq<int>, mask: seq<seq<bool>>)
    requires r.Left? && Valid(UNREACHED) && Trimmed(UNREACHED, r.w, t, mask) && t[0] >= 0 && t[1] >= 0
    ensures |r.w.states| >= 2
  {}

  lemma UnreachedDistances(forDist: seq<Cost>, revDist: seq<Cost>)
    requires forDist == [Fin(0.0), Inf] && revDist == [Inf, Fin(0.0)]
    ensures Valid(UNREACHED) && Distances(UNREACHED, [[], []], forDist, revDist) && !Reached(UNREACHED, 1)
  {
    var w, c: seq<seq<Cost>> := UNREACHED, [[], []];
    Stand(w, c, 0);
    Stand(w, c, 1);
    assert FromStart(w, c, 0, Fin(0.0)) && FromStart(w, c, 1, Inf) && ToFinal(w, c, 0, Inf) && ToFinal(w, c, 1, Fin(0.0));
  }
}
