/** Taking states and arcs out of a transducer (carmel/src/fst.cc, carmel/src/state.h), and what becomes of its paths. */
module Trimming {
  import opened Weights
  import opened Transducer
  import opened Pruning

  // ----- filtered arc lists -----

  ghost function Count(mask: seq<bool>): nat {
    if |mask| == 0 then 0 else Count(mask[..|mask| - 1]) + if mask[|mask| - 1] then 1 else 0
  }

  /** The arcs that the mask keeps, with new destinations. */
  ghost function Filtered(arcs: seq<Arc>, mask: seq<bool>, t: seq<int>): (r: seq<Arc>)
    requires |arcs| == |mask|
    ensures |r| == Count(mask)
  {
    if |arcs| == 0 then [] else
    var n := |arcs| - 1;
    Filtered(arcs[..n], mask[..n], t) + if mask[n] then [Moved(arcs[n], t)] else []
  }

  ghost function Moved(arc: Arc, t: seq<int>): Arc {
    arc.(dest := if arc.dest < |t| && t[arc.dest] >= 0 then t[arc.dest] else 0)
  }

  /** Where the arc at position k goes. */
  ghost function Rank(mask: seq<bool>, k: nat): nat
    requires k <= |mask|
  {
    Count(mask[..k])
  }

  lemma {:induction false} RankBelow(mask: seq<bool>, j: nat, k: nat)
    requires j <= k <= |mask|
    ensures Rank(mask, j) <= Rank(mask, k) && (j < k && mask[j] ==> Rank(mask, j) < Rank(mask, k))
    decreases k
  {
    if j < k {
      RankBelow(mask, j, k - 1);
      assert mask[..k][..k - 1] == mask[..k - 1];
    }
  }

  lemma {:induction false} FilteredAt(arcs: seq<Arc>, mask: seq<bool>, t: seq<int>, k: nat)
    requires |arcs| == |mask| && k < |arcs| && mask[k]
    ensures Rank(mask, k) < Count(mask) && Filtered(arcs, mask, t)[Rank(mask, k)] == Moved(arcs[k], t)
    decreases |arcs|
  {
    var n := |arcs| - 1;
    if k < n {
      FilteredAt(arcs[..n], mask[..n], t, k);
      assert mask[..n][..k] == mask[..k];
    }
  }

  /** Every place in the new list is taken by one arc. */
  lemma {:induction false} RankHit(mask: seq<bool>, m: nat) returns (k: nat)
    requires m < Count(mask)
    ensures k < |mask| && mask[k] && Rank(mask, k) == m
    decreases |mask|
  {
    var n := |mask| - 1;
    if m < Count(mask[..n]) {
      k := RankHit(mask[..n], m);
      assert mask[..n][..k] == mask[..k];
    } else {
      k := n;
    }
  }

  // ----- a transducer with states and arcs taken out -----

  /** w' is w without the states that t does not map and without the arcs that mask does not keep. */
  ghost predicate Trimmed(w: Wfst, w': Wfst, t: seq<int>, mask: seq<seq<bool>>)
    requires Valid(w)
  {
    && |t| == |mask| == |w.states|
    && (forall q :: 0 <= q < |w.states| ==> |mask[q]| == |w.states[q]| && t[q] < |w'.states|)
    && (forall q :: 0 <= q < |w.states| && t[q] >= 0 ==> w'.states[t[q]] == Filtered(w.states[q], mask[q], t))
    && (forall q, k :: 0 <= q < |w.states| && t[q] >= 0 && 0 <= k < |w.states[q]| && mask[q][k] ==> t[w.states[q][k].dest] >= 0)
    && (forall q, r :: 0 <= q < r < |w.states| && t[q] >= 0 ==> t[q] != t[r])
    && (forall m :: 0 <= m < |w'.states| ==> Numbered(t, m))
    && w'.ins == w.ins && w'.outs == w.outs
  }

  /** Some state has the new number m. */
  ghost predicate Numbered(t: seq<int>, m: nat) {
    exists q :: 0 <= q < |t| && t[q] == m
  }

  /** Every arc left is one that was kept. */
  lemma ArcHasOrigin(w: Wfst, w': Wfst, t: seq<int>, mask: seq<seq<bool>>, m: nat, j: nat) returns (q: nat, k: nat)
    requires Valid(w) && Trimmed(w, w', t, mask) && m < |w'.states| && j < |w'.states[m]|
    ensures q < |w.states| && t[q] == m && k < |w.states[q]| && mask[q][k] && w'.states[m][j] == Moved(w.states[q][k], t)
  {
    hide Filtered, Count;
    assert Numbered(t, m);
    q :| 0 <= q < |t| && t[q] == m;
    k := RankHit(mask[q], j);
    FilteredAt(w.states[q], mask[q], t, k);
  }

  ghost predicate Starts(w: Wfst, w': Wfst, t: seq<int>) {
    0 < |t| && w.final < |t| && t[0] == 0 && w'.final == t[w.final] >= 0
  }

  /** The path only takes arcs that are kept. */
  ghost predicate KeptPath(w: Wfst, mask: seq<seq<bool>>, q: nat, p: seq<nat>)
    requires Valid(w) && q < |w.states| && IsPath(w, q, p)
    decreases |p|
  {
    |p| == 0 || (q < |mask| && p[0] < |mask[q]| && mask[q][p[0]] && KeptPath(w, mask, w.states[q][p[0]].dest, p[1..]))
  }

  /** The path in the trimmed transducer. */
  ghost function Image(w: Wfst, mask: seq<seq<bool>>, q: nat, p: seq<nat>): seq<nat>
    requires Valid(w) && q < |w.states| && IsPath(w, q, p) && KeptPath(w, mask, q, p)
    decreases |p|
  {
    if |p| == 0 then [] else [Rank(mask[q], p[0])] + Image(w, mask, w.states[q][p[0]].dest, p[1..])
  }

  /** A kept path is still there, with its strings and its weights. */
  lemma {:induction false} ImageIsPath(w: Wfst, w': Wfst, t: seq<int>, mask: seq<seq<bool>>, q: nat, p: seq<nat>)
    requires Valid(w) && Valid(w') && Trimmed(w, w', t, mask) && q < |w.states| && t[q] >= 0
    requires IsPath(w, q, p) && KeptPath(w, mask, q, p)
    ensures var p' := Image(w, mask, q, p); IsPath(w', t[q], p') && t[End(w, q, p)] >= 0 && End(w', t[q], p') == t[End(w, q, p)]
    ensures var p' := Image(w, mask, q, p); InputOf(w', t[q], p') == InputOf(w, q, p) && OutputOf(w', t[q], p') == OutputOf(w, q, p)
    ensures var p' := Image(w, mask, q, p); Factors(w', t[q], p') == Factors(w, q, p)
    decreases |p|
  {
    if |p| > 0 {
      KeptFirstStep(w, mask, q, p);
      hide Trimmed, Valid, IsPath, End, InputOf, OutputOf, Factors, KeptPath, Image, Rank;
      var arc := w.states[q][p[0]];
      TrimmedArc(w, w', t, mask, q, p[0]);
      ImageIsPath(w, w', t, mask, arc.dest, p[1..]);
      PathCons(w', t[q], Rank(mask[q], p[0]), Image(w, mask, arc.dest, p[1..]));
      PathCons(w, q, p[0], p[1..]);
      assert [p[0]] + p[1..] == p;
    }
  }

  /** The first step of a kept path. */
  lemma KeptFirstStep(w: Wfst, mask: seq<seq<bool>>, q: nat, p: seq<nat>)
    requires Valid(w) && q < |w.states| && IsPath(w, q, p) && KeptPath(w, mask, q, p) && |p| > 0
    ensures p[0] < |w.states[q]| && q < |mask| && p[0] < |mask[q]| && mask[q][p[0]] && w.states[q][p[0]].dest < |w.states|
    ensures var dest := w.states[q][p[0]].dest; IsPath(w, dest, p[1..]) && KeptPath(w, mask, dest, p[1..])
    ensures Image(w, mask, q, p) == [Rank(mask[q], p[0])] + Image(w, mask, w.states[q][p[0]].dest, p[1..])
  {
    hide Rank;
  }

  /** Where a kept arc is now. */
  lemma TrimmedArc(w: Wfst, w': Wfst, t: seq<int>, mask: seq<seq<bool>>, q: nat, k: nat)
    requires Valid(w) && Trimmed(w, w', t, mask) && q < |w.states| && t[q] >= 0 && k < |w.states[q]| && mask[q][k]
    requires w.states[q][k].dest < |w.states|
    ensures t[q] < |w'.states| && Rank(mask[q], k) < |w'.states[t[q]]| && t[w.states[q][k].dest] >= 0
    ensures w'.states[t[q]][Rank(mask[q], k)] == w.states[q][k].(dest := t[w.states[q][k].dest])
    ensures w'.ins == w.ins && w'.outs == w.outs && |t| == |w.states| == |mask|
  {
    hide Count, Filtered;
    FilteredAt(w.states[q], mask[q], t, k);
  }

  lemma {:induction false} ImageDetermines(w: Wfst, mask: seq<seq<bool>>, q: nat, p: seq<nat>, r: seq<nat>)
    requires Valid(w) && q < |w.states|
    requires IsPath(w, q, p) && KeptPath(w, mask, q, p) && IsPath(w, q, r) && KeptPath(w, mask, q, r)
    requires Image(w, mask, q, p) == Image(w, mask, q, r)
    ensures p == r
    decreases |p|
  {
    if |p| > 0 && |r| > 0 {
      KeptFirstStep(w, mask, q, p);
      KeptFirstStep(w, mask, q, r);
      hide Valid, IsPath, KeptPath, Image, Rank;
      var ip, ir := Image(w, mask, q, p), Image(w, mask, q, r);
      assert ip[0] == Rank(mask[q], p[0]) && ir[0] == Rank(mask[q], r[0]);
      if p[0] < r[0] { RankBelow(mask[q], p[0], r[0]); }
      if r[0] < p[0] { RankBelow(mask[q], r[0], p[0]); }
      var dest := w.states[q][p[0]].dest;
      assert ip[1..] == Image(w, mask, dest, p[1..]) && ir[1..] == Image(w, mask, dest, r[1..]);
      ImageDetermines(w, mask, dest, p[1..], r[1..]);
      assert p == [p[0]] + p[1..] && r == [r[0]] + r[1..];
    }
  }

  /** Every path of the trimmed transducer is the image of a kept one. */
  lemma {:induction false} PathHasOrigin(w: Wfst, w': Wfst, t: seq<int>, mask: seq<seq<bool>>, q: nat, p': seq<nat>) returns (p: seq<nat>)
    requires Valid(w) && Valid(w') && Trimmed(w, w', t, mask) && q < |w.states| && t[q] >= 0 && IsPath(w', t[q], p')
    ensures IsPath(w, q, p) && KeptPath(w, mask, q, p) && Image(w, mask, q, p) == p'
    decreases |p'|
  {
    if |p'| == 0 {
      p := [];
    } else {
      var k := RankHit(mask[q], p'[0]);
      FilteredAt(w.states[q], mask[q], t, k);
      hide Count, Filtered;
      var rest := PathHasOrigin(w, w', t, mask, w.states[q][k].dest, p'[1..]);
      p := [k] + rest;
      assert p[1..] == rest;
      assert p' == [p'[0]] + p'[1..];
    }
  }

  ghost predicate KeptAccepting(w: Wfst, mask: seq<seq<bool>>, p: seq<nat>)
    requires Valid(w)
  {
    Accepting(w, p) && KeptPath(w, mask, 0, p)
  }

  /** One to one: the accepting paths of w that are kept, and those of w'. */
  lemma TrimmedPaths(w: Wfst, w': Wfst, t: seq<int>, mask: seq<seq<bool>>)
    requires Valid(w) && Valid(w') && Trimmed(w, w', t, mask) && Starts(w, w', t)
    ensures forall p :: KeptAccepting(w, mask, p) ==>
      var p' := Image(w, mask, 0, p);
      Accepting(w', p') && InputOf(w', 0, p') == InputOf(w, 0, p) && OutputOf(w', 0, p') == OutputOf(w, 0, p) && WeightOf(w', 0, p') == WeightOf(w, 0, p)
    ensures forall p' :: Accepting(w', p') ==> exists p :: KeptAccepting(w, mask, p) && Image(w, mask, 0, p) == p'
    ensures forall p, r :: KeptAccepting(w, mask, p) && KeptAccepting(w, mask, r) && Image(w, mask, 0, p) == Image(w, mask, 0, r) ==> p == r
  {
    forall p | KeptAccepting(w, mask, p)
      ensures var p' := Image(w, mask, 0, p);
        Accepting(w', p') && InputOf(w', 0, p') == InputOf(w, 0, p) && OutputOf(w', 0, p') == OutputOf(w, 0, p) && WeightOf(w', 0, p') == WeightOf(w, 0, p)
    {
      ImageIsPath(w, w', t, mask, 0, p);
    }
    forall p' | Accepting(w', p') ensures exists p :: KeptAccepting(w, mask, p) && Image(w, mask, 0, p) == p' {
      var p := PathHasOrigin(w, w', t, mask, 0, p');
      ImageIsPath(w, w', t, mask, 0, p);
      var e := End(w, 0, p);
      assert t[e] == t[w.final];
      assert e == w.final;
    }
    forall p, r | KeptAccepting(w, mask, p) && KeptAccepting(w, mask, r) && Image(w, mask, 0, p) == Image(w, mask, 0, r) ensures p == r {
      ImageDetermines(w, mask, 0, p, r);
    }
  }
}
