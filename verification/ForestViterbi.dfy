/** The best derivation of a forest, and a randomly chosen one (forest-em/forest.hpp). */
module ForestViterbi {
  import opened Weights
  import opened Forests
  import opened ForestSums
  import opened ForestWriting
  import opened Options

  // ----- the maximum over derivations -----

  function Max(x: real, y: real): real {
    if x < y then y else x
  }

  ghost function Best(f: seq<ForestNode>, w: nat -> real, i: nat): real
    requires IsForest(f) && i < |f|
    decreases f[i].next, |f| - i, 1
  {
    NodeParts(f, i);
    match f[i].lab
    case Ref(target) => Best(f, w, target)
    case Rule(id) =>
      if id == OR_INT then BestAny(f, w, i + 1, f[i].next) else Mul(w(id), BestAll(f, w, i + 1, f[i].next))
  }

  ghost function BestAny(f: seq<ForestNode>, w: nat -> real, b: nat, e: nat): real
    requires IsForest(f) && Siblings(f, b, e) && b < e
    decreases e, |f| - b, 2
  {
    SiblingParts(f, b, e);
    var n := f[b].next;
    if n == e then Best(f, w, b) else Max(Best(f, w, b), BestAny(f, w, n, e))
  }

  ghost function BestAll(f: seq<ForestNode>, w: nat -> real, b: nat, e: nat): real
    requires IsForest(f) && Siblings(f, b, e)
    decreases e, |f| - b, 2
  {
    if b == e then 1.0 else
    SiblingParts(f, b, e);
    Mul(Best(f, w, b), BestAll(f, w, f[b].next, e))
  }

  lemma MulMonotone(x: real, y: real, x': real, y': real)
    requires 0.0 <= x <= x' && 0.0 <= y <= y'
    ensures Mul(x, y) <= Mul(x', y')
  {
    assert x * y <= x' * y;
  }

  /** No derivation has more weight than Best. */
  lemma {:induction false} BestIsBound(f: seq<ForestNode>, w: nat -> real, i: nat, t: Tree)
    requires IsForest(f) && i < |f| && NonNegative(w) && IsDeriv(f, i, t)
    ensures WeightOf(w, t) <= Best(f, w, i)
    decreases t, f[i].next, |f| - i
  {
    hide Mul;
    NodeParts(f, i);
    match f[i].lab
    case Ref(target) => BestIsBound(f, w, target, t);
    case Rule(id) =>
      if id == OR_INT {
        BestIsBound(f, w, t.child, t.sub);
        ChildIsBelow(f, w, i + 1, f[i].next, t.child);
      } else {
        BestAllIsBound(f, w, i + 1, f[i].next, t.kids);
        WeightsNonNegative(w, t.kids);
        MulMonotone(w(id), WeightsOf(w, t.kids), w(id), BestAll(f, w, i + 1, f[i].next));
      }
  }

  lemma {:induction false} BestAllIsBound(f: seq<ForestNode>, w: nat -> real, b: nat, e: nat, ts: seq<Tree>)
    requires IsForest(f) && Siblings(f, b, e) && NonNegative(w) && AreDerivs(f, b, e, ts)
    ensures WeightsOf(w, ts) <= BestAll(f, w, b, e)
    decreases ts, e, |f| - b
  {
    hide Mul;
    if b < e {
      SiblingParts(f, b, e);
      BestIsBound(f, w, b, ts[0]);
      BestAllIsBound(f, w, f[b].next, e, ts[1..]);
      WeightNonNegative(w, ts[0]);
      WeightsNonNegative(w, ts[1..]);
      MulMonotone(WeightOf(w, ts[0]), WeightsOf(w, ts[1..]), Best(f, w, b), BestAll(f, w, f[b].next, e));
    }
  }

  lemma {:induction false} ChildIsBelow(f: seq<ForestNode>, w: nat -> real, b: nat, e: nat, c: nat)
    requires IsForest(f) && Siblings(f, b, e) && IsChild(f, b, e, c)
    ensures c < |f| && Best(f, w, c) <= BestAny(f, w, b, e)
    decreases e - b
  {
    hide Best;
    SiblingParts(f, b, e);
    if b != c {
      ChildIsBelow(f, w, f[b].next, e, c);
    }
  }

  /** x is node j's best weight and, if it is an OR node, c is a best child. */
  ghost predicate IsBest(f: seq<ForestNode>, w: nat -> real, j: nat, x: real, c: nat)
    requires IsForest(f) && j < |f|
  {
    NodeParts(f, j);
    && x == Best(f, w, j)
    && (IsOr(f[j]) ==> IsChild(f, j + 1, f[j].next, c) && Best(f, w, c) == x)
  }

  class Viterbi {
    const nodes: seq<ForestNode>
    const ruleWeights: nat -> real
    const inside: array<real>
    const viterbi: array<nat>
    var out: seq<Written>
    var recorded: seq<nat>

    ghost predicate Ready() {
      IsForest(nodes) && NonNegative(ruleWeights) && inside.Length == viterbi.Length == |nodes|
    }

    constructor (nodes: seq<ForestNode>, ruleWeights: nat -> real)
      requires IsForest(nodes) && NonNegative(ruleWeights)
      ensures Ready() && this.nodes == nodes && this.ruleWeights == ruleWeights && out == [] && recorded == []
      ensures fresh(inside) && fresh(viterbi)
    {
      this.nodes, this.ruleWeights, out, recorded := nodes, ruleWeights, [], [];
      inside, viterbi := new real[|nodes|], new nat[|nodes|];
    }

    ghost predicate Computed(b: nat)
      requires Ready()
      reads inside, viterbi
    {
      forall j :: 0 <= j < b && j < |nodes| && nodes[j].next <= b ==> IsBest(nodes, ruleWeights, j, inside[j], viterbi[j])
    }

    lemma StillComputed(i: nat, b: nat)
      requires Ready() && i < |nodes| && i < b < nodes[i].next
      requires Computed(i) && forall j :: i < j < b && j < |nodes| ==> IsBest(nodes, ruleWeights, j, inside[j], viterbi[j])
      ensures b < |nodes| && Computed(b)
    {
      NodeParts(nodes, i);
      ClosedBefore(nodes, i, b);
    }

    method ComputeViterbi()
      requires Ready()
      modifies inside, viterbi
      ensures forall j :: 0 <= j < |nodes| ==> IsBest(nodes, ruleWeights, j, inside[j], viterbi[j])
    {
      ViterbiRec(0);
    }

    method ViterbiRec(b: nat)
      requires Ready() && b < |nodes| && Computed(b)
      modifies inside, viterbi
      ensures forall j :: b <= j < nodes[b].next && j < |nodes| ==> IsBest(nodes, ruleWeights, j, inside[j], viterbi[j])
      ensures forall j :: 0 <= j < |nodes| && !(b <= j < nodes[b].next) ==>
        inside[j] == old(inside[j]) && viterbi[j] == old(viterbi[j])
      decreases nodes[b].next, |nodes| - b, 1
    {
      hide BestAny, BestAll, Mul, IsForest, Siblings, NodeOk, NonNegative, IsChild;
      NodeParts(nodes, b);
      match nodes[b].lab
      case Ref(shared) =>
        inside[b] := inside[shared];
      case Rule(id) =>
        if id == OR_INT {
          ViterbiOr(b);
        } else {
          ViterbiAnd(b);
        }
    }

    method ViterbiChild(i: nat, b: nat, e: nat) returns (n: nat)
      requires Ready() && i < |nodes| && e == nodes[i].next && i < b < e && Computed(i) && Siblings(nodes, b, e)
      requires forall j :: i < j < b && j < |nodes| ==> IsBest(nodes, ruleWeights, j, inside[j], viterbi[j])
      modifies inside, viterbi
      ensures b < n <= e && n == nodes[b].next && Siblings(nodes, n, e)
      ensures forall j :: i < j < n && j < |nodes| ==> IsBest(nodes, ruleWeights, j, inside[j], viterbi[j])
      ensures forall j :: 0 <= j < |nodes| && !(b <= j < n) ==> inside[j] == old(inside[j]) && viterbi[j] == old(viterbi[j])
      decreases e, |nodes| - b, 2
    {
      hide Best, IsForest, Siblings, NodeOk, NonNegative, IsChild;
      SiblingParts(nodes, b, e);
      StillComputed(i, b);
      ViterbiRec(b);
      n := nodes[b].next;
    }

    method ViterbiOr(i: nat)
      requires Ready() && i < |nodes| && NodeOk(nodes, i) && IsOr(nodes[i]) && Computed(i)
      modifies inside, viterbi
      ensures forall j :: i <= j < nodes[i].next && j < |nodes| ==> IsBest(nodes, ruleWeights, j, inside[j], viterbi[j])
      ensures forall j :: 0 <= j < |nodes| && !(i <= j < nodes[i].next) ==>
        inside[j] == old(inside[j]) && viterbi[j] == old(viterbi[j])
      decreases nodes[i].next, |nodes| - i, 0
    {
      hide IsForest, Siblings, NodeOk, NonNegative, IsBest, IsChild, Best;
      NodeParts(nodes, i);
      var e, b := nodes[i].next, i + 1;
      SiblingParts(nodes, b, e);
      ChildParts(nodes, b, e);
      var n := ViterbiChild(i, b, e);
      BestOf(b);
      inside[i] := inside[i + 1];
      viterbi[i] := b;
      BetterOf(i, n, e);
      OrIsBest(nodes, ruleWeights, i, inside[i], viterbi[i]);
    }

    /** inside[i] is the best of the children before b, viterbi[i] one of them: the children from b on are looked at. */
    method BetterOf(i: nat, b: nat, e: nat)
      requires Ready() && i < |nodes| && IsOr(nodes[i]) && e == nodes[i].next && i + 1 < b <= e <= |nodes| && Siblings(nodes, i + 1, e)
      requires Siblings(nodes, b, e) && Computed(i) && forall j :: i < j < b ==> IsBest(nodes, ruleWeights, j, inside[j], viterbi[j])
      requires BestAny(nodes, ruleWeights, i + 1, e) == if b < e then Max(inside[i], BestAny(nodes, ruleWeights, b, e)) else inside[i]
      requires forall c :: IsChild(nodes, b, e, c) ==> IsChild(nodes, i + 1, e, c)
      requires IsChild(nodes, i + 1, e, viterbi[i]) && Best(nodes, ruleWeights, viterbi[i]) == inside[i]
      modifies inside, viterbi
      ensures forall j :: i < j < e ==> IsBest(nodes, ruleWeights, j, inside[j], viterbi[j])
      ensures forall j :: 0 <= j < |nodes| && !(i <= j < e) ==> inside[j] == old(inside[j]) && viterbi[j] == old(viterbi[j])
      ensures BestAny(nodes, ruleWeights, i + 1, e) == inside[i]
      ensures IsChild(nodes, i + 1, e, viterbi[i]) && Best(nodes, ruleWeights, viterbi[i]) == inside[i]
      decreases e, |nodes| - b, 3
    {
      hide IsForest, Siblings, NodeOk, NonNegative, IsBest, IsChild, Best;
      var b := b;
      while b < e
        invariant i + 1 < b <= e && Siblings(nodes, b, e) && Computed(i)
        invariant forall j :: i < j < b ==> IsBest(nodes, ruleWeights, j, inside[j], viterbi[j])
        invariant BestAny(nodes, ruleWeights, i + 1, e) == if b < e then Max(inside[i], BestAny(nodes, ruleWeights, b, e)) else inside[i]
        invariant forall c :: IsChild(nodes, b, e, c) ==> IsChild(nodes, i + 1, e, c)
        invariant IsChild(nodes, i + 1, e, viterbi[i]) && Best(nodes, ruleWeights, viterbi[i]) == inside[i]
        invariant forall j :: 0 <= j < |nodes| && !(i <= j < e) ==> inside[j] == old(inside[j]) && viterbi[j] == old(viterbi[j])
      {
        SiblingParts(nodes, b, e);
        ChildParts(nodes, b, e);
        var n := ViterbiChild(i, b, e);
        BestOf(b);
        var childBest := inside[b];
        if inside[i] < childBest {
          inside[i] := childBest;
          viterbi[i] := b;
        }
        b := n;
      }
    }

    lemma BestOf(j: nat)
      requires Ready() && j < |nodes| && IsBest(nodes, ruleWeights, j, inside[j], viterbi[j])
      ensures inside[j] == Best(nodes, ruleWeights, j)
    {}

    method ViterbiAnd(i: nat)
      requires Ready() && i < |nodes| && NodeOk(nodes, i) && IsAnd(nodes[i]) && Computed(i)
      modifies inside, viterbi
      ensures forall j :: i <= j < nodes[i].next && j < |nodes| ==> IsBest(nodes, ruleWeights, j, inside[j], viterbi[j])
      ensures forall j :: 0 <= j < |nodes| && !(i <= j < nodes[i].next) ==>
        inside[j] == old(inside[j]) && viterbi[j] == old(viterbi[j])
      decreases nodes[i].next, |nodes| - i, 0
    {
      hide IsForest, Siblings, NodeOk, NonNegative, IsBest, Mul, Best;
      NodeParts(nodes, i);
      var e, b := nodes[i].next, i + 1;
      ghost var p := ruleWeights(nodes[i].lab.id);
      inside[i] := ruleWeights(nodes[i].lab.id);
      while b < e
        invariant i + 1 <= b <= e && Siblings(nodes, b, e) && Computed(i)
        invariant forall j :: i < j < b ==> IsBest(nodes, ruleWeights, j, inside[j], viterbi[j])
        invariant Mul(inside[i], BestAll(nodes, ruleWeights, b, e)) == Mul(p, BestAll(nodes, ruleWeights, i + 1, e))
        invariant forall j :: 0 <= j < |nodes| && !(i <= j < e) ==> inside[j] == old(inside[j]) && viterbi[j] == old(viterbi[j])
      {
        var n := ViterbiChild(i, b, e);
        BestOf(b);
        MulAssoc(inside[i], inside[b], BestAll(nodes, ruleWeights, n, e));
        inside[i] := Times(inside[i], inside[b]);
        b := n;
      }
      MulUnit(inside[i]);
      AndIsBest(nodes, ruleWeights, i, inside[i], viterbi[i]);
    }

    // ----- writing the best derivation -----

    method WriteViterbiRec(b: nat) returns (ghost t: Tree)
      requires Ready() && b < |nodes| && forall j :: 0 <= j < |nodes| ==> IsBest(nodes, ruleWeights, j, inside[j], viterbi[j])
      modifies this`out
      ensures IsDeriv(nodes, b, t) && WeightOf(ruleWeights, t) == Best(nodes, ruleWeights, b)
      ensures out == old(out) + Show(t)
      decreases nodes[b].next, |nodes| - b, 1
    {
      hide Mul, IsForest, Siblings, NodeOk, NonNegative, BestAny;
      NodeParts(nodes, b);
      var e := nodes[b].next;
      match nodes[b].lab
      case Ref(shared) =>
        t := WriteViterbiRec(shared);
      case Rule(id) =>
        if id == OR_INT {
          BestOf(b);
          var c := viterbi[b];
          ChildCloses(nodes, b + 1, e, c);
          t := WriteViterbiRec(c);
          t := Pick(c, t);
        } else if b + 1 == e {
          out := out + [RuleId(id)];
          t := Apply(id, []);
        } else {
          out := out + [Open];
          out := out + [RuleId(id)];
          ghost var ts := WriteKids(b + 1, e);
          out := out + [Close];
          t := Apply(id, ts);
        }
    }

    method WriteKids(b: nat, e: nat) returns (ghost ts: seq<Tree>)
      requires Ready() && Siblings(nodes, b, e) && forall j :: 0 <= j < |nodes| ==> IsBest(nodes, ruleWeights, j, inside[j], viterbi[j])
      modifies this`out
      ensures AreDerivs(nodes, b, e, ts) && WeightsOf(ruleWeights, ts) == BestAll(nodes, ruleWeights, b, e)
      ensures out == old(out) + ShowAll(ts) && (b < e ==> ts != [])
      decreases e, |nodes| - b, 2
    {
      if b == e { return []; }
      SiblingParts(nodes, b, e);
      hide Mul, IsForest, Siblings, NonNegative;
      out := out + [Blank];
      ghost var t := WriteViterbiRec(b);
      ghost var rest := WriteKids(nodes[b].next, e);
      ts := [t] + rest;
      assert ts[1..] == rest;
      assert old(out) + [Blank] + Show(t) + ShowAll(rest) == old(out) + ([Blank] + Show(t) + ShowAll(rest));
    }

    /** What is written is a derivation that no derivation outweighs, and inside[0] its weight: after the weight and the blank
      * come the rules of the derivation in preorder, and they can be read back with their bracketing. */
    method WriteViterbi() returns (ghost t: Tree, ghost text: seq<Written>)
      requires Ready()
      modifies this`out, inside, viterbi
      ensures IsDeriv(nodes, 0, t) && out == old(out) + [Weight(inside[0]), Blank] + text
      ensures Ids(text) == RulesOf(t) && ReadBack(text) == Some(Bare(t))
      ensures WeightOf(ruleWeights, t) == inside[0]
      ensures forall u :: IsDeriv(nodes, 0, u) ==> WeightOf(ruleWeights, u) <= WeightOf(ruleWeights, t)
    {
      hide Best, IsDeriv, WeightOf, NonNegative;
      ComputeViterbi();
      out := out + [Weight(inside[0])];
      out := out + [Blank];
      t := WriteViterbiRec(0);
      text := Show(t);
      assert old(out) + [Weight(inside[0])] + [Blank] == old(out) + [Weight(inside[0]), Blank];
      ShownIds(t);
      ShownReadsBack(t);
      BestOf(0);
      forall u | IsDeriv(nodes, 0, u) ensures WeightOf(ruleWeights, u) <= WeightOf(ruleWeights, t) {
        BestIsBound(nodes, ruleWeights, 0, u);
      }
    }

    // ----- choosing a derivation at random -----

    /** Whatever the draws, the rules recorded are those of some derivation, in preorder. */
    method ChooseRandom(b: nat) returns (ghost t: Tree)
      requires Ready() && b < |nodes|
      modifies this`recorded
      ensures IsDeriv(nodes, b, t) && recorded == old(recorded) + RulesOf(t)
      decreases nodes[b].next, |nodes| - b, 1
    {
      hide IsForest, Siblings, NodeOk, NonNegative;
      NodeParts(nodes, b);
      var e := nodes[b].next;
      match nodes[b].lab
      case Ref(shared) =>
        t := ChooseRandom(shared);
      case Rule(id) =>
        if id == OR_INT {
          var i := PickChild(b + 1, e);
          ChildCloses(nodes, b + 1, e, i);
          t := ChooseRandom(i);
          t := Pick(i, t);
        } else {
          recorded := recorded + [id];
          ghost var ts := ChooseKids(b + 1, e);
          t := Apply(id, ts);
          assert old(recorded) + [id] + RulesOfAll(ts) == old(recorded) + ([id] + RulesOfAll(ts));
        }
    }

    /** Move along the children until the draw is used up, or to the last one. */
    method PickChild(b: nat, e: nat) returns (i: nat)
      requires Ready() && Siblings(nodes, b, e) && b < e
      ensures IsChild(nodes, b, e, i)
    {
      hide IsForest, Siblings, NodeOk, NonNegative, IsChild;
      i := b;
      SiblingParts(nodes, b, e);
      ChildParts(nodes, b, e);
      while true
        invariant b <= i < e && Siblings(nodes, i, e) && IsChild(nodes, b, e, i)
        invariant forall c :: IsChild(nodes, i, e, c) ==> IsChild(nodes, b, e, c)
        decreases e - i
      {
        var used: bool := *;
        if used { break; }
        SiblingParts(nodes, i, e);
        ChildParts(nodes, i, e);
        var n := nodes[i].next;
        if n == e { break; }
        SiblingParts(nodes, n, e);
        ChildParts(nodes, n, e);
        i := n;
      }
    }

    method ChooseKids(b: nat, e: nat) returns (ghost ts: seq<Tree>)
      requires Ready() && Siblings(nodes, b, e)
      modifies this`recorded
      ensures AreDerivs(nodes, b, e, ts) && recorded == old(recorded) + RulesOfAll(ts)
      decreases e, |nodes| - b, 2
    {
      if b == e { return []; }
      SiblingParts(nodes, b, e);
      hide IsForest, Siblings, NonNegative;
      ghost var t := ChooseRandom(b);
      ghost var rest := ChooseKids(nodes[b].next, e);
      ts := [t] + rest;
      assert ts[1..] == rest;
      assert old(recorded) + RulesOf(t) + RulesOfAll(rest) == old(recorded) + (RulesOf(t) + RulesOfAll(rest));
    }
  }

  lemma ChildParts(f: seq<ForestNode>, b: nat, e: nat)
    requires IsForest(f) && Siblings(f, b, e) && b < e && Siblings(f, f[b].next, e)
    ensures IsChild(f, b, e, b) && forall c :: IsChild(f, f[b].next, e, c) ==> IsChild(f, b, e, c)
  {
    NodeParts(f, b);
  }

  lemma OrIsBest(f: seq<ForestNode>, w: nat -> real, i: nat, x: real, c: nat)
    requires IsForest(f) && i < |f| && IsOr(f[i]) && Siblings(f, i + 1, f[i].next) && i + 1 < f[i].next
    requires x == BestAny(f, w, i + 1, f[i].next) && IsChild(f, i + 1, f[i].next, c) && Best(f, w, c) == x
    ensures IsBest(f, w, i, x, c)
  {}

  lemma AndIsBest(f: seq<ForestNode>, w: nat -> real, i: nat, x: real, c: nat)
    requires IsForest(f) && i < |f| && IsAnd(f[i]) && Siblings(f, i + 1, f[i].next)
    requires x == Mul(w(f[i].lab.id), BestAll(f, w, i + 1, f[i].next))
    ensures IsBest(f, w, i, x, c)
  {}

  lemma {:induction false} ChildCloses(f: seq<ForestNode>, b: nat, e: nat, c: nat)
    requires IsForest(f) && Siblings(f, b, e) && IsChild(f, b, e, c)
    ensures b <= c < e && f[c].next <= e
  {}
}
