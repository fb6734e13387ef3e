/** Derivation forests (forest-em/forest.hpp): a flat arena of nodes in preorder.  The descendants of a node lie
  * between it and its `next`; a node may instead refer back to a subforest that occurred before. */
module Forests {
  import opened Weights

  datatype Label = Rule(id: nat) | Ref(target: nat)
  datatype ForestNode = ForestNode(next: nat, lab: Label)

  /** Rule id 0 marks an OR node. */
  const OR_INT: nat := 0

  /** A derivation: the child picked at each OR node, the rule applied at each AND node. */
  datatype Tree = Pick(child: nat, sub: Tree) | Apply(rule: nat, kids: seq<Tree>)

  predicate IsOr(node: ForestNode) { node.lab == Rule(OR_INT) }

  predicate IsAnd(node: ForestNode) { node.lab.Rule? && node.lab.id != OR_INT }

  ghost predicate NodeOk(f: seq<ForestNode>, i: nat)
    requires i < |f|
  {
    && i < f[i].next <= |f|
    && (IsOr(f[i]) ==> i + 1 < f[i].next)
    && (f[i].lab.Ref? ==>
          var t := f[i].lab.target;
          f[i].next == i + 1 && t < i && f[t].lab.Rule? && f[t].next <= i)
  }

  /** Descendants nest, OR nodes have a child, and a reference goes to a node that closed before it. */
  ghost predicate IsForest(f: seq<ForestNode>) {
    && |f| > 0 && f[0].next == |f| && f[0].lab.Rule?
    && (forall i :: 0 <= i < |f| ==> NodeOk(f, i))
    && (forall i, j :: 0 <= i < j < |f| && j < f[i].next ==> f[j].next <= f[i].next)
  }

  /** b starts a child, or is the end e, of the list of children that ends at e. */
  ghost predicate Siblings(f: seq<ForestNode>, b: nat, e: nat)
    requires IsForest(f)
  {
    b <= e <= |f| && forall j :: b <= j < e ==> f[j].next <= e
  }

  // ----- derivations -----

  ghost predicate IsDeriv(f: seq<ForestNode>, i: nat, t: Tree)
    requires IsForest(f) && i < |f|
    decreases t, f[i].next, |f| - i
  {
    assert NodeOk(f, i);
    match f[i].lab
    case Ref(target) => IsDeriv(f, target, t)
    case Rule(id) =>
      if id == OR_INT then t.Pick? && IsChild(f, i + 1, f[i].next, t.child) && IsDeriv(f, t.child, t.sub)
      else t.Apply? && t.rule == id && AreDerivs(f, i + 1, f[i].next, t.kids)
  }

  ghost predicate AreDerivs(f: seq<ForestNode>, b: nat, e: nat, ts: seq<Tree>)
    requires IsForest(f) && Siblings(f, b, e)
    decreases ts, e, |f| - b
  {
    if b == e then ts == [] else
    |ts| > 0 && NodeOk(f, b) && IsDeriv(f, b, ts[0]) && AreDerivs(f, f[b].next, e, ts[1..])
  }

  ghost predicate IsChild(f: seq<ForestNode>, b: nat, e: nat, c: nat)
    requires IsForest(f) && Siblings(f, b, e)
    ensures IsChild(f, b, e, c) ==> b <= c < e
    decreases e - b
  {
    b < e && NodeOk(f, b) && (b == c || IsChild(f, f[b].next, e, c))
  }

  ghost function WeightOf(w: nat -> real, t: Tree): real {
    match t
    case Pick(_, sub) => WeightOf(w, sub)
    case Apply(rule, kids) => Mul(w(rule), WeightsOf(w, kids))
  }

  ghost function WeightsOf(w: nat -> real, ts: seq<Tree>): real {
    if |ts| == 0 then 1.0 else Mul(WeightOf(w, ts[0]), WeightsOf(w, ts[1..]))
  }

  /** The rules of a derivation in preorder. */
  ghost function RulesOf(t: Tree): seq<nat> {
    match t
    case Pick(_, sub) => RulesOf(sub)
    case Apply(rule, kids) => [rule] + RulesOfAll(kids)
  }

  ghost function RulesOfAll(ts: seq<Tree>): seq<nat> {
    if |ts| == 0 then [] else RulesOf(ts[0]) + RulesOfAll(ts[1..])
  }

  /** How often a derivation uses rule r. */
  ghost function Uses(r: nat, t: Tree): nat {
    match t
    case Pick(_, sub) => Uses(r, sub)
    case Apply(rule, kids) => (if rule == r then 1 else 0) + UsesAll(r, kids)
  }

  ghost function UsesAll(r: nat, ts: seq<Tree>): nat {
    if |ts| == 0 then 0 else Uses(r, ts[0]) + UsesAll(r, ts[1..])
  }

  lemma {:induction false} UsesCountsRules(r: nat, t: Tree)
    ensures Uses(r, t) == multiset(RulesOf(t))[r]
    decreases t, 0
  {
    match t
    case Pick(_, sub) => UsesCountsRules(r, sub);
    case Apply(rule, kids) => UsesCountsRulesAll(r, kids);
  }

  lemma {:induction false} UsesCountsRulesAll(r: nat, ts: seq<Tree>)
    ensures UsesAll(r, ts) == multiset(RulesOfAll(ts))[r]
    decreases ts
  {
    if |ts| > 0 {
      UsesCountsRules(r, ts[0]);
      UsesCountsRulesAll(r, ts[1..]);
    }
  }

  ghost function WeightsAlong(w: nat -> real, rules: seq<nat>): (r: seq<real>)
    ensures |r| == |rules|
  {
    seq(|rules|, i requires 0 <= i < |rules| => w(rules[i]))
  }

  /** The weight of a derivation is the product of the weights of its rules. */
  lemma {:induction false} WeightIsProduct(w: nat -> real, t: Tree)
    ensures WeightOf(w, t) == Product(WeightsAlong(w, RulesOf(t)))
    decreases t, 0
  {
    match t
    case Pick(_, sub) => WeightIsProduct(w, sub);
    case Apply(rule, kids) =>
      WeightsAreProduct(w, kids);
      assert WeightsAlong(w, RulesOf(t)) == [w(rule)] + WeightsAlong(w, RulesOfAll(kids));
      ProductCons(w(rule), WeightsAlong(w, RulesOfAll(kids)));
  }

  lemma {:induction false} WeightsAreProduct(w: nat -> real, ts: seq<Tree>)
    ensures WeightsOf(w, ts) == Product(WeightsAlong(w, RulesOfAll(ts)))
    decreases ts
  {
    if |ts| > 0 {
      WeightIsProduct(w, ts[0]);
      WeightsAreProduct(w, ts[1..]);
      assert WeightsAlong(w, RulesOfAll(ts)) == WeightsAlong(w, RulesOf(ts[0])) + WeightsAlong(w, RulesOfAll(ts[1..]));
      ProductConcat(WeightsAlong(w, RulesOf(ts[0])), WeightsAlong(w, RulesOfAll(ts[1..])));
    } else {
      assert WeightsAlong(w, RulesOfAll(ts)) == [];
    }
  }

  // ----- all derivations of a node, listed -----

  ghost function Picks(c: nat, ts: seq<Tree>): (r: seq<Tree>)
    ensures |r| == |ts|
  {
    if |ts| == 0 then [] else [Pick(c, ts[0])] + Picks(c, ts[1..])
  }

  ghost function Applies(rule: nat, tss: seq<seq<Tree>>): (r: seq<Tree>)
    ensures |r| == |tss|
  {
    if |tss| == 0 then [] else [Apply(rule, tss[0])] + Applies(rule, tss[1..])
  }

  ghost function InFront(t: Tree, tss: seq<seq<Tree>>): (r: seq<seq<Tree>>)
    ensures |r| == |tss|
  {
    if |tss| == 0 then [] else [[t] + tss[0]] + InFront(t, tss[1..])
  }

  ghost function Cross(ts: seq<Tree>, tss: seq<seq<Tree>>): seq<seq<Tree>> {
    if |ts| == 0 then [] else InFront(ts[0], tss) + Cross(ts[1..], tss)
  }

  ghost function Derivs(f: seq<ForestNode>, i: nat): seq<Tree>
    requires IsForest(f) && i < |f|
    decreases f[i].next, |f| - i, 1
  {
    assert NodeOk(f, i);
    match f[i].lab
    case Ref(target) => Derivs(f, target)
    case Rule(id) =>
      if id == OR_INT then Choices(f, i + 1, f[i].next) else Applies(id, Tuples(f, i + 1, f[i].next))
  }

  ghost function Choices(f: seq<ForestNode>, b: nat, e: nat): seq<Tree>
    requires IsForest(f) && Siblings(f, b, e)
    decreases e, |f| - b, 2
  {
    if b == e then [] else
    assert NodeOk(f, b); Picks(b, Derivs(f, b)) + Choices(f, f[b].next, e)
  }

  ghost function Tuples(f: seq<ForestNode>, b: nat, e: nat): seq<seq<Tree>>
    requires IsForest(f) && Siblings(f, b, e)
    decreases e, |f| - b, 2
  {
    if b == e then [[]] else
    assert NodeOk(f, b); Cross(Derivs(f, b), Tuples(f, f[b].next, e))
  }

  // ----- structure -----

  lemma NodeParts(f: seq<ForestNode>, i: nat)
    requires IsForest(f) && i < |f|
    ensures NodeOk(f, i) && i < f[i].next <= |f| && Siblings(f, i + 1, f[i].next)
    ensures IsOr(f[i]) ==> i + 1 < f[i].next
    ensures f[i].lab.Ref? ==> var t := f[i].lab.target; f[i].next == i + 1 && t < i && f[t].lab.Rule? && f[t].next <= i
  {
    assert NodeOk(f, i);
  }

  lemma SiblingParts(f: seq<ForestNode>, b: nat, e: nat)
    requires IsForest(f) && Siblings(f, b, e) && b < e
    ensures b < f[b].next <= e && Siblings(f, f[b].next, e)
  {
    assert NodeOk(f, b);
  }

  /** What closed before a descendant of i began, and began before i, closed before i. */
  lemma ClosedBefore(f: seq<ForestNode>, i: nat, b: nat)
    requires IsForest(f) && i < |f| && i < b < f[i].next
    ensures forall j :: 0 <= j < i && f[j].next <= b ==> f[j].next <= i
  {
    assert NodeOk(f, i);
  }
}
