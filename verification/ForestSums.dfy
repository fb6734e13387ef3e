/** Sums over derivations: the inside weight of a node, and the weight with which it uses a rule. */
module ForestSums {
  import opened Weights
  import opened Forests

  ghost function SumW(w: nat -> real, ts: seq<Tree>): real {
    if |ts| == 0 then 0.0 else WeightOf(w, ts[0]) + SumW(w, ts[1..])
  }

  ghost function SumK(w: nat -> real, tss: seq<seq<Tree>>): real {
    if |tss| == 0 then 0.0 else WeightsOf(w, tss[0]) + SumK(w, tss[1..])
  }

  /** The sum of weight times uses of rule r. */
  ghost function SumWU(w: nat -> real, r: nat, ts: seq<Tree>): real {
    if |ts| == 0 then 0.0 else Mul(WeightOf(w, ts[0]), Uses(r, ts[0]) as real) + SumWU(w, r, ts[1..])
  }

  ghost function SumKU(w: nat -> real, r: nat, tss: seq<seq<Tree>>): real {
    if |tss| == 0 then 0.0 else Mul(WeightsOf(w, tss[0]), UsesAll(r, tss[0]) as real) + SumKU(w, r, tss[1..])
  }

  lemma {:induction false} SumConcat(w: nat -> real, r: nat, xs: seq<Tree>, ys: seq<Tree>)
    ensures SumW(w, xs + ys) == SumW(w, xs) + SumW(w, ys)
    ensures SumWU(w, r, xs + ys) == SumWU(w, r, xs) + SumWU(w, r, ys)
  {
    hide Mul, WeightOf, Uses;
    if |xs| == 0 {
      assert xs + ys == ys;
    } else {
      SumConcat(w, r, xs[1..], ys);
      assert (xs + ys)[1..] == xs[1..] + ys;
    }
  }

  lemma {:induction false} SumTuplesConcat(w: nat -> real, r: nat, xs: seq<seq<Tree>>, ys: seq<seq<Tree>>)
    ensures SumK(w, xs + ys) == SumK(w, xs) + SumK(w, ys)
    ensures SumKU(w, r, xs + ys) == SumKU(w, r, xs) + SumKU(w, r, ys)
  {
    hide Mul, WeightsOf, UsesAll;
    if |xs| == 0 {
      assert xs + ys == ys;
    } else {
      SumTuplesConcat(w, r, xs[1..], ys);
      assert (xs + ys)[1..] == xs[1..] + ys;
    }
  }

  lemma {:induction false} SumPicks(w: nat -> real, r: nat, c: nat, ts: seq<Tree>)
    ensures SumW(w, Picks(c, ts)) == SumW(w, ts)
    ensures SumWU(w, r, Picks(c, ts)) == SumWU(w, r, ts)
  {
    hide Mul;
    if |ts| > 0 {
      SumPicks(w, r, c, ts[1..]);
      assert Picks(c, ts)[1..] == Picks(c, ts[1..]);
    }
  }

  lemma {:induction false} SumApplies(w: nat -> real, r: nat, id: nat, tss: seq<seq<Tree>>)
    ensures SumW(w, Applies(id, tss)) == Mul(w(id), SumK(w, tss))
    ensures SumWU(w, r, Applies(id, tss))
      == Mul(w(id), SumKU(w, r, tss)) + if id == r then Mul(w(id), SumK(w, tss)) else 0.0
  {
    hide Mul;
    MulZero(w(id));
    if |tss| > 0 {
      SumApplies(w, r, id, tss[1..]);
      assert Applies(id, tss)[1..] == Applies(id, tss[1..]);
      var x, u := WeightsOf(w, tss[0]), UsesAll(r, tss[0]) as real;
      MulDistributes(w(id), x, SumK(w, tss[1..]));
      MulDistributes(w(id), Mul(x, u), SumKU(w, r, tss[1..]));
      OneMoreUse(w(id), x, u);
    }
  }

  lemma OneMoreUse(p: real, x: real, u: real)
    ensures Mul(Mul(p, x), u) == Mul(p, Mul(x, u))
    ensures Mul(Mul(p, x), 1.0 + u) == Mul(p, Mul(x, u)) + Mul(p, x)
  {}

  lemma {:induction false} SumInFront(w: nat -> real, r: nat, t: Tree, tss: seq<seq<Tree>>)
    ensures SumK(w, InFront(t, tss)) == Mul(WeightOf(w, t), SumK(w, tss))
    ensures SumKU(w, r, InFront(t, tss))
      == Mul(WeightOf(w, t), SumKU(w, r, tss)) + Mul(Mul(WeightOf(w, t), Uses(r, t) as real), SumK(w, tss))
  {
    hide Mul;
    var p, n := WeightOf(w, t), Uses(r, t) as real;
    MulZero(p);
    MulZero(Mul(p, n));
    if |tss| > 0 {
      SumInFront(w, r, t, tss[1..]);
      assert InFront(t, tss)[1..] == InFront(t, tss[1..]) && ([t] + tss[0])[1..] == tss[0];
      var x, u := WeightsOf(w, tss[0]), UsesAll(r, tss[0]) as real;
      MulDistributes(p, x, SumK(w, tss[1..]));
      MulDistributes(p, Mul(x, u), SumKU(w, r, tss[1..]));
      MulDistributes(Mul(p, n), x, SumK(w, tss[1..]));
      UsesOfPair(p, n, x, u);
    }
  }

  lemma UsesOfPair(p: real, n: real, x: real, u: real)
    ensures Mul(Mul(p, x), n + u) == Mul(p, Mul(x, u)) + Mul(Mul(p, n), x)
  {}

  lemma {:induction false} SumCross(w: nat -> real, r: nat, ts: seq<Tree>, tss: seq<seq<Tree>>)
    ensures SumK(w, Cross(ts, tss)) == Mul(SumW(w, ts), SumK(w, tss))
    ensures SumKU(w, r, Cross(ts, tss)) == Mul(SumW(w, ts), SumKU(w, r, tss)) + Mul(SumWU(w, r, ts), SumK(w, tss))
  {
    hide Mul;
    MulZero(SumK(w, tss));
    MulZero(SumKU(w, r, tss));
    if |ts| > 0 {
      SumCross(w, r, ts[1..], tss);
      SumInFront(w, r, ts[0], tss);
      SumTuplesConcat(w, r, InFront(ts[0], tss), Cross(ts[1..], tss));
      var p, u := WeightOf(w, ts[0]), Mul(WeightOf(w, ts[0]), Uses(r, ts[0]) as real);
      MulDistributes(SumK(w, tss), p, SumW(w, ts[1..]));
      MulDistributes(SumKU(w, r, tss), p, SumW(w, ts[1..]));
      MulDistributes(SumK(w, tss), u, SumWU(w, r, ts[1..]));
    }
  }

  // ----- inside weights -----

  /** The sum over the derivations of node i of their weights, and of weight times uses of r. */
  ghost function Inside(f: seq<ForestNode>, w: nat -> real, i: nat): real
    requires IsForest(f) && i < |f|
  {
    SumW(w, Derivs(f, i))
  }

  ghost function Used(f: seq<ForestNode>, w: nat -> real, r: nat, i: nat): real
    requires IsForest(f) && i < |f|
  {
    SumWU(w, r, Derivs(f, i))
  }

  /** The same over choices among, and over tuples of derivations of, the children from b to e. */
  ghost function InsideAny(f: seq<ForestNode>, w: nat -> real, b: nat, e: nat): real
    requires IsForest(f) && Siblings(f, b, e)
  {
    SumW(w, Choices(f, b, e))
  }

  ghost function UsedAny(f: seq<ForestNode>, w: nat -> real, r: nat, b: nat, e: nat): real
    requires IsForest(f) && Siblings(f, b, e)
  {
    SumWU(w, r, Choices(f, b, e))
  }

  ghost function InsideAll(f: seq<ForestNode>, w: nat -> real, b: nat, e: nat): real
    requires IsForest(f) && Siblings(f, b, e)
  {
    SumK(w, Tuples(f, b, e))
  }

  ghost function UsedAll(f: seq<ForestNode>, w: nat -> real, r: nat, b: nat, e: nat): real
    requires IsForest(f) && Siblings(f, b, e)
  {
    SumKU(w, r, Tuples(f, b, e))
  }

  /** How the sums at a node come from those at its children. */
  lemma InsideNode(f: seq<ForestNode>, w: nat -> real, r: nat, i: nat)
    requires IsForest(f) && i < |f| && NodeOk(f, i)
    ensures f[i].lab.Ref? ==>
      Inside(f, w, i) == Inside(f, w, f[i].lab.target) && Used(f, w, r, i) == Used(f, w, r, f[i].lab.target)
    ensures IsOr(f[i]) ==>
      Inside(f, w, i) == InsideAny(f, w, i + 1, f[i].next) && Used(f, w, r, i) == UsedAny(f, w, r, i + 1, f[i].next)
    ensures IsAnd(f[i]) ==>
      var p := w(f[i].lab.id);
      && Inside(f, w, i) == Mul(p, InsideAll(f, w, i + 1, f[i].next))
      && Used(f, w, r, i) == Mul(p, UsedAll(f, w, r, i + 1, f[i].next)) + if f[i].lab.id == r then Inside(f, w, i) else 0.0
  {
    hide SumW, SumWU, SumK, SumKU, Mul;
    if IsAnd(f[i]) {
      SumApplies(w, r, f[i].lab.id, Tuples(f, i + 1, f[i].next));
    }
  }

  lemma InsideStep(f: seq<ForestNode>, w: nat -> real, r: nat, b: nat, e: nat)
    requires IsForest(f) && Siblings(f, b, e)
    ensures b == e ==> InsideAny(f, w, b, e) == 0.0 && UsedAny(f, w, r, b, e) == 0.0
    ensures b == e ==> InsideAll(f, w, b, e) == 1.0 && UsedAll(f, w, r, b, e) == 0.0
    ensures b < e ==> NodeOk(f, b) && Siblings(f, f[b].next, e)
    ensures b < e ==>
      var n := f[b].next;
      && InsideAny(f, w, b, e) == Inside(f, w, b) + InsideAny(f, w, n, e)
      && UsedAny(f, w, r, b, e) == Used(f, w, r, b) + UsedAny(f, w, r, n, e)
      && InsideAll(f, w, b, e) == Mul(Inside(f, w, b), InsideAll(f, w, n, e))
      && UsedAll(f, w, r, b, e)
         == Mul(Inside(f, w, b), UsedAll(f, w, r, n, e)) + Mul(Used(f, w, r, b), InsideAll(f, w, n, e))
  {
    if b == e {
      EmptySums(w, r);
    } else {
      hide SumW, SumWU, SumK, SumKU, Mul;
      assert NodeOk(f, b);
      var n := f[b].next;
      SumPicks(w, r, b, Derivs(f, b));
      SumConcat(w, r, Picks(b, Derivs(f, b)), Choices(f, n, e));
      SumCross(w, r, Derivs(f, b), Tuples(f, n, e));
    }
  }

  lemma EmptySums(w: nat -> real, r: nat)
    ensures SumW(w, []) == 0.0 && SumWU(w, r, []) == 0.0
    ensures SumK(w, [[]]) == 1.0 && SumKU(w, r, [[]]) == 0.0
  {
    var ts: seq<Tree> := [];
    assert [ts][1..] == [];
    assert SumK(w, []) == 0.0 && SumKU(w, r, []) == 0.0;
    MulZero(1.0);
  }

  // ----- non-negative rule weights -----

  ghost predicate NonNegative(w: nat -> real) {
    forall r :: w(r) >= 0.0
  }

  lemma {:induction false} WeightNonNegative(w: nat -> real, t: Tree)
    requires NonNegative(w)
    ensures WeightOf(w, t) >= 0.0
    decreases t, 0
  {
    hide Mul;
    match t
    case Pick(_, sub) => WeightNonNegative(w, sub);
    case Apply(rule, kids) =>
      WeightsNonNegative(w, kids);
      MulNonNegative(w(rule), WeightsOf(w, kids));
  }

  lemma {:induction false} WeightsNonNegative(w: nat -> real, ts: seq<Tree>)
    requires NonNegative(w)
    ensures WeightsOf(w, ts) >= 0.0
    decreases ts
  {
    hide Mul;
    if |ts| > 0 {
      WeightNonNegative(w, ts[0]);
      WeightsNonNegative(w, ts[1..]);
      MulNonNegative(WeightOf(w, ts[0]), WeightsOf(w, ts[1..]));
    }
  }

  /** If no derivation has weight, none contributes uses. */
  lemma {:induction false} SumZero(w: nat -> real, r: nat, ts: seq<Tree>)
    requires NonNegative(w)
    ensures SumW(w, ts) >= 0.0 && (SumW(w, ts) == 0.0 ==> SumWU(w, r, ts) == 0.0)
  {
    hide Mul;
    if |ts| > 0 {
      WeightNonNegative(w, ts[0]);
      SumZero(w, r, ts[1..]);
      MulZero(Uses(r, ts[0]) as real);
    }
  }
}
