/** The list of derivations that the sums range over is exact: it holds each derivation, once. */
module ForestLists {
  import opened Forests

  lemma {:induction false} InPicks(c: nat, ts: seq<Tree>, t: Tree)
    ensures t in Picks(c, ts) <==> t.Pick? && t.child == c && t.sub in ts
  {
    if |ts| > 0 {
      InPicks(c, ts[1..], t);
      assert ts == [ts[0]] + ts[1..];
    }
  }

  lemma {:induction false} InApplies(id: nat, tss: seq<seq<Tree>>, t: Tree)
    ensures t in Applies(id, tss) <==> t.Apply? && t.rule == id && t.kids in tss
  {
    if |tss| > 0 {
      InApplies(id, tss[1..], t);
      assert tss == [tss[0]] + tss[1..];
    }
  }

  lemma {:induction false} InInFront(x: Tree, tss: seq<seq<Tree>>, ts: seq<Tree>)
    ensures ts in InFront(x, tss) <==> |ts| > 0 && ts[0] == x && ts[1..] in tss
  {
    if |tss| > 0 {
      InInFront(x, tss[1..], ts);
      assert tss == [tss[0]] + tss[1..];
      assert ([x] + tss[0])[1..] == tss[0];
      assert |ts| > 0 ==> ts == [ts[0]] + ts[1..];
    }
  }

  lemma {:induction false} InCross(xs: seq<Tree>, tss: seq<seq<Tree>>, ts: seq<Tree>)
    ensures ts in Cross(xs, tss) <==> |ts| > 0 && ts[0] in xs && ts[1..] in tss
  {
    if |xs| > 0 {
      InCross(xs[1..], tss, ts);
      InInFront(xs[0], tss, ts);
      assert xs == [xs[0]] + xs[1..];
    }
  }

  /** Nothing is missing from the list, and nothing else is in it. */
  lemma {:induction false} DerivsExact(f: seq<ForestNode>, i: nat, t: Tree)
    requires IsForest(f) && i < |f|
    ensures t in Derivs(f, i) <==> IsDeriv(f, i, t)
    decreases f[i].next, |f| - i, 1
  {
    NodeParts(f, i);
    match f[i].lab
    case Ref(target) => DerivsExact(f, target, t);
    case Rule(id) =>
      if id == OR_INT {
        ChoicesExact(f, i + 1, f[i].next, t);
      } else {
        InApplies(id, Tuples(f, i + 1, f[i].next), t);
        if t.Apply? { TuplesExact(f, i + 1, f[i].next, t.kids); }
      }
  }

  lemma {:induction false} ChoicesExact(f: seq<ForestNode>, b: nat, e: nat, t: Tree)
    requires IsForest(f) && Siblings(f, b, e)
    ensures t in Choices(f, b, e) <==> t.Pick? && IsChild(f, b, e, t.child) && IsDeriv(f, t.child, t.sub)
    decreases e, |f| - b, 2
  {
    if b < e {
      SiblingParts(f, b, e);
      ChoicesExact(f, f[b].next, e, t);
      InPicks(b, Derivs(f, b), t);
      if t.Pick? { DerivsExact(f, b, t.sub); }
    }
  }

  lemma {:induction false} TuplesExact(f: seq<ForestNode>, b: nat, e: nat, ts: seq<Tree>)
    requires IsForest(f) && Siblings(f, b, e)
    ensures ts in Tuples(f, b, e) <==> AreDerivs(f, b, e, ts)
    decreases e, |f| - b, 2
  {
    if b < e {
      SiblingParts(f, b, e);
      InCross(Derivs(f, b), Tuples(f, f[b].next, e), ts);
      if |ts| > 0 {
        TuplesExact(f, f[b].next, e, ts[1..]);
        DerivsExact(f, b, ts[0]);
      }
    }
  }

  ghost predicate Distinct<T>(s: seq<T>) {
    forall i, j :: 0 <= i < j < |s| ==> s[i] != s[j]
  }

  lemma DistinctCons<T>(x: T, s: seq<T>)
    requires x !in s && Distinct(s)
    ensures Distinct([x] + s)
  {}

  lemma DistinctConcat<T>(s: seq<T>, t: seq<T>)
    requires Distinct(s) && Distinct(t) && forall x :: x in s ==> x !in t
    ensures Distinct(s + t)
  {
    forall i, j | 0 <= i < j < |s + t| ensures (s + t)[i] != (s + t)[j] {
      if i < |s| && |s| <= j { assert s[i] in s && t[j - |s|] in t; }
    }
  }

  lemma {:induction false} DistinctPicks(c: nat, ts: seq<Tree>)
    requires Distinct(ts)
    ensures Distinct(Picks(c, ts))
  {
    if |ts| > 0 {
      DistinctPicks(c, ts[1..]);
      InPicks(c, ts[1..], Pick(c, ts[0]));
      DistinctCons(Pick(c, ts[0]), Picks(c, ts[1..]));
    }
  }

  lemma {:induction false} DistinctApplies(id: nat, tss: seq<seq<Tree>>)
    requires Distinct(tss)
    ensures Distinct(Applies(id, tss))
  {
    if |tss| > 0 {
      DistinctApplies(id, tss[1..]);
      InApplies(id, tss[1..], Apply(id, tss[0]));
      DistinctCons(Apply(id, tss[0]), Applies(id, tss[1..]));
    }
  }

  lemma {:induction false} DistinctInFront(x: Tree, tss: seq<seq<Tree>>)
    requires Distinct(tss)
    ensures Distinct(InFront(x, tss))
  {
    if |tss| > 0 {
      DistinctInFront(x, tss[1..]);
      InInFront(x, tss[1..], [x] + tss[0]);
      assert ([x] + tss[0])[1..] == tss[0];
      DistinctCons([x] + tss[0], InFront(x, tss[1..]));
    }
  }

  lemma {:induction false} DistinctCross(xs: seq<Tree>, tss: seq<seq<Tree>>)
    requires Distinct(xs) && Distinct(tss)
    ensures Distinct(Cross(xs, tss))
  {
    if |xs| > 0 {
      DistinctCross(xs[1..], tss);
      DistinctInFront(xs[0], tss);
      forall ts | ts in InFront(xs[0], tss) ensures ts !in Cross(xs[1..], tss) {
        InInFront(xs[0], tss, ts);
        InCross(xs[1..], tss, ts);
      }
      DistinctConcat(InFront(xs[0], tss), Cross(xs[1..], tss));
    }
  }

  /** No derivation is counted twice. */
  lemma {:induction false} DerivsDistinct(f: seq<ForestNode>, i: nat)
    requires IsForest(f) && i < |f|
    ensures Distinct(Derivs(f, i))
    decreases f[i].next, |f| - i, 1
  {
    NodeParts(f, i);
    match f[i].lab
    case Ref(target) => DerivsDistinct(f, target);
    case Rule(id) =>
      if id == OR_INT {
        ChoicesDistinct(f, i + 1, f[i].next);
      } else {
        TuplesDistinct(f, i + 1, f[i].next);
        DistinctApplies(id, Tuples(f, i + 1, f[i].next));
      }
  }

  lemma {:induction false} ChoicesDistinct(f: seq<ForestNode>, b: nat, e: nat)
    requires IsForest(f) && Siblings(f, b, e)
    ensures Distinct(Choices(f, b, e))
    decreases e, |f| - b, 2
  {
    if b < e {
      SiblingParts(f, b, e);
      DerivsDistinct(f, b);
      ChoicesDistinct(f, f[b].next, e);
      DistinctPicks(b, Derivs(f, b));
      forall t | t in Picks(b, Derivs(f, b)) ensures t !in Choices(f, f[b].next, e) {
        InPicks(b, Derivs(f, b), t);
        ChoicesExact(f, f[b].next, e, t);
      }
      DistinctConcat(Picks(b, Derivs(f, b)), Choices(f, f[b].next, e));
    }
  }

  lemma {:induction false} TuplesDistinct(f: seq<ForestNode>, b: nat, e: nat)
    requires IsForest(f) && Siblings(f, b, e)
    ensures Distinct(Tuples(f, b, e))
    decreases e, |f| - b, 2
  {
    if b < e {
      SiblingParts(f, b, e);
      DerivsDistinct(f, b);
      TuplesDistinct(f, f[b].next, e);
      DistinctCross(Derivs(f, b), Tuples(f, f[b].next, e));
    }
  }
}
