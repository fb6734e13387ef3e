/** The passes of FForest over a forest (forest-em/forest.hpp): inside, norm_outside, expected counts. */
module ForestEm {
  import opened Weights
  import opened Forests
  import opened ForestSums
  import opened ForestOutside

  class Forest {
    const nodes: seq<ForestNode>
    const ruleWeights: nat -> real
    const inside: array<real>
    const normOutside: array<real>
    const counts: array<real>
    /** When a count cannot be added to without losing precision. */
    const nearLimit: real -> bool
    var order: seq<Link>
    var overflows: map<nat, real>

    ghost predicate Ready()
      reads this
    {
      && IsForest(nodes) && NonNegative(ruleWeights)
      && inside.Length == normOutside.Length == |nodes|
      && inside != normOutside && inside != counts && normOutside != counts
      && forall i :: 0 <= i < |nodes| && nodes[i].lab.Rule? ==> nodes[i].lab.id < counts.Length
    }

    constructor (nodes: seq<ForestNode>, ruleWeights: nat -> real, maxRuleId: nat, nearLimit: real -> bool)
      requires IsForest(nodes) && NonNegative(ruleWeights)
      requires forall i :: 0 <= i < |nodes| && nodes[i].lab.Rule? ==> nodes[i].lab.id <= maxRuleId
      ensures Ready() && this.nodes == nodes && this.ruleWeights == ruleWeights && this.nearLimit == nearLimit
      ensures order == [] && overflows == map[] && counts.Length == maxRuleId + 1
      ensures forall r :: 0 <= r <= maxRuleId ==> counts[r] == 0.0
      ensures fresh(inside) && fresh(normOutside) && fresh(counts)
    {
      this.nodes, this.ruleWeights, this.nearLimit := nodes, ruleWeights, nearLimit;
      inside, normOutside := new real[|nodes|], new real[|nodes|];
      counts := new real[maxRuleId + 1](_ => 0.0);
      order, overflows := [], map[];
    }

    /** The nodes that closed before b have their inside weights. */
    ghost predicate Computed(b: nat)
      requires Ready()
      reads this, inside
    {
      forall j :: 0 <= j < b && j < |nodes| && nodes[j].next <= b ==> inside[j] == Inside(nodes, ruleWeights, j)
    }

    // ----- inside -----

    method ComputeInside()
      requires Ready()
      modifies inside, this`order
      ensures order == Order(nodes, 0)
      ensures forall j :: 0 <= j < |nodes| ==> inside[j] == Inside(nodes, ruleWeights, j)
    {
      order := [];
      InsideRec(0);
    }

    /** Children of i up to b are done, and with them everything that closed before b. */
    lemma StillComputed(i: nat, b: nat)
      requires Ready() && i < |nodes| && i < b < nodes[i].next
      requires Computed(i) && forall j :: i < j < b && j < |nodes| ==> inside[j] == Inside(nodes, ruleWeights, j)
      ensures b < |nodes| && Computed(b)
    {
      NodeParts(nodes, i);
      ClosedBefore(nodes, i, b);
    }

    method InsideRec(b: nat)
      requires Ready() && b < |nodes| && Computed(b)
      modifies inside, this`order
      ensures forall j :: b <= j < nodes[b].next && j < |nodes| ==> inside[j] == Inside(nodes, ruleWeights, j)
      ensures forall j :: 0 <= j < |nodes| && !(b <= j < nodes[b].next) ==> inside[j] == old(inside[j])
      ensures order == old(order) + Order(nodes, b)
      decreases nodes[b].next, |nodes| - b, 1
    {
      hide Inside, InsideAny, InsideAll, Mul, Order, OrderKids, Links, IsForest, Siblings, NodeOk;
      NodeParts(nodes, b);
      InsideNode(nodes, ruleWeights, 0, b);
      OrderParts(nodes, b);
      match nodes[b].lab
      case Ref(shared) =>
        inside[b] := inside[shared];
      case Rule(id) =>
        if id == OR_INT {
          InsideOr(b);
        } else {
          InsideAnd(b);
        }
        ghost var at := inside[..];
        RecordLinks(b);
        assert inside[..] == at;
    }

    /** The inside pass over one child b of i. */
    method InsideChild(i: nat, b: nat, e: nat) returns (n: nat)
      requires Ready() && i < |nodes| && e == nodes[i].next && i < b < e && Computed(i) && Siblings(nodes, b, e)
      requires forall j :: i < j < b && j < |nodes| ==> inside[j] == Inside(nodes, ruleWeights, j)
      modifies inside, this`order
      ensures b < n <= e && n == nodes[b].next && Siblings(nodes, n, e)
      ensures forall j :: i < j < n && j < |nodes| ==> inside[j] == Inside(nodes, ruleWeights, j)
      ensures forall j :: 0 <= j < |nodes| && !(b <= j < n) ==> inside[j] == old(inside[j])
      ensures order + OrderKids(nodes, n, e) == old(order) + OrderKids(nodes, b, e)
      ensures InsideAny(nodes, ruleWeights, b, e) == inside[b] + InsideAny(nodes, ruleWeights, n, e)
      ensures InsideAll(nodes, ruleWeights, b, e) == Mul(inside[b], InsideAll(nodes, ruleWeights, n, e))
      decreases e, |nodes| - b, 2
    {
      hide Inside, InsideAny, InsideAll, Mul, Order, OrderKids, IsForest, Siblings, NodeOk;
      SiblingParts(nodes, b, e);
      InsideStep(nodes, ruleWeights, 0, b, e);
      OrderKidsParts(nodes, b, e);
      StillComputed(i, b);
      InsideRec(b);
      n := nodes[b].next;
      assert old(order) + (Order(nodes, b) + OrderKids(nodes, n, e)) == (old(order) + Order(nodes, b)) + OrderKids(nodes, n, e);
    }

    method InsideOr(i: nat)
      requires Ready() && i < |nodes| && NodeOk(nodes, i) && IsOr(nodes[i]) && Computed(i)
      modifies inside, this`order
      ensures forall j :: i < j < nodes[i].next && j < |nodes| ==> inside[j] == Inside(nodes, ruleWeights, j)
      ensures inside[i] == InsideAny(nodes, ruleWeights, i + 1, nodes[i].next)
      ensures forall j :: 0 <= j < |nodes| && !(i <= j < nodes[i].next) ==> inside[j] == old(inside[j])
      ensures order == old(order) + OrderKids(nodes, i + 1, nodes[i].next)
      decreases nodes[i].next, |nodes| - i, 0
    {
      hide Inside, InsideAny, InsideAll, Mul, Order, OrderKids, IsForest, Siblings, NodeOk;
      NodeParts(nodes, i);
      var e, b := nodes[i].next, i + 1;
      var n := InsideChild(i, b, e);
      inside[i] := inside[i + 1];
      b := n;
      while b < e
        invariant i + 1 < b <= e && Siblings(nodes, b, e)
        invariant forall j :: i < j < b ==> inside[j] == Inside(nodes, ruleWeights, j)
        invariant inside[i] + InsideAny(nodes, ruleWeights, b, e) == InsideAny(nodes, ruleWeights, i + 1, e)
        invariant forall j :: 0 <= j < |nodes| && !(i <= j < e) ==> inside[j] == old(inside[j])
        invariant order + OrderKids(nodes, b, e) == old(order) + OrderKids(nodes, i + 1, e)
      {
        n := InsideChild(i, b, e);
        inside[i] := inside[i] + inside[b];
        b := n;
      }
      InsideStep(nodes, ruleWeights, 0, e, e);
      NoKids(nodes, i, e);
    }

    method InsideAnd(i: nat)
      requires Ready() && i < |nodes| && NodeOk(nodes, i) && IsAnd(nodes[i]) && Computed(i)
      modifies inside, this`order
      ensures forall j :: i < j < nodes[i].next && j < |nodes| ==> inside[j] == Inside(nodes, ruleWeights, j)
      ensures inside[i] == Mul(ruleWeights(nodes[i].lab.id), InsideAll(nodes, ruleWeights, i + 1, nodes[i].next))
      ensures forall j :: 0 <= j < |nodes| && !(i <= j < nodes[i].next) ==> inside[j] == old(inside[j])
      ensures order == old(order) + OrderKids(nodes, i + 1, nodes[i].next)
      decreases nodes[i].next, |nodes| - i, 0
    {
      hide Inside, InsideAny, InsideAll, Mul, Order, OrderKids, IsForest, Siblings, NodeOk;
      NodeParts(nodes, i);
      var e, b := nodes[i].next, i + 1;
      ghost var p := ruleWeights(nodes[i].lab.id);
      inside[i] := ruleWeights(nodes[i].lab.id);
      while b < e
        invariant i + 1 <= b <= e && Siblings(nodes, b, e)
        invariant forall j :: i < j < b ==> inside[j] == Inside(nodes, ruleWeights, j)
        invariant Mul(inside[i], InsideAll(nodes, ruleWeights, b, e)) == Mul(p, InsideAll(nodes, ruleWeights, i + 1, e))
        invariant forall j :: 0 <= j < |nodes| && !(i <= j < e) ==> inside[j] == old(inside[j])
        invariant order + OrderKids(nodes, b, e) == old(order) + OrderKids(nodes, i + 1, e)
      {
        var n := InsideChild(i, b, e);
        MulAssoc(inside[i], inside[b], InsideAll(nodes, ruleWeights, n, e));
        inside[i] := Times(inside[i], inside[b]);
        b := n;
      }
      InsideStep(nodes, ruleWeights, 0, e, e);
      NoKids(nodes, i, e);
      MulUnit(inside[i]);
    }

    /** Queue up the links of a parent to its children, references resolved. */
    method RecordLinks(parent: nat)
      requires Ready() && parent < |nodes| && NodeOk(nodes, parent) && nodes[parent].lab.Rule?
      modifies this`order
      ensures order == old(order) + Links(nodes, parent, parent + 1, nodes[parent].next)
    {
      hide Links, IsForest, Siblings, NodeOk;
      NodeParts(nodes, parent);
      var e, b := nodes[parent].next, parent + 1;
      while b < e
        invariant parent + 1 <= b <= e && Siblings(nodes, b, e)
        invariant order + Links(nodes, parent, b, e) == old(order) + Links(nodes, parent, parent + 1, e)
      {
        SiblingParts(nodes, b, e);
        LinksParts(nodes, parent, b, e);
        order := order + [Link(parent, Resolve(nodes, b))];
        b := nodes[b].next;
      }
      NoKids(nodes, parent, e);
    }
  
    // ----- norm_outside -----

    /** Every derivation's uses of every rule are still accounted for with the first t links unread. */
    ghost predicate Conserved(t: nat)
      requires Ready()
      reads this, normOutside
    {
      && t <= |order| && order == Order(nodes, 0) && AllLinksOk(nodes, order[..t])
      && forall r :: Mul(Inside(nodes, ruleWeights, 0), Potential(nodes, ruleWeights, r, normOutside[..], order[..t]))
                  == Used(nodes, ruleWeights, r, 0)
    }

    ghost predicate AllInside()
      requires Ready()
      reads this, inside
    {
      order == Order(nodes, 0) && forall j :: 0 <= j < |nodes| ==> inside[j] == Inside(nodes, ruleWeights, j)
    }

    /** False, and nothing done, if the forest has no weight. */
    method ComputeNormOutside() returns (ok: bool)
      requires Ready() && AllInside()
      modifies normOutside
      ensures ok <==> inside[0] > 0.0
      ensures ok ==> Conserved(0)
      ensures !ok ==> normOutside[..] == old(normOutside[..])
    {
      if !(inside[0] > 0.0) { return false; }
      hide Inside, Used, Mul, Potential, LinkOk, IsForest, NonNegative, Divides, Share, Div;
      StartOutside();
      var t: int := |order|;
      WholeOrder();
      while t > 0
        invariant 0 <= t <= |order| && Conserved(t)
      {
        ReadOne(t);
        t := t - 1;
      }
      ok := true;
    }

    lemma WholeOrder()
      requires Ready() && order == Order(nodes, 0)
      ensures order[..|order|] == order
    {}

    method StartOutside()
      requires Ready() && AllInside() && inside[0] > 0.0
      modifies normOutside
      ensures Conserved(|order|)
    {
      hide Inside, Used, Mul, Div, Potential, LinkOk, NonNegative;
      normOutside[0] := Div(1.0, inside[0]);
      for i := 1 to |nodes|
        invariant normOutside[0] == Div(1.0, Inside(nodes, ruleWeights, 0))
        invariant forall q :: 1 <= q < i ==> normOutside[q] == 0.0
      {
        normOutside[i] := 0.0;
      }
      assert order[..|order|] == order;
      forall r
        ensures AllLinksOk(nodes, order)
        ensures Mul(Inside(nodes, ruleWeights, 0), Potential(nodes, ruleWeights, r, normOutside[..], order)) == Used(nodes, ruleWeights, r, 0)
      {
        PotentialStart(nodes, ruleWeights, r, normOutside[..]);
      }
      PotentialStart(nodes, ruleWeights, 0, normOutside[..]);
    }

    /** Add to the norm_outside of the child of link t - 1. */
    method ReadOne(t: nat)
      requires Ready() && AllInside() && 0 < t <= |order| && Conserved(t)
      modifies normOutside
      ensures Conserved(t - 1)
    {
      hide Used, Mul, Div, Potential, IsForest, NonNegative, Order, Inside;
      var p, c := order[t - 1].parent, order[t - 1].child;
      ghost var l, out := order[t - 1], normOutside[..];
      assert order[..t][t - 1] == l && LinkOk(nodes, l);
      LinkEnds(nodes, l);
      OrderDivides(nodes, ruleWeights, 0);
      assert Divides(nodes, ruleWeights, l);
      ReadLink(nodes, ruleWeights, t, out, Share(nodes, ruleWeights, l));
      ghost var share := Share(nodes, ruleWeights, l);
      if IsOr(nodes[p]) {
        MulUnit(out[p]);
        normOutside[c] := normOutside[c] + normOutside[p];
      } else if inside[p] != 0.0 {
        assert share == Div(inside[p], inside[c]);
        MulDiv(out[p], inside[p], inside[c]);
        normOutside[c] := normOutside[c] + Div(Times(normOutside[p], inside[p]), inside[c]);
      } else {
        assert share == 0.0;
        MulZero(out[p]);
      }
      assert normOutside[c] == out[c] + Mul(out[p], share);
      assert normOutside[..] == out[c := normOutside[c]];
    }
  
    // ----- expected counts -----

    /** What was counted for rule r, the part that spilled over included. */
    ghost function Tally(r: nat): real
      requires r < counts.Length
      reads this, counts
    {
      counts[r] + if r in overflows then overflows[r] else 0.0
    }

    ghost predicate SpillOk()
      reads this
    {
      forall r :: r in overflows ==> r < counts.Length
    }

    method Accumulate(rule: nat, x: real, y: real)
      requires rule < counts.Length && SpillOk()
      modifies this`overflows, counts
      ensures SpillOk() && Tally(rule) == old(Tally(rule)) + Mul(x, y)
      ensures forall r :: 0 <= r < counts.Length && r != rule ==> Tally(r) == old(Tally(r))
    {
      hide Mul;
      if nearLimit(counts[rule]) {
        overflows := overflows[rule := counts[rule] + if rule in overflows then overflows[rule] else 0.0];
        counts[rule] := Times(x, y);
      } else {
        counts[rule] := counts[rule] + Times(x, y);
      }
    }

    /** Every AND node adds inside times norm_outside to the count of its rule. */
    method VisitInsideNormOutside()
      requires Ready() && AllInside() && SpillOk()
      modifies this`overflows, counts
      ensures SpillOk()
      ensures forall r :: 0 <= r < counts.Length ==>
        Tally(r) == old(Tally(r)) + Collected(nodes, ruleWeights, r, normOutside[..], |nodes|)
    {
      hide Inside, Mul, IsForest, NonNegative, Order;
      for i := 0 to |nodes|
        invariant SpillOk() && AllInside()
        invariant forall r :: 0 <= r < counts.Length ==>
          Tally(r) == old(Tally(r)) + Collected(nodes, ruleWeights, r, normOutside[..], i)
      {
        if nodes[i].lab.Rule? {
          var rule := nodes[i].lab.id;
          if rule != OR_INT {
            Accumulate(rule, inside[i], normOutside[i]);
          }
        }
      }
    }

    /** Expected counts are exact: what one forest adds to the tally of rule r, times the weight of the forest, is
      * the sum over all derivations of weight times uses of r. */
    method CollectCounts() returns (ok: bool)
      requires Ready() && AllInside() && SpillOk()
      modifies this`overflows, counts, normOutside
      ensures SpillOk() && (ok <==> Inside(nodes, ruleWeights, 0) > 0.0)
      ensures !ok ==> forall r :: 0 <= r < counts.Length ==> Tally(r) == old(Tally(r))
      ensures ok ==> forall r :: 0 <= r < counts.Length ==>
        Mul(Inside(nodes, ruleWeights, 0), Tally(r) - old(Tally(r))) == Used(nodes, ruleWeights, r, 0)
    {
      hide Inside, Used, Mul, NonNegative, Order, Potential, Collected, LinkOk;
      ok := ComputeNormOutside();
      if ok {
        assert order[..0] == [];
        ghost var out := normOutside[..];
        label Outside:
        VisitInsideNormOutside();
        assert normOutside[..] == out;
        forall r | 0 <= r < counts.Length
          ensures Mul(Inside(nodes, ruleWeights, 0), Tally(r) - old(Tally(r))) == Used(nodes, ruleWeights, r, 0)
        {
          PotentialEnd(nodes, ruleWeights, r, out);
          assert Tally(r) == old@Outside(Tally(r)) + Collected(nodes, ruleWeights, r, out, |nodes|);
          assert old@Outside(Tally(r)) == old(Tally(r));
        }
      }
    }

    /** Put the spilled counts back. */
    method FinishCounts()
      requires SpillOk()
      modifies this`overflows, counts
      ensures overflows == map[] && forall r :: 0 <= r < counts.Length ==> counts[r] == old(Tally(r))
    {
      var todo := overflows.Keys;
      while todo != {}
        invariant todo <= overflows.Keys && overflows == old(overflows)
        invariant forall r :: 0 <= r < counts.Length ==>
          counts[r] == if r in overflows && r !in todo then old(Tally(r)) else old(counts[r])
      {
        var rule :| rule in todo;
        counts[rule] := counts[rule] + overflows[rule];
        todo := todo - {rule};
      }
      overflows := map[];
    }

    /** The three passes over one forest. */
    method ExpectedCounts() returns (ok: bool)
      requires Ready() && overflows == map[]
      modifies this`order, this`overflows, inside, normOutside, counts
      ensures overflows == map[] && (ok <==> Inside(nodes, ruleWeights, 0) > 0.0)
      ensures !ok ==> counts[..] == old(counts[..])
      ensures ok ==> forall r :: 0 <= r < counts.Length ==>
        Mul(SumW(ruleWeights, Derivs(nodes, 0)), counts[r] - old(counts[r])) == SumWU(ruleWeights, r, Derivs(nodes, 0))
    {
      hide SumW, SumWU, Mul, NonNegative, Order;
      ComputeInside();
      assert forall r :: 0 <= r < counts.Length ==> Tally(r) == old(counts[r]);
      ok := CollectCounts();
      FinishCounts();
    }
  }
}
