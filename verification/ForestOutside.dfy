/** Why reading the recorded parent-child links backwards gives exact expected counts: no link is read before all
  * links into its parent, and reading a link keeps a potential constant. */
module ForestOutside {
  import opened Weights
  import opened Forests
  import opened ForestSums

  datatype Link = Link(parent: nat, child: nat)

  /** The node that a child stands for: itself, or what it refers back to. */
  function Resolve(f: seq<ForestNode>, b: nat): nat
    requires b < |f|
  {
    if f[b].lab.Ref? then f[b].lab.target else b
  }

  /** The links of p to its children from b to e. */
  ghost function Links(f: seq<ForestNode>, p: nat, b: nat, e: nat): seq<Link>
    requires IsForest(f) && Siblings(f, b, e)
    decreases e - b
  {
    if b == e then [] else assert NodeOk(f, b); [Link(p, Resolve(f, b))] + Links(f, p, f[b].next, e)
  }

  /** The order in which the inside pass records links: those below a node before its own. */
  ghost function Order(f: seq<ForestNode>, i: nat): seq<Link>
    requires IsForest(f) && i < |f|
    decreases f[i].next, |f| - i, 0
  {
    if f[i].lab.Ref? then [] else
    assert NodeOk(f, i); OrderKids(f, i + 1, f[i].next) + Links(f, i, i + 1, f[i].next)
  }

  ghost function OrderKids(f: seq<ForestNode>, b: nat, e: nat): seq<Link>
    requires IsForest(f) && Siblings(f, b, e)
    decreases e, |f| - b, 1
  {
    if b == e then [] else assert NodeOk(f, b); Order(f, b) + OrderKids(f, f[b].next, e)
  }

  /** x closes before y does. */
  ghost predicate Before(f: seq<ForestNode>, x: nat, y: nat)
    requires x < |f| && y < |f|
  {
    f[x].next < f[y].next || (f[x].next == f[y].next && x > y)
  }

  ghost predicate LinkOk(f: seq<ForestNode>, l: Link) {
    && l.parent < |f| && l.child < |f| && f[l.parent].lab.Rule? && f[l.child].lab.Rule?
    && Before(f, l.child, l.parent)
  }

  /** Links between nodes that close in order, with parents from lo to hi. */
  ghost predicate OrderOk(f: seq<ForestNode>, o: seq<Link>, lo: nat, hi: nat) {
    && (forall s :: 0 <= s < |o| ==> LinkOk(f, o[s]) && lo <= o[s].parent < hi)
    && (forall s, t :: 0 <= s < t < |o| && o[s].parent < |f| && o[t].parent < |f| && o[s].parent != o[t].parent ==>
          Before(f, o[s].parent, o[t].parent))
  }

  lemma {:induction false} LinksOk(f: seq<ForestNode>, p: nat, b: nat, e: nat)
    requires IsForest(f) && p < b && Siblings(f, b, e) && e == f[p].next && p < |f| && f[p].lab.Rule?
    ensures OrderOk(f, Links(f, p, b, e), p, p + 1)
    decreases e - b
  {
    if b < e {
      assert NodeOk(f, b) && NodeOk(f, p);
      LinksOk(f, p, f[b].next, e);
    }
  }

  lemma OrderOkConcat(f: seq<ForestNode>, o: seq<Link>, lo: nat, mid: nat, o': seq<Link>, mid': nat, hi: nat)
    requires OrderOk(f, o, lo, mid) && OrderOk(f, o', mid', hi)
    requires mid <= |f| && hi <= |f| && forall x, y :: lo <= x < mid && mid' <= y < hi ==> Before(f, x, y)
    ensures OrderOk(f, o + o', if lo < mid' then lo else mid', if mid < hi then hi else mid)
  {
    hide Before, LinkOk;
    assert forall s :: 0 <= s < |o| ==> LinkOk(f, o[s]);
    assert forall s :: 0 <= s < |o'| ==> LinkOk(f, o'[s]);
  }

  lemma {:induction false} OrderIsOk(f: seq<ForestNode>, i: nat)
    requires IsForest(f) && i < |f|
    ensures OrderOk(f, Order(f, i), i, f[i].next)
    decreases f[i].next, |f| - i, 0
  {
    assert NodeOk(f, i);
    if f[i].lab.Rule? {
      OrderKidsOk(f, i + 1, f[i].next);
      LinksOk(f, i, i + 1, f[i].next);
      OrderOkConcat(f, OrderKids(f, i + 1, f[i].next), i + 1, f[i].next, Links(f, i, i + 1, f[i].next), i, i + 1);
    }
  }

  lemma {:induction false} OrderKidsOk(f: seq<ForestNode>, b: nat, e: nat)
    requires IsForest(f) && Siblings(f, b, e)
    ensures OrderOk(f, OrderKids(f, b, e), b, e)
    decreases e, |f| - b, 1
  {
    if b < e {
      assert NodeOk(f, b);
      OrderIsOk(f, b);
      OrderKidsOk(f, f[b].next, e);
      forall x, y | b <= x < f[b].next && f[b].next <= y < e ensures Before(f, x, y) {
        assert NodeOk(f, y);
      }
      OrderOkConcat(f, Order(f, b), b, f[b].next, OrderKids(f, f[b].next, e), f[b].next, e);
    }
  }

  /** No link is read (backwards) before a link whose child is its parent. */
  lemma OrderTopological(f: seq<ForestNode>, o: seq<Link>, lo: nat, hi: nat, t: nat)
    requires OrderOk(f, o, lo, hi) && t < |o|
    ensures forall s :: t <= s < |o| ==> o[s].parent != o[t].child
  {
    assert LinkOk(f, o[t]);
    forall s | t <= s < |o| ensures o[s].parent != o[t].child {
      assert LinkOk(f, o[s]);
    }
  }

  // ----- what links carry -----

  /** The part of the parent's norm_outside that a link adds to its child's. */
  ghost function Share(f: seq<ForestNode>, w: nat -> real, l: Link): real
    requires IsForest(f) && LinkOk(f, l)
  {
    if IsOr(f[l.parent]) then 1.0
    else if Inside(f, w, l.parent) == 0.0 || Inside(f, w, l.child) == 0.0 then 0.0
    else Div(Inside(f, w, l.parent), Inside(f, w, l.child))
  }

  ghost predicate AllLinksOk(f: seq<ForestNode>, o: seq<Link>) {
    forall s :: 0 <= s < |o| ==> LinkOk(f, o[s])
  }

  /** The uses of r that the links of parent q account for. */
  ghost function LinkUsed(f: seq<ForestNode>, w: nat -> real, r: nat, o: seq<Link>, q: nat): real
    requires IsForest(f) && AllLinksOk(f, o)
  {
    if |o| == 0 then 0.0 else
    var l := o[|o| - 1];
    LinkUsed(f, w, r, o[..|o| - 1], q) + OneLinkUsed(f, w, r, l, q)
  }

  ghost function OneLinkUsed(f: seq<ForestNode>, w: nat -> real, r: nat, l: Link, q: nat): real
    requires IsForest(f) && LinkOk(f, l)
  {
    if l.parent == q then Mul(Share(f, w, l), Used(f, w, r, l.child)) else 0.0
  }

  lemma LinkUsedLast(f: seq<ForestNode>, w: nat -> real, r: nat, o: seq<Link>, q: nat)
    requires IsForest(f) && AllLinksOk(f, o) && |o| > 0
    ensures AllLinksOk(f, o[..|o| - 1]) && LinkOk(f, o[|o| - 1])
    ensures LinkUsed(f, w, r, o, q) == LinkUsed(f, w, r, o[..|o| - 1], q) + OneLinkUsed(f, w, r, o[|o| - 1], q)
  {
    hide LinkOk, IsForest, OneLinkUsed;
  }

  lemma {:induction false} LinkUsedConcat(f: seq<ForestNode>, w: nat -> real, r: nat, o: seq<Link>, o': seq<Link>, q: nat)
    requires IsForest(f) && AllLinksOk(f, o) && AllLinksOk(f, o')
    ensures AllLinksOk(f, o + o')
    ensures LinkUsed(f, w, r, o + o', q) == LinkUsed(f, w, r, o, q) + LinkUsed(f, w, r, o', q)
    decreases |o'|
  {
    hide LinkUsed, OneLinkUsed, LinkOk, IsForest;
    if |o'| == 0 {
      assert o + o' == o && o' == [];
      NothingUsed(f, w, r, q);
    } else {
      var n := |o'| - 1;
      LinkUsedLast(f, w, r, o', q);
      LinkUsedLast(f, w, r, o + o', q);
      LinkUsedConcat(f, w, r, o, o'[..n], q);
      assert (o + o')[..|o| + n] == o + o'[..n];
    }
  }

  lemma {:induction false} LinkUsedNone(f: seq<ForestNode>, w: nat -> real, r: nat, o: seq<Link>, q: nat)
    requires IsForest(f) && AllLinksOk(f, o) && forall s :: 0 <= s < |o| ==> o[s].parent != q
    ensures LinkUsed(f, w, r, o, q) == 0.0
  {
    hide Share, Used, Mul, LinkOk;
    if |o| > 0 {
      LinkUsedNone(f, w, r, o[..|o| - 1], q);
    }
  }

  lemma LinkUsedOne(f: seq<ForestNode>, w: nat -> real, r: nat, l: Link)
    requires IsForest(f) && LinkOk(f, l)
    ensures LinkUsed(f, w, r, [l], l.parent) == Mul(Share(f, w, l), Used(f, w, r, l.child))
  {
    hide Share, Used, Mul, LinkOk;
    assert [l][..0] == [];
  }

  /** An OR node passes on its whole norm_outside to each child. */
  lemma {:induction false} OrLinks(f: seq<ForestNode>, w: nat -> real, r: nat, p: nat, b: nat, e: nat)
    requires IsForest(f) && p < b && Siblings(f, b, e) && e == f[p].next && p < |f| && IsOr(f[p])
    ensures AllLinksOk(f, Links(f, p, b, e))
    ensures LinkUsed(f, w, r, Links(f, p, b, e), p) == UsedAny(f, w, r, b, e)
    decreases e - b
  {
    hide Inside, Used, UsedAny, InsideAny, InsideAll, UsedAll, Mul, NodeOk;
    LinksOk(f, p, b, e);
    InsideStep(f, w, r, b, e);
    if b < e {
      var l, n := Link(p, Resolve(f, b)), f[b].next;
      NodeBounds(f, b);
      OrLinks(f, w, r, p, n, e);
      assert Links(f, p, b, e) == [l] + Links(f, p, n, e);
      assert Links(f, p, b, e)[0] == l;
      LinkUsedConcat(f, w, r, [l], Links(f, p, n, e), p);
      LinkUsedOne(f, w, r, l);
      InsideNode(f, w, r, b);
      MulUnit(Used(f, w, r, l.child));
    }
  }

  lemma NodeBounds(f: seq<ForestNode>, i: nat)
    requires i < |f| && NodeOk(f, i)
    ensures i < f[i].next <= |f|
    ensures f[i].lab.Ref? ==> f[i].lab.target < i && f[f[i].lab.target].lab.Rule?
  {}

  /** An AND node passes on to each child the product of the others. */
  lemma {:induction false} AndLinks(f: seq<ForestNode>, w: nat -> real, r: nat, p: nat, b: nat, e: nat)
    requires IsForest(f) && p < b && Siblings(f, b, e) && e == f[p].next && p < |f| && IsAnd(f[p])
    requires Inside(f, w, p) != 0.0 && InsideAll(f, w, b, e) != 0.0
    ensures AllLinksOk(f, Links(f, p, b, e))
    ensures LinkUsed(f, w, r, Links(f, p, b, e), p)
         == Mul(Div(Inside(f, w, p), InsideAll(f, w, b, e)), UsedAll(f, w, r, b, e))
    decreases e - b
  {
    hide Inside, Used, UsedAny, InsideAny, InsideAll, UsedAll, Mul, Div, IsForest, LinkOk, LinkUsed, Links;
    LinksOk(f, p, b, e);
    InsideStep(f, w, r, b, e);
    var P := Inside(f, w, p);
    if b == e {
      NoKids(f, p, e);
      NothingUsed(f, w, r, p);
      MulZero(Div(P, InsideAll(f, w, b, e)));
    } else {
      SiblingParts(f, b, e);
      NodeParts(f, b);
      var l, n := Link(p, Resolve(f, b)), f[b].next;
      NodeBounds(f, b);
      LinksParts(f, p, b, e);
      MulNotZero(Inside(f, w, b), InsideAll(f, w, n, e));
      AndLinks(f, w, r, p, n, e);
      assert Links(f, p, b, e)[0] == l;
      LinkUsedConcat(f, w, r, [l], Links(f, p, n, e), p);
      LinkUsedOne(f, w, r, l);
      InsideNode(f, w, r, b);
      DivProduct(P, Inside(f, w, b), InsideAll(f, w, n, e), UsedAll(f, w, r, n, e), Used(f, w, r, b));
    }
  }

  /** The part of a node's uses of r that is its own. */
  ghost function OwnUse(f: seq<ForestNode>, w: nat -> real, r: nat, i: nat): real
    requires IsForest(f) && i < |f|
  {
    if IsAnd(f[i]) && f[i].lab.id == r then Inside(f, w, i) else 0.0
  }

  lemma {:induction false} ZeroLinks(f: seq<ForestNode>, w: nat -> real, r: nat, p: nat, b: nat, e: nat)
    requires IsForest(f) && p < b && Siblings(f, b, e) && e == f[p].next && p < |f| && IsAnd(f[p])
    requires Inside(f, w, p) == 0.0
    ensures AllLinksOk(f, Links(f, p, b, e)) && LinkUsed(f, w, r, Links(f, p, b, e), p) == 0.0
    decreases e - b
  {
    hide Inside, Used, Mul, NodeOk;
    LinksOk(f, p, b, e);
    if b < e {
      var l, n := Link(p, Resolve(f, b)), f[b].next;
      InsideStep(f, w, r, b, e);
      NodeBounds(f, b);
      ZeroLinks(f, w, r, p, n, e);
      assert Links(f, p, b, e) == [l] + Links(f, p, n, e);
      assert Links(f, p, b, e)[0] == l;
      LinkUsedConcat(f, w, r, [l], Links(f, p, n, e), p);
      LinkUsedOne(f, w, r, l);
      MulZero(Used(f, w, r, l.child));
    }
  }

  /** The links of a node account for the uses of r below it. */
  lemma NodeLinks(f: seq<ForestNode>, w: nat -> real, r: nat, p: nat)
    requires IsForest(f) && p < |f| && NodeOk(f, p) && f[p].lab.Rule? && NonNegative(w)
    ensures AllLinksOk(f, Links(f, p, p + 1, f[p].next))
    ensures LinkUsed(f, w, r, Links(f, p, p + 1, f[p].next), p) + OwnUse(f, w, r, p) == Used(f, w, r, p)
  {
    var e := f[p].next;
    InsideNode(f, w, r, p);
    if IsOr(f[p]) {
      OrLinks(f, w, r, p, p + 1, e);
    } else if Inside(f, w, p) == 0.0 {
      ZeroLinks(f, w, r, p, p + 1, e);
      SumZero(w, r, Derivs(f, p));
    } else {
      hide Inside, Used, InsideAll, UsedAll, Mul, Div;
      var v, k := w(f[p].lab.id), InsideAll(f, w, p + 1, e);
      MulNotZero(v, k);
      AndLinks(f, w, r, p, p + 1, e);
      DivUnique(Inside(f, w, p), k, v);
    }
  }

  lemma {:induction false} OrderUsed(f: seq<ForestNode>, w: nat -> real, r: nat, i: nat, q: nat)
    requires IsForest(f) && i < |f| && q < |f| && NonNegative(w)
    ensures AllLinksOk(f, Order(f, i))
    ensures LinkUsed(f, w, r, Order(f, i), q)
         == if i <= q < f[i].next && f[q].lab.Rule? then Used(f, w, r, q) - OwnUse(f, w, r, q) else 0.0
    decreases f[i].next, |f| - i, 0
  {
    hide Used, Mul, Share, LinkOk, IsForest, Siblings, LinkUsed, OrderOk;
    OrderIsOk(f, i);
    OrderLinksOk(f, i);
    NodeParts(f, i);
    OrderParts(f, i);
    var e := f[i].next;
    if f[i].lab.Rule? {
      OrderKidsUsed(f, w, r, i + 1, e, q);
      NodeLinks(f, w, r, i);
      LinksOk(f, i, i + 1, e);
      LinkUsedConcat(f, w, r, OrderKids(f, i + 1, e), Links(f, i, i + 1, e), q);
      if q != i {
        LinkUsedNone(f, w, r, Links(f, i, i + 1, e), q);
      }
    } else {
      NothingUsed(f, w, r, q);
    }
  }

  lemma OrderLinksOk(f: seq<ForestNode>, i: nat)
    requires IsForest(f) && i < |f| && OrderOk(f, Order(f, i), i, f[i].next)
    ensures AllLinksOk(f, Order(f, i))
  {
    hide LinkOk, Order;
  }

  lemma NothingUsed(f: seq<ForestNode>, w: nat -> real, r: nat, q: nat)
    requires IsForest(f)
    ensures LinkUsed(f, w, r, [], q) == 0.0
  {}

  lemma {:induction false} OrderKidsUsed(f: seq<ForestNode>, w: nat -> real, r: nat, b: nat, e: nat, q: nat)
    requires IsForest(f) && Siblings(f, b, e) && q < |f| && NonNegative(w)
    ensures AllLinksOk(f, OrderKids(f, b, e))
    ensures LinkUsed(f, w, r, OrderKids(f, b, e), q)
         == if b <= q < e && f[q].lab.Rule? then Used(f, w, r, q) - OwnUse(f, w, r, q) else 0.0
    decreases e, |f| - b, 1
  {
    hide Used, OwnUse, Mul, Share, LinkOk;
    if b < e {
      assert NodeOk(f, b);
      OrderUsed(f, w, r, b, q);
      OrderKidsUsed(f, w, r, f[b].next, e, q);
      LinkUsedConcat(f, w, r, Order(f, b), OrderKids(f, f[b].next, e), q);
    }
  }

  // ----- the potential -----

  /** What node q contributes while the links o are still to be read: its norm_outside times the uses of r that
    * are its own or still have to be passed on. */
  ghost function Term(f: seq<ForestNode>, w: nat -> real, r: nat, out: seq<real>, o: seq<Link>, q: nat): real
    requires IsForest(f) && AllLinksOk(f, o) && |out| == |f| && q < |f|
  {
    Mul(out[q], OwnUse(f, w, r, q) + LinkUsed(f, w, r, o, q))
  }

  ghost function Terms(f: seq<ForestNode>, w: nat -> real, r: nat, out: seq<real>, o: seq<Link>): seq<real>
    requires IsForest(f) && AllLinksOk(f, o) && |out| == |f|
  {
    seq(|f|, q requires 0 <= q < |f| => Term(f, w, r, out, o, q))
  }

  ghost function Potential(f: seq<ForestNode>, w: nat -> real, r: nat, out: seq<real>, o: seq<Link>): real
    requires IsForest(f) && AllLinksOk(f, o) && |out| == |f|
  {
    Sum(Terms(f, w, r, out, o))
  }

  /** Reading one link keeps the potential, provided that the child's own links are still to be read. */
  lemma PotentialStep(f: seq<ForestNode>, w: nat -> real, r: nat, out: seq<real>, o: seq<Link>)
    requires IsForest(f) && AllLinksOk(f, o) && |out| == |f| && |o| > 0
    requires LinkOk(f, o[|o| - 1])
    requires var c := o[|o| - 1].child; OwnUse(f, w, r, c) + LinkUsed(f, w, r, o, c) == Used(f, w, r, c)
    ensures var l, o' := o[|o| - 1], o[..|o| - 1];
      && l.child < |f| && l.parent < |f|
      && AllLinksOk(f, o')
      && Potential(f, w, r, out[l.child := out[l.child] + Mul(out[l.parent], Share(f, w, l))], o')
         == Potential(f, w, r, out, o)
  {
    hide OwnUse, Used, Share, Mul, LinkOk;
    var l, o' := o[|o| - 1], o[..|o| - 1];
    LinkEnds(f, l);
    var p, c, u := l.parent, l.child, Used(f, w, r, l.child);
    var d := Mul(out[p], Share(f, w, l));
    var out' := out[c := out[c] + d];
    assert AllLinksOk(f, o') by {
      forall s | 0 <= s < |o'| ensures LinkOk(f, o'[s]) { assert o'[s] == o[s]; }
    }
    var x, y := Term(f, w, r, out', o', p), Term(f, w, r, out', o', c);
    assert Terms(f, w, r, out', o') == Terms(f, w, r, out, o)[p := x][c := y];
    SumUpdate(Terms(f, w, r, out, o), p, x);
    SumUpdate(Terms(f, w, r, out, o)[p := x], c, y);
    MulDistributes(out[p], OwnUse(f, w, r, p) + LinkUsed(f, w, r, o', p), Mul(Share(f, w, l), u));
    MulDistributes(u, out[c], d);
    MulAssoc(out[p], Share(f, w, l), u);
  }

  lemma LinkEnds(f: seq<ForestNode>, l: Link)
    requires LinkOk(f, l)
    ensures l.parent < |f| && l.child < |f| && f[l.parent].lab.Rule? && f[l.child].lab.Rule? && l.parent != l.child
  {}

  lemma {:induction false} SumOfZeros(s: seq<real>, x: real)
    requires |s| > 0 && s[0] == x && forall i :: 1 <= i < |s| ==> s[i] == 0.0
    ensures Sum(s) == x
  {
    if |s| > 1 {
      SumOfZeros(s[..|s| - 1], x);
    } else {
      assert s[..0] == [];
    }
  }

  lemma OtherTermsZero(f: seq<ForestNode>, w: nat -> real, r: nat, out: seq<real>, o: seq<Link>)
    requires IsForest(f) && AllLinksOk(f, o) && |out| == |f| && forall q :: 1 <= q < |f| ==> out[q] == 0.0
    ensures forall q :: 1 <= q < |f| ==> Terms(f, w, r, out, o)[q] == 0.0
  {
    forall q | 1 <= q < |f| ensures Terms(f, w, r, out, o)[q] == 0.0 {
      MulZero(OwnUse(f, w, r, q) + LinkUsed(f, w, r, o, q));
    }
  }

  /** Only the root has norm_outside yet: the potential is the root's uses of r, per unit of inside weight. */
  lemma PotentialStart(f: seq<ForestNode>, w: nat -> real, r: nat, out: seq<real>)
    requires IsForest(f) && |out| == |f| && NonNegative(w) && Inside(f, w, 0) != 0.0
    requires out[0] == Div(1.0, Inside(f, w, 0)) && forall q :: 1 <= q < |f| ==> out[q] == 0.0
    ensures AllLinksOk(f, Order(f, 0))
    ensures Mul(Inside(f, w, 0), Potential(f, w, r, out, Order(f, 0))) == Used(f, w, r, 0)
  {
    hide Used, OwnUse, Inside, Mul, Div, LinkOk, Share;
    OrderUsed(f, w, r, 0, 0);
    var o, x, v := Order(f, 0), Inside(f, w, 0), Used(f, w, r, 0);
    var ts := Terms(f, w, r, out, o);
    OtherTermsZero(f, w, r, out, o);
    SumOfZeros(ts, Mul(Div(1.0, x), v));
    MulAssoc(x, Div(1.0, x), v);
    MulCommutes(x, Div(1.0, x));
    DivMul(1.0, x);
    MulUnit(v);
  }

  /** What the nodes of rule r contribute once every link is read. */
  ghost function Collected(f: seq<ForestNode>, w: nat -> real, r: nat, out: seq<real>, n: nat): real
    requires IsForest(f) && |out| == |f| && n <= |f|
  {
    if n == 0 then 0.0 else
    Collected(f, w, r, out, n - 1)
      + if IsAnd(f[n - 1]) && f[n - 1].lab.id == r then Mul(Inside(f, w, n - 1), out[n - 1]) else 0.0
  }

  lemma {:induction false} CollectedIsSum(f: seq<ForestNode>, w: nat -> real, r: nat, out: seq<real>, n: nat)
    requires IsForest(f) && |out| == |f| && n <= |f|
    ensures Collected(f, w, r, out, n) == Sum(Terms(f, w, r, out, [])[..n])
  {
    hide Inside, Mul;
    if n > 0 {
      CollectedIsSum(f, w, r, out, n - 1);
      var ts := Terms(f, w, r, out, []);
      assert ts[..n][..n - 1] == ts[..n - 1];
      MulZero(out[n - 1]);
      MulCommutes(Inside(f, w, n - 1), out[n - 1]);
    }
  }

  lemma PotentialEnd(f: seq<ForestNode>, w: nat -> real, r: nat, out: seq<real>)
    requires IsForest(f) && |out| == |f|
    ensures Potential(f, w, r, out, []) == Collected(f, w, r, out, |f|)
  {
    CollectedIsSum(f, w, r, out, |f|);
    assert Terms(f, w, r, out, [])[..|f|] == Terms(f, w, r, out, []);
  }

  /** When a link is next, all links of its child are still to be read. */
  lemma OwnLinksUnread(f: seq<ForestNode>, w: nat -> real, r: nat, t: nat)
    requires IsForest(f) && NonNegative(w) && 0 < t <= |Order(f, 0)|
    ensures AllLinksOk(f, Order(f, 0)[..t]) && LinkOk(f, Order(f, 0)[t - 1])
    ensures var c := Order(f, 0)[t - 1].child;
      c < |f| && OwnUse(f, w, r, c) + LinkUsed(f, w, r, Order(f, 0)[..t], c) == Used(f, w, r, c)
  {
    var all := Order(f, 0);
    OrderIsOk(f, 0);
    assert LinkOk(f, all[t - 1]);
    var c := all[t - 1].child;
    assert AllLinksOk(f, all);
    OrderTopological(f, all, 0, f[0].next, t - 1);
    assert forall s :: t <= s < |all| ==> all[s].parent != c;
    OrderUsed(f, w, r, 0, c);
    hide Used, OwnUse, Mul, Share, LinkOk, Order;
    PrefixUsed(f, w, r, all, t, c);
  }

  lemma PrefixUsed(f: seq<ForestNode>, w: nat -> real, r: nat, o: seq<Link>, t: nat, q: nat)
    requires IsForest(f) && AllLinksOk(f, o) && t <= |o| && forall s :: t <= s < |o| ==> o[s].parent != q
    ensures AllLinksOk(f, o[..t]) && LinkUsed(f, w, r, o[..t], q) == LinkUsed(f, w, r, o, q)
  {
    hide Used, Mul, Share, LinkOk;
    LinkUsedNone(f, w, r, o[t..], q);
    LinkUsedConcat(f, w, r, o[..t], o[t..], q);
    assert o[..t] + o[t..] == o;
  }

  lemma OrderParts(f: seq<ForestNode>, i: nat)
    requires IsForest(f) && i < |f| && Siblings(f, i + 1, f[i].next)
    ensures Order(f, i) == if f[i].lab.Ref? then [] else OrderKids(f, i + 1, f[i].next) + Links(f, i, i + 1, f[i].next)
  {}

  lemma OrderKidsParts(f: seq<ForestNode>, b: nat, e: nat)
    requires IsForest(f) && Siblings(f, b, e) && b < e && Siblings(f, f[b].next, e)
    ensures OrderKids(f, b, e) == Order(f, b) + OrderKids(f, f[b].next, e)
  {}

  lemma LinksParts(f: seq<ForestNode>, p: nat, b: nat, e: nat)
    requires IsForest(f) && Siblings(f, b, e) && b < e && Siblings(f, f[b].next, e)
    ensures Links(f, p, b, e) == [Link(p, Resolve(f, b))] + Links(f, p, f[b].next, e)
  {}

  lemma NoKids(f: seq<ForestNode>, p: nat, e: nat)
    requires IsForest(f) && Siblings(f, e, e)
    ensures OrderKids(f, e, e) == [] && Links(f, p, e, e) == []
  {}

  // ----- the division is never by zero -----

  /** An AND parent with weight has children with weight. */
  ghost predicate Divides(f: seq<ForestNode>, w: nat -> real, l: Link)
    requires IsForest(f)
  {
    l.parent < |f| && l.child < |f| && (IsAnd(f[l.parent]) && Inside(f, w, l.parent) != 0.0 ==> Inside(f, w, l.child) != 0.0)
  }

  lemma {:induction false} LinksDivide(f: seq<ForestNode>, w: nat -> real, p: nat, b: nat, e: nat)
    requires IsForest(f) && p < |f| && Siblings(f, b, e)
    requires IsAnd(f[p]) && Inside(f, w, p) != 0.0 ==> InsideAll(f, w, b, e) != 0.0
    ensures forall s :: 0 <= s < |Links(f, p, b, e)| ==> Divides(f, w, Links(f, p, b, e)[s])
    decreases e - b
  {
    hide Inside, InsideAll, Mul;
    if b < e {
      SiblingParts(f, b, e);
      NodeParts(f, b);
      InsideStep(f, w, 0, b, e);
      InsideNode(f, w, 0, b);
      MulNotZero(Inside(f, w, b), InsideAll(f, w, f[b].next, e));
      LinksDivide(f, w, p, f[b].next, e);
    }
  }

  lemma {:induction false} OrderDivides(f: seq<ForestNode>, w: nat -> real, i: nat)
    requires IsForest(f) && i < |f|
    ensures forall s :: 0 <= s < |Order(f, i)| ==> Divides(f, w, Order(f, i)[s])
    decreases f[i].next, |f| - i, 0
  {
    hide Inside, InsideAll, InsideAny, Mul, Divides;
    NodeParts(f, i);
    if f[i].lab.Rule? {
      OrderKidsDivide(f, w, i + 1, f[i].next);
      InsideNode(f, w, 0, i);
      if IsAnd(f[i]) { MulNotZero(w(f[i].lab.id), InsideAll(f, w, i + 1, f[i].next)); }
      LinksDivide(f, w, i, i + 1, f[i].next);
    }
  }

  lemma {:induction false} OrderKidsDivide(f: seq<ForestNode>, w: nat -> real, b: nat, e: nat)
    requires IsForest(f) && Siblings(f, b, e)
    ensures forall s :: 0 <= s < |OrderKids(f, b, e)| ==> Divides(f, w, OrderKids(f, b, e)[s])
    decreases e, |f| - b, 1
  {
    hide Inside, Divides;
    if b < e {
      SiblingParts(f, b, e);
      OrderDivides(f, w, b);
      OrderKidsDivide(f, w, f[b].next, e);
    }
  }

  /** Reading one link of the recorded order keeps the potential, for every rule. */
  lemma ReadLink(f: seq<ForestNode>, w: nat -> real, t: nat, out: seq<real>, share: real)
    requires IsForest(f) && NonNegative(w) && 0 < t <= |Order(f, 0)| && |out| == |f|
    requires LinkOk(f, Order(f, 0)[t - 1]) && share == Share(f, w, Order(f, 0)[t - 1])
    requires AllLinksOk(f, Order(f, 0)[..t])
    ensures var l := Order(f, 0)[t - 1];
      && l.child < |f| && l.parent < |f| && AllLinksOk(f, Order(f, 0)[..t - 1])
      && forall r :: Potential(f, w, r, out[l.child := out[l.child] + Mul(out[l.parent], share)], Order(f, 0)[..t - 1])
                  == Potential(f, w, r, out, Order(f, 0)[..t])
  {
    hide Used, OwnUse, Mul, Share, LinkOk, Potential, Order;
    var o := Order(f, 0)[..t];
    var l := Order(f, 0)[t - 1];
    LinkEnds(f, l);
    assert o[t - 1] == l && o[..t - 1] == Order(f, 0)[..t - 1];
    forall r
      ensures AllLinksOk(f, o[..t - 1])
      ensures Potential(f, w, r, out[l.child := out[l.child] + Mul(out[l.parent], share)], o[..t - 1]) == Potential(f, w, r, out, o)
    {
      OwnLinksUnread(f, w, r, t);
      PotentialStep(f, w, r, out, o);
    }
    OwnLinksUnread(f, w, 0, t);
    PotentialStep(f, w, 0, out, o);
  }
}
