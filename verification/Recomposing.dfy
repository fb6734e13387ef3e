/** Cascades composed level by level, with states and arcs taken out and chains compressed in between: updating the
  * result is doing all of it again with the new weights (carmel/src/cascade.h, carmel/src/carmel.cc). */
module Recomposing {
  import opened Transducer
  import opened Weights
  import opened Filter
  import opened Composition
  import opened Chains
  import opened Worklist
  import opened Trimming
  import opened Reweighing

  /** How a cascade was made: original transducers at the leaves; what was composed, and the chains at that time;
    * u, which was `whole`, trimmed to w. */
  datatype Node =
    | Leaf(w: Wfst)
    | Comp(c: Problem, r: Composed, chains: seq<seq<nat>>, left: Node, right: Node)
    | Shrunk(u: Wfst, w: Wfst, chains: seq<seq<nat>>, t: seq<int>, mask: seq<seq<bool>>, whole: Node)

  ghost function Top(n: Node): Wfst {
    if n.Comp? then n.r.w else n.w
  }

  ghost function Table(n: Node): seq<seq<nat>> {
    if n.Leaf? then [] else n.chains
  }

  ghost function Leaves(n: Node): seq<Wfst> {
    match n
    case Leaf(w) => [w]
    case Comp(_, _, _, left, right) => Leaves(left) + Leaves(right)
    case Shrunk(_, _, _, _, _, whole) => Leaves(whole)
  }

  /** What the groups in the top of n are read against. */
  ghost function OwnBook(trivial: bool, cells: map<nat, Cell>, n: Node): Book {
    if n.Comp? then Book(trivial, !n.left.Leaf?, !n.right.Leaf?, cells, n.chains) else Book(trivial, false, false, cells, Table(n))
  }

  /** w is the top of n, as the chains of bk know it. */
  ghost predicate Given(bk: Book, w: Wfst, n: Node) {
    if bk.trivial || n.Leaf? then w == Top(n) else Alike(bk.chains, w, Table(n), Top(n))
  }

  /** Every level is a composition of the two below it, with the groups that the cascade recorded, or what is left of
    * the one below. */
  ghost predicate WellComposed(trivial: bool, cells: map<nat, Cell>, n: Node) {
    var bk := OwnBook(trivial, cells, n);
    match n
    case Leaf(w) => Valid(w) && Linked(bk, false, w)
    case Comp(c, r, _, left, right) =>
      && WellComposed(trivial, cells, left) && WellComposed(trivial, cells, right)
      && Given(bk, c.a, left) && Given(bk, c.b, right) && Ok(c) && Realizes(c, r) && AllGrouped(bk, c, r)
    case Shrunk(u, w, _, t, mask, whole) =>
      && WellComposed(trivial, cells, whole) && !whole.Leaf? && Given(bk, u, whole)
      && Valid(u) && Valid(w) && Trimmed(u, w, t, mask) && Starts(u, w, t) && Linked(bk, true, w)
  }

  lemma TopLinked(trivial: bool, cells: map<nat, Cell>, n: Node)
    requires WellComposed(trivial, cells, n)
    ensures Valid(Top(n)) && Linked(OwnBook(trivial, cells, n), !n.Leaf?, Top(n))
  {
    hide Linked, Realizes, AllGrouped;
    if n.Comp? {
      RealizesValid(n.c, n.r);
      ComposedArcsLinked(OwnBook(trivial, cells, n), n.c, n.r);
    }
  }

  /** An operand's arcs are known to the cascade. */
  lemma GivenLinked(bk: Book, w: Wfst, n: Node)
    requires WellComposed(bk.trivial, bk.cells, n) && Given(bk, w, n)
    ensures Valid(w) && Linked(bk, !n.Leaf?, w)
  {
    TopLinked(bk.trivial, bk.cells, n);
    hide Alike, WellComposed, ArcLinked, Valid;
    if !bk.trivial {
      if n.Leaf? {
        LeafLinked(bk, OwnBook(bk.trivial, bk.cells, n), w);
      } else {
        AlikeLinked(bk, w, Table(n), Top(n));
      }
    }
  }

  /** An original arc is known by its cell, whatever the chains are. */
  lemma LeafLinked(bk: Book, bk': Book, w: Wfst)
    requires Linked(bk', false, w) && bk.cells == bk'.cells && bk.trivial == bk'.trivial
    ensures Linked(bk, false, w)
  {
    if !bk.trivial {
      forall q, k | 0 <= q < |w.states| && 0 <= k < |w.states[q]| ensures ArcLinked(bk, false, w.states[q][k]) {
        assert ArcLinked(bk', false, w.states[q][k]);
      }
    }
  }

  // ----- the cascade after update() -----

  ghost function Reweighed(trivial: bool, cells: map<nat, Cell>, cells': map<nat, Cell>, n: Node): Node {
    var bk := OwnBook(trivial, cells, n);
    match n
    case Leaf(w) => Leaf(NewWfst(bk, cells', false, w))
    case Comp(c, r, chains, left, right) =>
      Comp(NewProblem(bk, cells', c), Updated(bk, cells', r), chains,
        Reweighed(trivial, cells, cells', left), Reweighed(trivial, cells, cells', right))
    case Shrunk(u, w, chains, t, mask, whole) =>
      Shrunk(NewWfst(bk, cells', true, u), NewWfst(bk, cells', true, w), chains, t, mask, Reweighed(trivial, cells, cells', whole))
  }

  /** New weights are products over chains, so they do not depend on the numbers that the chains have. */
  lemma AlikeNew(bk: Book, w: Wfst, bk': Book, w': Wfst, cells': map<nat, Cell>)
    requires Alike(bk.chains, w, bk'.chains, w')
    ensures Alike(bk.chains, NewWfst(bk, cells', true, w), bk'.chains, NewWfst(bk', cells', true, w'))
  {
    var v, v' := NewWfst(bk, cells', true, w), NewWfst(bk', cells', true, w');
    forall q | 0 <= q < |w.states| ensures AlikeArcs(bk.chains, v.states[q], bk'.chains, v'.states[q]) {
      assert AlikeArcs(bk.chains, w.states[q], bk'.chains, w'.states[q]);
      forall k | 0 <= k < |w.states[q]| ensures AlikeArc(bk.chains, v.states[q][k], bk'.chains, v'.states[q][k]) {
        assert AlikeArc(bk.chains, w.states[q][k], bk'.chains, w'.states[q][k]);
      }
    }
  }

  /** So are the arcs that trimming leaves. */
  lemma {:induction false} FilteredNew(bk: Book, cells': map<nat, Cell>, arcs: seq<Arc>, mask: seq<bool>, t: seq<int>)
    requires |arcs| == |mask|
    ensures Filtered(NewArcs(bk, cells', true, arcs), mask, t) == NewArcs(bk, cells', true, Filtered(arcs, mask, t))
    decreases |arcs|
  {
    if |arcs| > 0 {
      var n := |arcs| - 1;
      FilteredNew(bk, cells', arcs[..n], mask[..n], t);
      assert NewArcs(bk, cells', true, arcs)[..n] == NewArcs(bk, cells', true, arcs[..n]);
    }
  }

  lemma TrimmedNew(bk: Book, cells': map<nat, Cell>, u: Wfst, w: Wfst, t: seq<int>, mask: seq<seq<bool>>)
    requires Valid(u) && Valid(w) && Trimmed(u, w, t, mask) && Starts(u, w, t)
    ensures var u', w' := NewWfst(bk, cells', true, u), NewWfst(bk, cells', true, w);
      Valid(u') && Valid(w') && Trimmed(u', w', t, mask) && Starts(u', w', t)
  {
    NewWfstValid(bk, cells', true, u);
    NewWfstValid(bk, cells', true, w);
    StatesNew(bk, cells', u, w, t, mask);
    var u', w' := NewWfst(bk, cells', true, u), NewWfst(bk, cells', true, w);
    NewWfstParts(bk, cells', u);
    NewWfstParts(bk, cells', w);
    hide Valid, Filtered, NewWfst;
  }

  lemma NewWfstParts(bk: Book, cells': map<nat, Cell>, w: Wfst)
    ensures var w' := NewWfst(bk, cells', true, w);
      && w' == w.(states := w'.states) && |w'.states| == |w.states|
      && forall q, k :: 0 <= q < |w.states| && 0 <= k < |w.states[q]| ==> w'.states[q][k].dest == w.states[q][k].dest
  {
    hide NewWeight;
  }

  lemma StatesNew(bk: Book, cells': map<nat, Cell>, u: Wfst, w: Wfst, t: seq<int>, mask: seq<seq<bool>>)
    requires Valid(u) && Trimmed(u, w, t, mask)
    ensures forall q :: 0 <= q < |u.states| && t[q] >= 0 ==>
      NewWfst(bk, cells', true, w).states[t[q]] == Filtered(NewWfst(bk, cells', true, u).states[q], mask[q], t)
  {
    hide Valid, Filtered, NewWeight;
    forall q | 0 <= q < |u.states| && t[q] >= 0
      ensures NewArcs(bk, cells', true, w.states[t[q]]) == Filtered(NewArcs(bk, cells', true, u.states[q]), mask[q], t)
    {
      FilteredNew(bk, cells', u.states[q], mask[q], t);
    }
  }

  lemma NewLinked(bk: Book, bk': Book, cells': map<nat, Cell>, w: Wfst)
    requires Linked(bk, true, w) && bk'.chains == bk.chains && bk'.trivial == bk.trivial
    ensures Linked(bk', true, NewWfst(bk, cells', true, w))
  {
    if !bk.trivial {
      var w' := NewWfst(bk, cells', true, w);
      forall q, k | 0 <= q < |w'.states| && 0 <= k < |w'.states[q]| ensures ArcLinked(bk', true, w'.states[q][k]) {
        assert ArcLinked(bk, true, w.states[q][k]);
      }
    }
  }

  /** An operand with its new weights is what the updated cascade below it gives. */
  lemma GivenNew(bk: Book, cells': map<nat, Cell>, w: Wfst, n: Node, n': Node)
    requires !bk.trivial && Given(bk, w, n) && Table(n') == Table(n) && n'.Leaf? == n.Leaf?
    requires Top(n') == NewWfst(OwnBook(false, bk.cells, n), cells', !n.Leaf?, Top(n))
    ensures Given(bk.(cells := cells'), NewWfst(bk, cells', !n.Leaf?, w), n')
  {
    if n.Leaf? {
      SameNew(bk, OwnBook(false, bk.cells, n), cells', w);
    } else {
      AlikeNew(bk, w, OwnBook(false, bk.cells, n), Top(n), cells');
    }
  }

  lemma SameNew(bk: Book, bk': Book, cells': map<nat, Cell>, w: Wfst)
    ensures NewWfst(bk, cells', false, w) == NewWfst(bk', cells', false, w)
  {
    forall q | 0 <= q < |w.states| ensures NewArcs(bk, cells', false, w.states[q]) == NewArcs(bk', cells', false, w.states[q]) {}
    assert NewWfst(bk, cells', false, w).states == NewWfst(bk', cells', false, w).states;
  }

  /** Updating a cascade is composing it again from its retrained originals: every level is, with the new weights, a
    * composition of the levels below it, or what the same trimming leaves of the level below. */
  lemma {:induction false} UpdateIsRecompose(cells: map<nat, Cell>, cells': map<nat, Cell>, n: Node)
    requires WellComposed(false, cells, n) && Retrained(cells, cells')
    ensures WellComposed(false, cells', Reweighed(false, cells, cells', n))
    ensures Top(Reweighed(false, cells, cells', n)) == NewWfst(OwnBook(false, cells, n), cells', !n.Leaf?, Top(n))
    decreases n
  {
    hide Linked, Realizes, AllGrouped, Given, Trimmed, NewWfst;
    var bk := OwnBook(false, cells, n);
    match n
    case Leaf(w) =>
      NewWfstValid(bk, cells', false, w);
      NewLeafLinked(bk, cells', w);
    case Comp(c, r, _, left, right) =>
      UpdateIsRecompose(cells, cells', left);
      UpdateIsRecompose(cells, cells', right);
      GivenLinked(bk, c.a, left);
      GivenLinked(bk, c.b, right);
      GivenNew(bk, cells', c.a, left, Reweighed(false, cells, cells', left));
      GivenNew(bk, cells', c.b, right, Reweighed(false, cells, cells', right));
      UpdateRealizes(bk, cells', c, r);
      NewGroups(bk, cells', c, r);
    case Shrunk(u, w, _, t, mask, whole) =>
      UpdateIsRecompose(cells, cells', whole);
      GivenNew(bk, cells', u, whole, Reweighed(false, cells, cells', whole));
      TrimmedNew(bk, cells', u, w, t, mask);
      NewLinked(bk, bk.(cells := cells'), cells', w);
  }

  /** ... and so is what update() makes of the transducer at hand, whose chains may have been compressed since. */
  lemma UpdatedIsRecomposed(bk: Book, cells': map<nat, Cell>, w: Wfst, n: Node)
    requires !bk.trivial && WellComposed(false, bk.cells, n) && Given(bk, w, n) && Retrained(bk.cells, cells')
    ensures WellComposed(false, cells', Reweighed(false, bk.cells, cells', n))
    ensures Given(bk.(cells := cells'), NewWfst(bk, cells', !n.Leaf?, w), Reweighed(false, bk.cells, cells', n))
  {
    hide Given, NewWfst, WellComposed;
    UpdateIsRecompose(bk.cells, cells', n);
    GivenNew(bk, cells', w, n, Reweighed(false, bk.cells, cells', n));
  }

  /** Before any update, every composed arc's weight is the product over its chain. */
  lemma {:induction false} ComposedWeightIsChainProduct(cells: map<nat, Cell>, n: Node)
    requires WellComposed(false, cells, n)
    ensures OwnWeights(OwnBook(false, cells, n), !n.Leaf?, Top(n))
    decreases n
  {
    hide Realizes, AllGrouped, Given, Trimmed;
    var bk := OwnBook(false, cells, n);
    match n
    case Leaf(w) =>
      forall q, k | 0 <= q < |w.states| && 0 <= k < |w.states[q]|
        ensures w.states[q][k].weight == NewWeight(bk, bk.cells, false, w.states[q][k])
      {
        assert ArcLinked(bk, false, w.states[q][k]);
      }
    case Comp(c, r, _, left, right) =>
      GivenLinked(bk, c.a, left);
      GivenLinked(bk, c.b, right);
      hide Linked;
      ComposedWeightIsChainProduct(cells, left);
      ComposedWeightIsChainProduct(cells, right);
      GivenOwn(bk, c.a, left);
      GivenOwn(bk, c.b, right);
      OwnWeightsSame(bk, bk.ch0, c.a);
      OwnWeightsSame(bk, bk.ch1, c.b);
      assert NewProblem(bk, bk.cells, c) == c;
      LevelWeights(bk, c, r);
    case Shrunk(u, w, _, t, mask, whole) =>
      ComposedWeightIsChainProduct(cells, whole);
      GivenOwn(bk, u, whole);
      TrimmedOwn(bk, u, w, t, mask);
  }

  lemma GivenOwn(bk: Book, w: Wfst, n: Node)
    requires !bk.trivial && Given(bk, w, n) && OwnWeights(OwnBook(false, bk.cells, n), !n.Leaf?, Top(n))
    ensures OwnWeights(bk, !n.Leaf?, w)
  {
    if !n.Leaf? {
      forall q, k | 0 <= q < |w.states| && 0 <= k < |w.states[q]|
        ensures w.states[q][k].weight == NewWeight(bk, bk.cells, true, w.states[q][k])
      {
        assert AlikeArcs(bk.chains, w.states[q], Table(n), Top(n).states[q]);
        assert AlikeArc(bk.chains, w.states[q][k], Table(n), Top(n).states[q][k]);
      }
    }
  }

  lemma TrimmedOwn(bk: Book, u: Wfst, w: Wfst, t: seq<int>, mask: seq<seq<bool>>)
    requires Valid(u) && Valid(w) && Trimmed(u, w, t, mask) && OwnWeights(bk, true, u)
    ensures OwnWeights(bk, true, w)
  {
    hide Filtered;
    forall m, j | 0 <= m < |w.states| && 0 <= j < |w.states[m]| ensures w.states[m][j].weight == NewWeight(bk, bk.cells, true, w.states[m][j]) {
      var q, k := ArcHasOrigin(u, w, t, mask, m, j);
    }
  }
}
