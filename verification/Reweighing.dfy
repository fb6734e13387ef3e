/** What chains are for: after the weights of the original arcs change, the product over each chain is the
  * weight that composing again would give (carmel/src/cascade.h). */
module Reweighing {
  import opened Transducer
  import opened Weights
  import opened Filter
  import opened Composition
  import opened Chains
  import opened Worklist

  ghost function CellWeight(cells: map<nat, Cell>, x: nat): real {
    if x in cells then cells[x].weight else 1.0
  }

  /** The product of the weights along a chain. */
  ghost function ChainWeight(cells: map<nat, Cell>, chain: seq<nat>): real {
    if |chain| == 0 then 1.0 else Mul(CellWeight(cells, chain[0]), ChainWeight(cells, chain[1..]))
  }

  lemma {:induction false} ChainWeightConcat(cells: map<nat, Cell>, x: seq<nat>, y: seq<nat>)
    ensures ChainWeight(cells, x + y) == Mul(ChainWeight(cells, x), ChainWeight(cells, y))
  {
    hide Mul;
    if |x| == 0 {
      assert x + y == y;
      MulUnit(ChainWeight(cells, y));
    } else {
      ChainWeightConcat(cells, x[1..], y);
      assert (x + y)[1..] == x[1..] + y;
      MulAssoc(CellWeight(cells, x[0]), ChainWeight(cells, x[1..]), ChainWeight(cells, y));
    }
  }

  lemma ChainWeightOne(cells: map<nat, Cell>, x: nat)
    ensures ChainWeight(cells, [x]) == CellWeight(cells, x)
  {
    assert [x][1..] == [];
  }

  lemma {:induction false} ChainWeightReverse(cells: map<nat, Cell>, x: seq<nat>)
    ensures ChainWeight(cells, Reverse(x)) == ChainWeight(cells, x)
  {
    hide Mul;
    if |x| > 0 {
      ChainWeightReverse(cells, x[1..]);
      ChainWeightConcat(cells, Reverse(x[1..]), [x[0]]);
      ChainWeightOne(cells, x[0]);
      MulCommutes(ChainWeight(cells, x[1..]), CellWeight(cells, x[0]));
    }
  }

  /** Joining two chains multiplies their weights, in whichever order the arcs were consed. */
  lemma ChainWeightJoined(cells: map<nat, Cell>, ch0: bool, ch1: bool, x: seq<nat>, y: seq<nat>)
    ensures ChainWeight(cells, Joined(ch0, ch1, x, y)) == Mul(ChainWeight(cells, x), ChainWeight(cells, y))
  {
    hide Mul, ChainWeight;
    ChainWeightConcat(cells, x, y);
    ChainWeightConcat(cells, y, x);
    ChainWeightConcat(cells, Reverse(x), y);
    ChainWeightReverse(cells, x);
    MulCommutes(ChainWeight(cells, x), ChainWeight(cells, y));
  }

  // ----- counts -----

  /** An unlocked cell to which a count is added. */
  ghost function AddedTo(cell: Cell, count: real): Cell {
    if cell.locked then cell else Cell(cell.weight + count, false)
  }

  /** What a chain that collected `counts` gives to x: the counts, once for each time x occurs. */
  ghost function ChainCount(chain: seq<nat>, counts: real, x: nat): real {
    if |chain| == 0 then 0.0
    else ChainCount(chain[..|chain| - 1], counts, x) + if chain[|chain| - 1] == x then counts else 0.0
  }

  ghost function ArcsCount(chains: seq<seq<nat>>, arcs: seq<Arc>, x: nat): real {
    if |arcs| == 0 then 0.0 else
    var arc := arcs[|arcs| - 1];
    ArcsCount(chains, arcs[..|arcs| - 1], x)
      + if arc.group < |chains| then ChainCount(chains[arc.group], arc.weight, x) else 0.0
  }

  ghost function StatesCount(chains: seq<seq<nat>>, states: seq<seq<Arc>>, x: nat): real {
    if |states| == 0 then 0.0
    else StatesCount(chains, states[..|states| - 1], x) + ArcsCount(chains, states[|states| - 1], x)
  }

  /** ... that is, the counts times the multiplicity of x. */
  lemma {:induction false} ChainCountIsMultiplicity(chain: seq<nat>, counts: real, x: nat)
    ensures ChainCount(chain, counts, x) == Mul(multiset(chain)[x] as real, counts)
  {
    hide Mul;
    if |chain| == 0 {
      MulZero(counts);
    } else {
      var n := |chain| - 1;
      ChainCountIsMultiplicity(chain[..n], counts, x);
      assert chain == chain[..n] + [chain[n]];
      MulOneMore(multiset(chain[..n])[x] as real, counts);
    }
  }

  lemma MulOneMore(k: real, y: real)
    ensures Mul(k + 1.0, y) == Mul(k, y) + y
  {}

  /** Arcs without counts give nothing. */
  lemma {:induction false} NothingCounted(chains: seq<seq<nat>>, states: seq<seq<Arc>>, x: nat)
    requires forall q, k :: 0 <= q < |states| && 0 <= k < |states[q]| ==> states[q][k].weight == 0.0
    ensures StatesCount(chains, states, x) == 0.0
  {
    if |states| > 0 {
      var n := |states| - 1;
      NothingCounted(chains, states[..n], x);
      ArcsWithoutCounts(chains, states[n], x);
    }
  }

  lemma {:induction false} ArcsWithoutCounts(chains: seq<seq<nat>>, arcs: seq<Arc>, x: nat)
    requires forall k :: 0 <= k < |arcs| ==> arcs[k].weight == 0.0
    ensures ArcsCount(chains, arcs, x) == 0.0
  {
    hide ChainCount, Mul;
    if |arcs| > 0 {
      var n := |arcs| - 1;
      ArcsWithoutCounts(chains, arcs[..n], x);
      if arcs[n].group < |chains| {
        ChainCountIsMultiplicity(chains[arcs[n].group], 0.0, x);
        MulZero(multiset(chains[arcs[n].group])[x] as real);
        MulCommutes(multiset(chains[arcs[n].group])[x] as real, 0.0);
      }
    }
  }

  function WithMore(arc: Arc, d: real): Arc {
    arc.(weight := arc.weight + d)
  }

  /** More count on one arc, wherever it is, gives each original so much more, times its multiplicity in the arc's chain. */
  lemma {:induction false} OneCountsMore(chains: seq<seq<nat>>, states: seq<seq<Arc>>, q: nat, k: nat, d: real, x: nat)
    requires q < |states| && k < |states[q]| && states[q][k].group < |chains|
    ensures StatesCount(chains, states[q := states[q][k := WithMore(states[q][k], d)]], x)
      == StatesCount(chains, states, x) + Mul(multiset(chains[states[q][k].group])[x] as real, d)
    decreases |states|
  {
    hide Mul, ArcsCount;
    var n := |states| - 1;
    var more := states[q][k := WithMore(states[q][k], d)];
    if q == n {
      assert states[q := more][..n] == states[..n];
      OneArcMore(chains, states[q], k, d, x);
    } else {
      assert states[q := more][..n] == states[..n][q := more] && states[..n][q] == states[q];
      OneCountsMore(chains, states[..n], q, k, d, x);
    }
  }

  lemma {:induction false} OneArcMore(chains: seq<seq<nat>>, arcs: seq<Arc>, k: nat, d: real, x: nat)
    requires k < |arcs| && arcs[k].group < |chains|
    ensures ArcsCount(chains, arcs[k := WithMore(arcs[k], d)], x) == ArcsCount(chains, arcs, x) + Mul(multiset(chains[arcs[k].group])[x] as real, d)
    decreases |arcs|
  {
    hide Mul, ChainCount;
    var n := |arcs| - 1;
    if k == n {
      assert arcs[k := WithMore(arcs[k], d)][..n] == arcs[..n];
      var chain := chains[arcs[k].group];
      ChainCountIsMultiplicity(chain, arcs[k].weight, x);
      ChainCountIsMultiplicity(chain, arcs[k].weight + d, x);
      MulDistributes(multiset(chain)[x] as real, arcs[k].weight, d);
    } else {
      assert arcs[k := WithMore(arcs[k], d)][..n] == arcs[..n][k := WithMore(arcs[k], d)];
      OneArcMore(chains, arcs[..n], k, d, x);
    }
  }

  /** Training changes weights, but not those of locked arcs. */
  ghost predicate Retrained(cells: map<nat, Cell>, cells': map<nat, Cell>) {
    && cells'.Keys == cells.Keys
    && forall x :: x in cells ==>
         cells'[x].locked == cells[x].locked && (cells[x].locked ==> cells'[x].weight == cells[x].weight)
  }

  /** The weight that an arc given to composition has under the weights of `cells'`. */
  ghost function NewWeight(bk: Book, cells': map<nat, Cell>, isChain: bool, arc: Arc): real {
    if isChain then (if arc.group < |bk.chains| then ChainWeight(cells', bk.chains[arc.group]) else arc.weight)
    else CellWeight(cells', arc.addr)
  }

  ghost function NewArcs(bk: Book, cells': map<nat, Cell>, isChain: bool, arcs: seq<Arc>): (r: seq<Arc>)
    ensures |r| == |arcs|
  {
    seq(|arcs|, k requires 0 <= k < |arcs| => arcs[k].(weight := NewWeight(bk, cells', isChain, arcs[k])))
  }

  ghost function NewWfst(bk: Book, cells': map<nat, Cell>, isChain: bool, w: Wfst): (r: Wfst)
    ensures |r.states| == |w.states| && forall q :: 0 <= q < |w.states| ==> |r.states[q]| == |w.states[q]|
  {
    w.(states := seq(|w.states|, q requires 0 <= q < |w.states| => NewArcs(bk, cells', isChain, w.states[q])))
  }

  lemma NewWfstValid(bk: Book, cells': map<nat, Cell>, isChain: bool, w: Wfst)
    requires Valid(w)
    ensures Valid(NewWfst(bk, cells', isChain, w))
  {
    var w' := NewWfst(bk, cells', isChain, w);
    forall q, k | 0 <= q < |w'.states| && 0 <= k < |w'.states[q]| ensures ArcOk(w', w'.states[q][k]) {
      assert ArcOk(w, w.states[q][k]);
    }
  }

  /** The new weight of an operand arc is the product over its chain. */
  lemma OperandWeight(bk: Book, cells': map<nat, Cell>, isChain: bool, arc: Arc)
    requires !bk.trivial && ArcLinked(bk, isChain, arc) && Retrained(bk.cells, cells')
    ensures NewWeight(bk, cells', isChain, arc) == ChainWeight(cells', Operand(bk, isChain, arc))
  {
    if !isChain {
      ChainWeightOne(cells', arc.addr);
    }
  }

  ghost function NewProblem(bk: Book, cells': map<nat, Cell>, c: Problem): Problem {
    c.(a := NewWfst(bk, cells', bk.ch0, c.a), b := NewWfst(bk, cells', bk.ch1, c.b))
  }

  /** Weights play no part in which moves are enabled, where they lead and what their labels are. */
  lemma NewProblemSame(bk: Book, cells': map<nat, Cell>, c: Problem, key: Key, m: Move)
    requires Ok(c) && KeyOk(c, key)
    ensures var c' := NewProblem(bk, cells', c);
      && Ok(c') && KeyOk(c', key)
      && (Enabled(c', key, m) <==> Enabled(c, key, m))
      && (Enabled(c, key, m) ==>
            && Target(c', key, m) == Target(c, key, m)
            && MoveIn(c', key, m) == MoveIn(c, key, m) && MoveOut(c', key, m) == MoveOut(c, key, m))
  {
    NewWfstValid(bk, cells', bk.ch0, c.a);
    NewWfstValid(bk, cells', bk.ch1, c.b);
    var c' := NewProblem(bk, cells', c);
    if key.Trio? && m.L? && m.i < |c.a.states[key.qa]| {
      var x, rb, rb' := c.a.states[key.qa][m.i].out, c.b.states[key.qb], c'.b.states[key.qb];
      forall j | 0 <= j < |rb| ensures Same(c', x, rb'[j].inp) <==> Same(c, x, rb[j].inp) {}
    }
  }

  /** The weight that composing again gives to the arc of a move is the product over its chain. */
  lemma MoveChainWeight(bk: Book, cells': map<nat, Cell>, c: Problem, key: Key, m: Move)
    requires Ok(c) && KeyOk(c, key) && Enabled(c, key, m) && !bk.trivial && Retrained(bk.cells, cells')
    requires Linked(bk, bk.ch0, c.a) && Linked(bk, bk.ch1, c.b)
    requires Ok(NewProblem(bk, cells', c)) && KeyOk(NewProblem(bk, cells', c), key) && Enabled(NewProblem(bk, cells', c), key, m)
    ensures MoveWeight(NewProblem(bk, cells', c), key, m) == ChainWeight(cells', MoveChain(bk, c, key, m))
  {
    hide ChainWeight, Mul, Linked;
    MoveArcsLinked(bk, c, key, m);
    match m
    case L(_) => OperandWeight(bk, cells', bk.ch0, ArcA(c, key, m));
    case R(_) => OperandWeight(bk, cells', bk.ch1, ArcB(c, key, m));
    case LR(_, _) =>
      OperandWeight(bk, cells', bk.ch0, ArcA(c, key, m));
      OperandWeight(bk, cells', bk.ch1, ArcB(c, key, m));
      ChainWeightJoined(cells', bk.ch0, bk.ch1, Operand(bk, bk.ch0, ArcA(c, key, m)), Operand(bk, bk.ch1, ArcB(c, key, m)));
    case Stop => EmptyChainWeight(cells');
  }

  lemma EmptyChainWeight(cells: map<nat, Cell>)
    ensures ChainWeight(cells, []) == 1.0
  {}

  ghost function Updated(bk: Book, cells': map<nat, Cell>, r: Composed): Composed {
    r.(w := NewWfst(bk, cells', true, r.w))
  }

  /** One level: replacing the weights of the composed arcs by the products over their chains gives a
    * composition of the operands with their new weights. */
  lemma UpdateRealizes(bk: Book, cells': map<nat, Cell>, c: Problem, r: Composed)
    requires Ok(c) && Realizes(c, r) && AllGrouped(bk, c, r) && !bk.trivial && Retrained(bk.cells, cells')
    requires Linked(bk, bk.ch0, c.a) && Linked(bk, bk.ch1, c.b)
    ensures Ok(NewProblem(bk, cells', c)) && Realizes(NewProblem(bk, cells', c), Updated(bk, cells', r))
  {
    var c', r' := NewProblem(bk, cells', c), Updated(bk, cells', r);
    assert Ok(c') && Shaped(c', r') by {
      forall s | 0 <= s < |r.keys| ensures Ok(c') && KeyOk(c', r.keys[s]) {
        NewProblemSame(bk, cells', c, r.keys[s], Stop);
      }
    }
    hide Enabled, Target, MoveIn, MoveOut, MoveWeight, MoveChain, KeyOk, Linked, Mul, ChainWeight, Shaped;
    forall s | 0 <= s < |r.keys| ensures StateSound(c', r', s) && StateComplete(c', r', s) {
      assert StateSound(c, r, s) && StateComplete(c, r, s) && StateGrouped(bk, c, r, s);
      forall k | 0 <= k < |r'.moves[s]| ensures ArcFits(c', r', s, r'.w.states[s][k], r'.moves[s][k]) {
        var m := r.moves[s][k];
        assert ArcFits(c, r, s, r.w.states[s][k], m) && ArcGrouped(bk, c, r.keys[s], m, r.w.states[s][k].group);
        NewProblemSame(bk, cells', c, r.keys[s], m);
        MoveChainWeight(bk, cells', c, r.keys[s], m);
      }
      forall m | Enabled(c', r'.keys[s], m) ensures m in r'.moves[s] {
        NewProblemSame(bk, cells', c, r.keys[s], m);
      }
    }
  }

  lemma {:induction false} ComposedArcsLinked(bk: Book, c: Problem, r: Composed)
    requires Ok(c) && Realizes(c, r) && AllGrouped(bk, c, r)
    ensures Linked(bk, true, r.w)
  {
    if !bk.trivial {
      forall q, k | 0 <= q < |r.w.states| && 0 <= k < |r.w.states[q]| ensures ArcLinked(bk, true, r.w.states[q][k]) {
        assert StateSound(c, r, q) && StateGrouped(bk, c, r, q);
        assert ArcGrouped(bk, c, r.keys[q], r.moves[q][k], r.w.states[q][k].group);
      }
    }
  }

  lemma LinkedSame(bk: Book, bk': Book, isChain: bool, w: Wfst)
    requires Linked(bk, isChain, w) && bk' == bk.(ch0 := bk'.ch0, ch1 := bk'.ch1)
    ensures Linked(bk', isChain, w)
  {
    if !bk.trivial {
      forall q, k | 0 <= q < |w.states| && 0 <= k < |w.states[q]| ensures ArcLinked(bk', isChain, w.states[q][k]) {
        assert ArcLinked(bk, isChain, w.states[q][k]);
      }
    }
  }

  /** Weights play no part in groups either. */
  lemma NewGroups(bk: Book, cells': map<nat, Cell>, c: Problem, r: Composed)
    requires Ok(c) && Realizes(c, r) && AllGrouped(bk, c, r) && !bk.trivial && Retrained(bk.cells, cells')
    requires Linked(bk, bk.ch0, c.a) && Linked(bk, bk.ch1, c.b)
    requires Ok(NewProblem(bk, cells', c))
    ensures AllGrouped(bk.(cells := cells'), NewProblem(bk, cells', c), Updated(bk, cells', r))
  {
    var c', r', bk' := NewProblem(bk, cells', c), Updated(bk, cells', r), bk.(cells := cells');
    hide Linked, Enabled, KeyOk, MoveChain, ChainWeight, Target, MoveIn, MoveOut;
    forall s, k | 0 <= s < |r.keys| && 0 <= k < |r'.moves[s]| && k < |r'.w.states[s]|
      ensures ArcGrouped(bk', c', r'.keys[s], r'.moves[s][k], r'.w.states[s][k].group)
    {
      assert StateSound(c, r, s) && StateGrouped(bk, c, r, s);
      assert ArcGrouped(bk, c, r.keys[s], r.moves[s][k], r.w.states[s][k].group);
      NewProblemSame(bk, cells', c, r.keys[s], r.moves[s][k]);
      NewChain(bk, cells', c, r.keys[s], r.moves[s][k]);
    }
  }

  lemma NewChain(bk: Book, cells': map<nat, Cell>, c: Problem, key: Key, m: Move)
    requires Ok(c) && KeyOk(c, key) && Enabled(c, key, m) && !bk.trivial && Retrained(bk.cells, cells')
    requires Linked(bk, bk.ch0, c.a) && Linked(bk, bk.ch1, c.b)
    requires Ok(NewProblem(bk, cells', c)) && KeyOk(NewProblem(bk, cells', c), key) && Enabled(NewProblem(bk, cells', c), key, m)
    ensures MoveChain(bk.(cells := cells'), NewProblem(bk, cells', c), key, m) == MoveChain(bk, c, key, m)
  {
    MoveArcsLinked(bk, c, key, m);
  }

  lemma NewLeafLinked(bk: Book, cells': map<nat, Cell>, w: Wfst)
    requires !bk.trivial && Linked(bk, false, w) && Retrained(bk.cells, cells')
    ensures Linked(bk.(cells := cells'), false, NewWfst(bk, cells', false, w))
  {
    var w' := NewWfst(bk, cells', false, w);
    forall q, k | 0 <= q < |w'.states| && 0 <= k < |w'.states[q]|
      ensures ArcLinked(bk.(cells := cells'), false, w'.states[q][k])
    {
      assert ArcLinked(bk, false, w.states[q][k]);
    }
  }

  ghost predicate OwnWeights(bk: Book, isChain: bool, w: Wfst) {
    forall q, k :: 0 <= q < |w.states| && 0 <= k < |w.states[q]| ==>
      w.states[q][k].weight == NewWeight(bk, bk.cells, isChain, w.states[q][k])
  }

  lemma OwnWeightsSame(bk: Book, isChain: bool, w: Wfst)
    requires OwnWeights(bk, isChain, w)
    ensures NewWfst(bk, bk.cells, isChain, w) == w
  {
    forall q | 0 <= q < |w.states| ensures NewArcs(bk, bk.cells, isChain, w.states[q]) == w.states[q] {}
    assert NewWfst(bk, bk.cells, isChain, w).states == w.states;
  }

  lemma LevelWeights(bk: Book, c: Problem, r: Composed)
    requires Ok(c) && Realizes(c, r) && AllGrouped(bk, c, r) && !bk.trivial && NewProblem(bk, bk.cells, c) == c
    requires Linked(bk, bk.ch0, c.a) && Linked(bk, bk.ch1, c.b)
    ensures OwnWeights(bk, true, r.w)
  {
    hide Enabled, Target, MoveIn, MoveOut, MoveWeight, MoveChain, KeyOk, Linked, Mul, ChainWeight;
    forall s, k | 0 <= s < |r.w.states| && 0 <= k < |r.w.states[s]|
      ensures r.w.states[s][k].weight == NewWeight(bk, bk.cells, true, r.w.states[s][k])
    {
      assert StateSound(c, r, s) && StateGrouped(bk, c, r, s);
      var m := r.moves[s][k];
      assert ArcFits(c, r, s, r.w.states[s][k], m) && ArcGrouped(bk, c, r.keys[s], m, r.w.states[s][k].group);
      MoveChainWeight(bk, bk.cells, c, r.keys[s], m);
    }
  }
}
