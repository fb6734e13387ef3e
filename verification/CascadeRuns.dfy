/** A cascade composed strictly from the left or strictly from the right, as carmel's main loop does, with the result
  * reduced and its chains compressed after each composition. */
module CascadeRuns {
  import opened Options
  import opened Transducer
  import opened Weights
  import opened Filter
  import opened Composition
  import opened Chains
  import opened Worklist
  import opened Trimming
  import opened Reducing
  import opened Reweighing
  import opened Recomposing
  import opened Cascades
  import opened Compose

  /** Nothing was taken out but what no accepting path uses, and empty loops. */
  ghost predicate OnlyReduced(n: Node) {
    match n
    case Leaf(_) => true
    case Comp(_, _, _, left, right) => OnlyReduced(left) && OnlyReduced(right)
    case Shrunk(u, _, _, t, mask, whole) => Valid(u) && IsReduction(u, t, mask) && OnlyReduced(whole)
  }

  /** The first i of ws, or the last i, have been composed into w, which is the top of n. */
  ghost predicate Assembled(bk: Book, ws: seq<Wfst>, right: bool, i: nat, w: Wfst, n: Node) {
    && (forall k :: 0 <= k < |ws| ==> Valid(ws[k]) && Linked(bk, false, ws[k]))
    && WellComposed(bk.trivial, bk.cells, n) && Given(bk, w, n) && OnlyReduced(n) && (n.Leaf? <==> i == 1)
    && 1 <= i <= |ws| && Leaves(n) == if right then ws[|ws| - i..] else ws[..i]
  }

  ghost predicate SameOriginals(bk: Book, bk': Book) {
    bk'.cells == bk.cells && bk'.trivial == bk.trivial
  }

  lemma AssembledExtends(bk: Book, bk': Book, ws: seq<Wfst>, right: bool, i: nat, w: Wfst, n: Node)
    requires Assembled(bk, ws, right, i, w, n) && SameOriginals(bk, bk') && bk.chains <= bk'.chains
    ensures Assembled(bk', ws, right, i, w, n)
  {
    hide Linked, WellComposed, Alike;
    if !bk.trivial && !n.Leaf? { AlikeExtends(bk.chains, bk'.chains, w, Table(n), Top(n)); }
    forall j | 0 <= j < |ws| ensures Linked(bk', false, ws[j]) {
      LeafLinked(bk', bk, ws[j]);
    }
  }

  /** Two operands, composed. */
  lemma CompMade(bk: Book, c: Problem, r: Composed, left: Node, right: Node)
    requires WellComposed(bk.trivial, bk.cells, left) && WellComposed(bk.trivial, bk.cells, right)
    requires Given(bk, c.a, left) && Given(bk, c.b, right) && bk.ch0 == !left.Leaf? && bk.ch1 == !right.Leaf?
    requires Ok(c) && Realizes(c, r) && AllGrouped(bk, c, r)
    ensures WellComposed(bk.trivial, bk.cells, Comp(c, r, bk.chains, left, right))
    ensures Valid(r.w) && Linked(bk, true, r.w)
  {
    hide Realizes, AllGrouped, Linked, Alike;
    RealizesValid(c, r);
    ComposedArcsLinked(bk, c, r);
  }

  /** What is left of an operand. */
  lemma ShrunkMade(bk: Book, u: Wfst, w: Wfst, t: seq<int>, mask: seq<seq<bool>>, n: Node)
    requires WellComposed(bk.trivial, bk.cells, n) && !n.Leaf? && u == Top(n) && bk.chains == Table(n)
    requires Valid(u) && Linked(bk, true, u) && Valid(w) && Trimmed(u, w, t, mask) && Starts(u, w, t)
    ensures WellComposed(bk.trivial, bk.cells, Shrunk(u, w, bk.chains, t, mask, n)) && Linked(bk, true, w)
  {
    TrimmedLinked(bk, OwnBook(bk.trivial, bk.cells, Shrunk(u, w, bk.chains, t, mask, n)), u, w, t, mask);
    hide Trimmed, Linked, Alike;
    if !bk.trivial { AlikeItself(bk, u); }
  }

  lemma TrimmedLinked(bk: Book, bk': Book, u: Wfst, w: Wfst, t: seq<int>, mask: seq<seq<bool>>)
    requires Linked(bk, true, u) && Valid(u) && Trimmed(u, w, t, mask) && bk'.chains == bk.chains && bk'.trivial == bk.trivial
    ensures Linked(bk, true, w) && Linked(bk', true, w)
  {
    hide Trimmed;
    if !bk.trivial {
      forall m, j | 0 <= m < |w.states| && 0 <= j < |w.states[m]| ensures w.states[m][j].group < |bk.chains| {
        var q, k := ArcHasOrigin(u, w, t, mask, m, j);
        assert ArcLinked(bk, true, u.states[q][k]);
      }
    }
  }

  /** No accepting path of w and accepting path of the transducer to be composed with it match. */
  ghost predicate NothingMatches(ws: seq<Wfst>, right: bool, groups: bool, i: nat, w: Wfst)
    requires i < |ws| && Valid(w) && forall k :: 0 <= k < |ws| ==> Valid(ws[k])
  {
    var c := if right then Problem(groups, false, ws[|ws| - 1 - i], w) else Problem(groups, false, w, ws[i]);
    forall pa, pb :: !MatchingPair(c, pa, pb)
  }

  /** i of ws were composed into w, and nothing in it matches the next one. */
  ghost predicate Blocked(bk: Book, ws: seq<Wfst>, right: bool, groups: bool, i: nat, w: Wfst, n: Node) {
    i < |ws| && Assembled(bk, ws, right, i, w, n) && Valid(w) && NothingMatches(ws, right, groups, i, w)
  }

  function NoIndexes(w: Wfst): (r: seq<Option<Index>>)
    ensures Kept(r, w.states, true) && Kept(r, w.states, false)
  {
    seq(|w.states|, _ => None)
  }

  function NumArcs(states: seq<seq<Arc>>): nat {
    if |states| == 0 then 0 else |states[0]| + NumArcs(states[1..])
  }

  /** The number of pairs of a state and one of its positions. */
  lemma {:induction false} NumArcsCounts(states: seq<seq<Arc>>, n: nat)
    requires n <= |states|
    ensures NumArcs(states[n..]) == |Places(states, n)|
    decreases |states| - n
  {
    if n == |states| {
      assert Places(states, n) == {};
    } else {
      NumArcsCounts(states, n + 1);
      OfOneState(n, |states[n]|);
      assert states[n..][1..] == states[n + 1..];
      assert Places(states, n) == (set k: nat | k < |states[n]| :: (n, k)) + Places(states, n + 1);
    }
  }

  /** The places of arcs: a state from n on, and a position in its list. */
  ghost function Places(states: seq<seq<Arc>>, n: nat): set<(nat, nat)> {
    set q: nat, k: nat | n <= q < |states| && k < |states[q]| :: (q, k)
  }

  lemma {:induction false} OfOneState(q: nat, n: nat)
    ensures |set k: nat | k < n :: (q, k)| == n
  {
    if n > 0 {
      OfOneState(q, n - 1);
      assert (set k: nat | k < n :: (q, k)) == (set k: nat | k < n - 1 :: (q, k)) + {(q, n - 1)};
    }
  }

  /** carmel's options: -d, --train-cascade-compress, --train-cascade-compress-always. */
  datatype Flags = Flags(noReduce: bool, compress: bool, compressAlways: bool)

  /** shrink: something is left of a transducer that accepts something. */
  method Shrink(w: Wfst, flags: Flags) returns (w': Wfst, changed: bool, ghost t: seq<int>, ghost mask: seq<seq<bool>>)
    requires Valid(w) && Succeeds(w)
    ensures flags.noReduce ==> w' == w && !changed
    ensures !flags.noReduce ==> Valid(w') && Trimmed(w, w', t, mask) && Starts(w, w', t) && IsReduction(w, t, mask)
    ensures Valid(w') && forall x, y :: Relates(w, x, y) <==> Relates(w', x, y)
    ensures changed <==> |w'.states| != |w.states| || NumArcs(w'.states) != NumArcs(w.states)
  {
    if flags.noReduce {
      return w, false, [], [];
    }
    hide *;
    var r;
    r, t, mask := Reduce(w);
    w' := r.w;
    changed := |w'.states| != |w.states| || NumArcs(w'.states) != NumArcs(w.states);
  }

  /** What a composition accepts is a matching pair. */
  lemma ResultSucceeds(groups: bool, c: Problem, r: Composed)
    requires Ok(c) && c.groups == groups && Realizes(c, r) && Valid(r.w)
    requires exists pa, pb :: MatchingPair(Problem(groups, false, c.a, c.b), pa, pb)
    ensures Succeeds(r.w)
  {
    hide Realizes;
    var pa, pb :| MatchingPair(Problem(groups, false, c.a, c.b), pa, pb);
    assert MatchingPair(c, pa, pb);
    var p := CompositionComplete(c, r, pa, pb);
  }

  /** One more transducer: next_compose, set_compose. */
  method ComposeNext(cascade: Cascade, ws: seq<Wfst>, right: bool, groups: bool, i: nat, w: Wfst, ghost n: Node)
    returns (next: MaybeWfst, ghost n': Node)
    requires cascade.Valid() && i < |ws| && Assembled(cascade.Snapshot(), ws, right, i, w, n)
    modifies cascade`chains, cascade`epsilonChains, cascade`isChain0, cascade`isChain1
    ensures cascade.Valid()
    ensures next.Usable? ==> Fresh(cascade.Snapshot(), ws, right, i + 1, next.w, n')
    ensures !next.Usable? ==> n' == n && Blocked(cascade.Snapshot(), ws, right, groups, i, w, n)
  {
    hide Cascade.Valid, Linked, Realizes, AllGrouped, MatchingPair, Kept, WellComposed, Alike;
    if i == 1 {
      cascade.PrepareCompose(false, false);
    } else {
      cascade.PrepareCompose(!right, right);
    }
    ghost var bk := cascade.Snapshot();
    var k := if right then |ws| - 1 - i else i;
    AssembledExtends(old(cascade.Snapshot()), bk, ws, right, i, w, n);
    GivenLinked(bk, w, n);
    ghost var c, r;
    if right {
      next, c, r := SetCompose(cascade, Usable(ws[k]), Usable(w), NoIndexes(ws[k]), NoIndexes(w), groups);
    } else {
      next, c, r := SetCompose(cascade, Usable(w), Usable(ws[k]), NoIndexes(w), NoIndexes(ws[k]), groups);
    }
    n' := n;
    ghost var bk' := cascade.Snapshot();
    AssembledExtends(bk, bk', ws, right, i, w, n);
    if next.Usable? {
      n' := NextNode(bk', ws, right, i, w, n, c, r);
      ResultSucceeds(groups, c, r);
    }
  }

  /** i of ws were composed into w, which is not shrunk yet and whose chains are those of the cascade. */
  ghost predicate Fresh(bk: Book, ws: seq<Wfst>, right: bool, i: nat, w: Wfst, n: Node) {
    && (forall k :: 0 <= k < |ws| ==> Valid(ws[k]) && Linked(bk, false, ws[k]))
    && WellComposed(bk.trivial, bk.cells, n) && OnlyReduced(n) && !n.Leaf? && Top(n) == w && Table(n) == bk.chains
    && Valid(w) && Linked(bk, true, w) && Succeeds(w)
    && 1 < i <= |ws| && Leaves(n) == if right then ws[|ws| - i..] else ws[..i]
  }

  lemma NextNode(bk: Book, ws: seq<Wfst>, right: bool, i: nat, w: Wfst, n: Node, c: Problem, r: Composed) returns (n': Node)
    requires Assembled(bk, ws, right, i, w, n) && i < |ws| && Ok(c) && Realizes(c, r) && AllGrouped(bk, c, r)
    requires bk.ch0 == (!right && i > 1) && bk.ch1 == (right && i > 1)
    requires c.a == (if right then ws[|ws| - 1 - i] else w) && c.b == (if right then w else ws[i])
    ensures WellComposed(bk.trivial, bk.cells, n') && OnlyReduced(n') && !n'.Leaf? && Top(n') == r.w && Table(n') == bk.chains
    ensures Valid(r.w) && Linked(bk, true, r.w)
    ensures Leaves(n') == if right then ws[|ws| - (i + 1)..] else ws[..i + 1]
  {
    hide Linked, WellComposed, Alike, Realizes, AllGrouped, Valid, IsReduction;
    var leaf := Leaf(ws[if right then |ws| - 1 - i else i]);
    var left, right' := if right then leaf else n, if right then n else leaf;
    LeafMade(bk, leaf.w);
    CompMade(bk, c, r, left, right');
    n' := Comp(c, r, bk.chains, left, right');
    assert right ==> [ws[|ws| - 1 - i]] + ws[|ws| - i..] == ws[|ws| - 1 - i..];
    assert !right ==> ws[..i] + [ws[i]] == ws[..i + 1];
    assert Leaves(leaf) == [leaf.w];
  }

  lemma LeafMade(bk: Book, w: Wfst)
    requires Valid(w) && Linked(bk, false, w)
    ensures WellComposed(bk.trivial, bk.cells, Leaf(w)) && Given(bk, w, Leaf(w)) && OnlyReduced(Leaf(w))
  {
    LeafLinked(OwnBook(bk.trivial, bk.cells, Leaf(w)), bk, w);
  }

  /** One turn of the main loop: compose, shrink, done_composing. */
  method ComposeTurn(cascade: Cascade, ws: seq<Wfst>, right: bool, groups: bool, flags: Flags, i: nat, w: Wfst, ghost n: Node)
    returns (next: MaybeWfst, ghost n': Node)
    requires cascade.Valid() && i < |ws| && Assembled(cascade.Snapshot(), ws, right, i, w, n)
    modifies cascade
    ensures cascade.Valid() && cascade.cells == old(cascade.cells)
    ensures next.Usable? ==> Assembled(cascade.Snapshot(), ws, right, i + 1, next.w, n') && cascade.composed == next.w
    ensures !next.Usable? ==> n' == n && Blocked(cascade.Snapshot(), ws, right, groups, i, w, n)
  {
    hide Cascade.Valid, Assembled, Fresh, Blocked, IsReduction, Trimmed, Starts, Alike, InUse, Linked, Succeeds;
    next, n' := ComposeNext(cascade, ws, right, groups, i, w, n);
    if next.Invalid? { return; }
    ghost var bk := cascade.Snapshot();
    FreshHeld(bk, ws, right, i + 1, next.w, n');
    var w', changed;
    ghost var t, mask;
    w', changed, t, mask := Shrink(next.w, flags);
    n' := ShrinkNode(bk, ws, right, i + 1, next.w, w', t, mask, flags, n');
    cascade.DoneComposing(w', (changed && flags.compress) || flags.compressAlways);
    next := Usable(cascade.composed);
    Assemble(bk, cascade.Snapshot(), ws, right, i + 1, w', cascade.composed, n');
  }

  lemma FreshHeld(bk: Book, ws: seq<Wfst>, right: bool, i: nat, w: Wfst, n: Node)
    requires Fresh(bk, ws, right, i, w, n)
    ensures Valid(w) && Linked(bk, true, w) && Succeeds(w)
  {}

  /** ... and as above, but perhaps shrunk. */
  ghost predicate Ready(bk: Book, ws: seq<Wfst>, right: bool, i: nat, w: Wfst, n: Node) {
    && (forall k :: 0 <= k < |ws| ==> Valid(ws[k]) && Linked(bk, false, ws[k]))
    && WellComposed(bk.trivial, bk.cells, n) && OnlyReduced(n) && !n.Leaf? && Top(n) == w && Table(n) == bk.chains
    && 1 < i <= |ws| && Leaves(n) == if right then ws[|ws| - i..] else ws[..i]
  }

  lemma ShrinkNode(bk: Book, ws: seq<Wfst>, right: bool, i: nat, u: Wfst, w: Wfst, t: seq<int>, mask: seq<seq<bool>>, flags: Flags, n: Node)
    returns (n': Node)
    requires Fresh(bk, ws, right, i, u, n)
    requires flags.noReduce ==> w == u
    requires !flags.noReduce ==> Valid(u) && Valid(w) && Trimmed(u, w, t, mask) && Starts(u, w, t) && IsReduction(u, t, mask)
    ensures Ready(bk, ws, right, i, w, n') && Linked(bk, true, w)
  {
    hide Linked, WellComposed, Trimmed, Starts, IsReduction, ArcOk, Realizes;
    if flags.noReduce {
      n' := n;
    } else {
      ShrunkMade(bk, u, w, t, mask, n);
      n' := Shrunk(u, w, bk.chains, t, mask, n);
    }
  }

  lemma Assemble(bk: Book, bk': Book, ws: seq<Wfst>, right: bool, i: nat, w: Wfst, w': Wfst, n: Node)
    requires Ready(bk, ws, right, i, w, n) && SameOriginals(bk, bk')
    requires bk.trivial ==> w' == w
    requires !bk.trivial ==> Alike(bk'.chains, w', bk.chains, w)
    ensures Assembled(bk', ws, right, i, w', n)
  {
    hide Linked, WellComposed, Alike;
    forall j | 0 <= j < |ws| ensures Linked(bk', false, ws[j]) {
      LeafLinked(bk', bk, ws[j]);
    }
  }

  /** ((w0 * w1) * w2) ... or, right-associated, ... (w0 * (w1 * w2)): the result is the top of a cascade whose
    * leaves are ws in order. */
  method ComposeCascade(cascade: Cascade, ws: seq<Wfst>, right: bool, groups: bool, flags: Flags)
    returns (res: MaybeWfst, ghost n: Node, ghost last: Wfst)
    requires |ws| > 0 && cascade.Valid()
    requires forall i :: 0 <= i < |ws| ==> Valid(ws[i]) && Linked(cascade.Snapshot(), false, ws[i])
    modifies cascade
    ensures cascade.Valid() && cascade.cells == old(cascade.cells)
    ensures res.Usable? ==> WellComposed(cascade.trivial, cascade.cells, n) && Leaves(n) == ws && OnlyReduced(n)
    ensures res.Usable? ==> Given(cascade.Snapshot(), res.w, n) && (|ws| > 1 ==> cascade.composed == res.w)
    ensures !res.Usable? ==> Blocked(cascade.Snapshot(), ws, right, groups, |Leaves(n)|, last, n)
  {
    hide Cascade.Valid, Linked, Assembled, Blocked, Given, WellComposed, OnlyReduced, Leaves, Valid;
    var first := if right then |ws| - 1 else 0;
    res, n, last := Usable(ws[first]), Leaf(ws[first]), ws[first];
    AssembledFirst(cascade.Snapshot(), ws, right);
    var i := 1;
    while i < |ws|
      invariant 1 <= i <= |ws| && res.Usable?
      invariant cascade.Valid() && cascade.cells == old(cascade.cells)
      invariant Assembled(cascade.Snapshot(), ws, right, i, res.w, n) && (i > 1 ==> cascade.composed == res.w)
    {
      last := res.w;
      res, n := ComposeTurn(cascade, ws, right, groups, flags, i, res.w, n);
      if res.Invalid? {
        BlockedAt(cascade.Snapshot(), ws, right, groups, i, last, n);
        return res, n, last;
      }
      i := i + 1;
    }
    AssembledAll(cascade.Snapshot(), ws, right, res.w, n);
  }

  lemma AssembledFirst(bk: Book, ws: seq<Wfst>, right: bool)
    requires |ws| > 0 && forall i :: 0 <= i < |ws| ==> Valid(ws[i]) && Linked(bk, false, ws[i])
    ensures var w := ws[if right then |ws| - 1 else 0]; Assembled(bk, ws, right, 1, w, Leaf(w))
  {
    hide Linked, Valid, WellComposed;
    LeafMade(bk, ws[if right then |ws| - 1 else 0]);
  }

  lemma AssembledAll(bk: Book, ws: seq<Wfst>, right: bool, w: Wfst, n: Node)
    requires Assembled(bk, ws, right, |ws|, w, n)
    ensures WellComposed(bk.trivial, bk.cells, n) && Given(bk, w, n) && OnlyReduced(n) && Leaves(n) == ws
  {
    hide Linked, Valid, WellComposed, Given;
    assert ws[..|ws|] == ws && ws[0..] == ws;
  }

  lemma BlockedAt(bk: Book, ws: seq<Wfst>, right: bool, groups: bool, i: nat, w: Wfst, n: Node)
    requires Blocked(bk, ws, right, groups, i, w, n)
    ensures |Leaves(n)| == i
  {
    hide Linked, Valid, WellComposed, Given, NothingMatches;
  }

  /** update() after training: the transducer that composing the retrained originals in the same way would give. */
  method UpdateCascade(cascade: Cascade, ghost cells: map<nat, Cell>, ghost n: Node) returns (ghost n': Node)
    requires cascade.Valid() && !cascade.trivial && !n.Leaf? && Retrained(cells, cascade.cells)
    requires WellComposed(false, cells, n) && Given(cascade.Snapshot().(cells := cells), cascade.composed, n)
    modifies cascade`composed, cascade`chainWeights
    ensures WellComposed(false, cascade.cells, n') && Given(cascade.Snapshot(), cascade.composed, n')
    ensures |Leaves(n')| == |Leaves(n)|
    ensures forall i :: 0 <= i < |Leaves(n)| ==> Leaves(n')[i] == RetrainedLeaf(cascade.cells, Leaves(n)[i])
  {
    hide Cascade.Valid, Linked, WellComposed, Given, NewWfst, Retrained, Reweighed;
    ghost var bk, w := cascade.Snapshot().(cells := cells), cascade.composed;
    GivenLinked(bk, w, n);
    GroupsStayLinked(bk, cascade.Snapshot(), w);
    cascade.Update();
    n' := Reweighed(false, cells, cascade.cells, n);
    UpdatedIsRecomposed(bk, cascade.cells, w, n);
    NewByChains(bk, cascade.Snapshot(), cascade.cells, w);
    LeavesRetrained(cells, cascade.cells, n);
  }

  lemma GroupsStayLinked(bk: Book, bk': Book, w: Wfst)
    requires Linked(bk, true, w) && bk'.chains == bk.chains && bk'.trivial == bk.trivial
    ensures Linked(bk', true, w)
  {
    forall q, k | !bk.trivial && 0 <= q < |w.states| && 0 <= k < |w.states[q]| ensures ArcLinked(bk', true, w.states[q][k]) {
      assert ArcLinked(bk, true, w.states[q][k]);
    }
  }

  lemma NewByChains(bk: Book, bk': Book, cells': map<nat, Cell>, w: Wfst)
    requires bk'.chains == bk.chains
    ensures NewWfst(bk, cells', true, w) == NewWfst(bk', cells', true, w)
  {
    forall q | 0 <= q < |w.states| ensures NewArcs(bk, cells', true, w.states[q]) == NewArcs(bk', cells', true, w.states[q]) {}
    assert NewWfst(bk, cells', true, w).states == NewWfst(bk', cells', true, w).states;
  }

  /** The same transducer, each arc with the weight that its cell has now. */
  ghost function RetrainedLeaf(cells': map<nat, Cell>, w: Wfst): Wfst {
    NewWfst(Book(false, false, false, cells', []), cells', false, w)
  }

  lemma {:induction false} LeavesRetrained(cells: map<nat, Cell>, cells': map<nat, Cell>, n: Node)
    ensures |Leaves(Reweighed(false, cells, cells', n))| == |Leaves(n)|
    ensures forall i :: 0 <= i < |Leaves(n)| ==> Leaves(Reweighed(false, cells, cells', n))[i] == RetrainedLeaf(cells', Leaves(n)[i])
    decreases n
  {
    hide NewWfst, Updated, NewProblem;
    match n
    case Leaf(w) => SameNew(OwnBook(false, cells, n), Book(false, false, false, cells', []), cells', w);
    case Comp(_, _, _, left, right) =>
      LeavesRetrained(cells, cells', left);
      LeavesRetrained(cells, cells', right);
    case Shrunk(_, _, _, _, _, whole) => LeavesRetrained(cells, cells', whole);
  }
}
