/** Chains: which original arcs a composed arc was made from, and the groups that point to them. */
module Chains {
  import opened Transducer
  import opened Weights
  import opened Filter

  /** The part of an original arc that training changes (its weight), and whether it is locked. */
  datatype Cell = Cell(weight: real, locked: bool)

  /** What the group of a composed arc is read against. */
  datatype Book = Book(trivial: bool, ch0: bool, ch1: bool, cells: map<nat, Cell>, chains: seq<seq<nat>>)

  predicate LockedOne(cells: map<nat, Cell>, addr: nat) {
    addr in cells && cells[addr].locked && cells[addr].weight == 1.0
  }

  /** The chain of an arc given to composition: its own chain, or itself unless it is locked with weight one. */
  ghost function Operand(bk: Book, isChain: bool, arc: Arc): seq<nat> {
    if isChain then if arc.group < |bk.chains| then bk.chains[arc.group] else []
    else if LockedOne(bk.cells, arc.addr) then [] else [arc.addr]
  }

  ghost function Reverse<T>(s: seq<T>): (r: seq<T>)
    ensures |r| == |s|
  {
    if |s| == 0 then [] else Reverse(s[1..]) + [s[0]]
  }

  ghost function Joined(ch0: bool, ch1: bool, x: seq<nat>, y: seq<nat>): seq<nat> {
    if ch0 then if ch1 then Reverse(x) + y else y + x else x + y
  }

  ghost function MoveChain(bk: Book, c: Problem, key: Key, m: Move): seq<nat>
    requires Ok(c) && KeyOk(c, key) && Enabled(c, key, m)
  {
    match m
    case L(_) => Operand(bk, bk.ch0, ArcA(c, key, m))
    case R(_) => Operand(bk, bk.ch1, ArcB(c, key, m))
    case LR(_, _) => Joined(bk.ch0, bk.ch1, Operand(bk, bk.ch0, ArcA(c, key, m)), Operand(bk, bk.ch1, ArcB(c, key, m)))
    case Stop => []
  }

  /** g is the group that composition must give to the arc of a move. */
  ghost predicate GroupFits(bk: Book, c: Problem, key: Key, m: Move, g: nat)
    requires Ok(c) && KeyOk(c, key) && Enabled(c, key, m)
  {
    if bk.trivial then
      match m
      case L(_) => g == ArcA(c, key, m).group
      case R(_) => g == ArcB(c, key, m).group
      case LR(_, _) => g == NO_GROUP
      case Stop => g == LOCKED_GROUP
    else g < |bk.chains| && bk.chains[g] == MoveChain(bk, c, key, m)
  }

  ghost predicate ArcLinked(bk: Book, isChain: bool, arc: Arc) {
    if isChain then arc.group < |bk.chains|
    else arc.addr in bk.cells && bk.cells[arc.addr] == Cell(arc.weight, arc.group == LOCKED_GROUP)
  }

  /** The arcs of a transducer given to composition are known to the cascade. */
  ghost predicate Linked(bk: Book, isChain: bool, w: Wfst) {
    bk.trivial || forall q, k :: 0 <= q < |w.states| && 0 <= k < |w.states[q]| ==> ArcLinked(bk, isChain, w.states[q][k])
  }

  ghost predicate Extends(bk: Book, bk': Book) {
    bk' == bk.(chains := bk'.chains) && bk.chains <= bk'.chains
  }

  lemma GroupFitsExtends(bk: Book, bk': Book, c: Problem, key: Key, m: Move, g: nat)
    requires Ok(c) && KeyOk(c, key) && Enabled(c, key, m) && GroupFits(bk, c, key, m, g)
    requires Linked(bk, bk.ch0, c.a) && Linked(bk, bk.ch1, c.b) && Extends(bk, bk')
    ensures GroupFits(bk', c, key, m, g)
  {
    if !bk.trivial {
      if m.L? || m.LR? { assert ArcLinked(bk, bk.ch0, c.a.states[QA(c, key)][m.i]); }
      if m.R? || m.LR? { assert ArcLinked(bk, bk.ch1, c.b.states[QB(c, key)][m.j]); }
    }
  }

  lemma {:induction false} ReverseMembers<T>(s: seq<T>)
    ensures forall x :: x in Reverse(s) <==> x in s
  {
    if |s| > 0 {
      ReverseMembers(s[1..]);
      assert s == [s[0]] + s[1..];
    }
  }

  // ----- the same transducer under two tables of chains -----

  /** The two arcs differ at most in their groups, and those stand for the same chain. */
  ghost predicate AlikeArc(chains: seq<seq<nat>>, arc: Arc, chains': seq<seq<nat>>, arc': Arc) {
    && arc.group < |chains| && arc'.group < |chains'| && chains[arc.group] == chains'[arc'.group]
    && arc' == arc.(group := arc'.group)
  }

  ghost predicate AlikeArcs(chains: seq<seq<nat>>, arcs: seq<Arc>, chains': seq<seq<nat>>, arcs': seq<Arc>) {
    |arcs| == |arcs'| && forall k :: 0 <= k < |arcs| ==> AlikeArc(chains, arcs[k], chains', arcs'[k])
  }

  ghost predicate Alike(chains: seq<seq<nat>>, w: Wfst, chains': seq<seq<nat>>, w': Wfst) {
    && w' == w.(states := w'.states) && |w.states| == |w'.states|
    && forall q :: 0 <= q < |w.states| ==> AlikeArcs(chains, w.states[q], chains', w'.states[q])
  }

  lemma AlikeItself(bk: Book, w: Wfst)
    requires Linked(bk, true, w) && !bk.trivial
    ensures Alike(bk.chains, w, bk.chains, w)
  {
    forall q, k | 0 <= q < |w.states| && 0 <= k < |w.states[q]| ensures AlikeArc(bk.chains, w.states[q][k], bk.chains, w.states[q][k]) {
      assert ArcLinked(bk, true, w.states[q][k]);
    }
  }

  lemma AlikeExtends(chains: seq<seq<nat>>, more: seq<seq<nat>>, w: Wfst, chains': seq<seq<nat>>, w': Wfst)
    requires Alike(chains, w, chains', w') && chains <= more
    ensures Alike(more, w, chains', w')
  {
    forall q | 0 <= q < |w.states| ensures AlikeArcs(more, w.states[q], chains', w'.states[q]) {
      assert AlikeArcs(chains, w.states[q], chains', w'.states[q]);
    }
  }

  lemma AlikeLinked(bk: Book, w: Wfst, chains': seq<seq<nat>>, w': Wfst)
    requires Alike(bk.chains, w, chains', w') && Valid(w')
    ensures Valid(w) && Linked(bk, true, w)
  {
    forall q, k | 0 <= q < |w.states| && 0 <= k < |w.states[q]| ensures ArcOk(w, w.states[q][k]) && ArcLinked(bk, true, w.states[q][k]) {
      assert AlikeArcs(bk.chains, w.states[q], chains', w'.states[q]);
      assert AlikeArc(bk.chains, w.states[q][k], chains', w'.states[q][k]) && ArcOk(w', w'.states[q][k]);
    }
  }
}
