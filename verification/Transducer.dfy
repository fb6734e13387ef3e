/** Weighted finite-state transducers as carmel stores them: a list of arcs per state, arc lists ordered,
  * parallel arcs distinct.  A path is the sequence of positions, in the arc lists, of the arcs it takes. */
module Transducer {
  import opened Weights

  /** Index 0 of every alphabet is the empty symbol *e*. */
  const EPSILON: nat := 0
  const LOCKED_GROUP: nat := 0
  const NO_GROUP: nat := 0xFFFF_FFFF
  /** What an alphabet map holds for a symbol the other alphabet lacks: ~0 as a 32-bit unsigned. */
  const UNMATCHED: nat := 0xFFFF_FFFF

  /** `addr` is the identity of the arc (its address in the program). */
  datatype Arc = Arc(inp: nat, out: nat, dest: nat, weight: real, group: nat, addr: nat)

  datatype Wfst = Wfst(states: seq<seq<Arc>>, final: nat, ins: seq<string>, outs: seq<string>)

  /** An alphabet: distinct symbols, fewer than 2^32 - 1 of them, *e* first. */
  ghost predicate IsAlphabet(names: seq<string>) {
    && 0 < |names| <= UNMATCHED
    && names[EPSILON] == "*e*"
    && forall i, j :: 0 <= i < j < |names| ==> names[i] != names[j]
  }

  ghost predicate ArcOk(w: Wfst, arc: Arc) {
    arc.dest < |w.states| && arc.inp < |w.ins| && arc.out < |w.outs|
  }

  ghost predicate Valid(w: Wfst) {
    && 0 < |w.states| && w.final < |w.states|
    && IsAlphabet(w.ins) && IsAlphabet(w.outs)
    && forall q, k :: 0 <= q < |w.states| && 0 <= k < |w.states[q]| ==> ArcOk(w, w.states[q][k])
  }

  // ----- paths -----

  ghost predicate IsPath(w: Wfst, q: nat, p: seq<nat>)
    requires Valid(w) && q < |w.states|
    decreases |p|
  {
    |p| == 0 || (p[0] < |w.states[q]| && IsPath(w, w.states[q][p[0]].dest, p[1..]))
  }

  ghost function End(w: Wfst, q: nat, p: seq<nat>): (r: nat)
    requires Valid(w) && q < |w.states| && IsPath(w, q, p)
    ensures r < |w.states|
    decreases |p|
  {
    if |p| == 0 then q else End(w, w.states[q][p[0]].dest, p[1..])
  }

  ghost predicate Accepting(w: Wfst, p: seq<nat>)
    requires Valid(w)
  {
    IsPath(w, 0, p) && End(w, 0, p) == w.final
  }

  /** The symbol a label contributes to a string: nothing when it is *e*. */
  ghost function Emit(names: seq<string>, x: nat): seq<string>
    requires x < |names|
  {
    if x == EPSILON then [] else [names[x]]
  }

  ghost function InputOf(w: Wfst, q: nat, p: seq<nat>): seq<string>
    requires Valid(w) && q < |w.states| && IsPath(w, q, p)
    decreases |p|
  {
    if |p| == 0 then [] else
    var arc := w.states[q][p[0]];
    Emit(w.ins, arc.inp) + InputOf(w, arc.dest, p[1..])
  }

  ghost function OutputOf(w: Wfst, q: nat, p: seq<nat>): seq<string>
    requires Valid(w) && q < |w.states| && IsPath(w, q, p)
    decreases |p|
  {
    if |p| == 0 then [] else
    var arc := w.states[q][p[0]];
    Emit(w.outs, arc.out) + OutputOf(w, arc.dest, p[1..])
  }

  /** The weights of the arcs of a path, and the weight of the path: their product. */
  ghost function Factors(w: Wfst, q: nat, p: seq<nat>): seq<real>
    requires Valid(w) && q < |w.states| && IsPath(w, q, p)
    decreases |p|
  {
    if |p| == 0 then [] else
    var arc := w.states[q][p[0]];
    [arc.weight] + Factors(w, arc.dest, p[1..])
  }

  ghost function WeightOf(w: Wfst, q: nat, p: seq<nat>): real
    requires Valid(w) && q < |w.states| && IsPath(w, q, p)
  {
    Product(Factors(w, q, p))
  }

  ghost predicate NoDuplicates<T>(s: seq<T>) {
    forall i, j :: 0 <= i < j < |s| ==> s[i] != s[j]
  }

  /** What one arc in front does to a path. */
  lemma PathCons(w: Wfst, q: nat, i: nat, p: seq<nat>)
    requires Valid(w) && q < |w.states| && i < |w.states[q]|
    requires IsPath(w, w.states[q][i].dest, p)
    ensures IsPath(w, q, [i] + p)
    ensures End(w, q, [i] + p) == End(w, w.states[q][i].dest, p)
    ensures InputOf(w, q, [i] + p) == Emit(w.ins, w.states[q][i].inp) + InputOf(w, w.states[q][i].dest, p)
    ensures OutputOf(w, q, [i] + p) == Emit(w.outs, w.states[q][i].out) + OutputOf(w, w.states[q][i].dest, p)
    ensures Factors(w, q, [i] + p) == [w.states[q][i].weight] + Factors(w, w.states[q][i].dest, p)
  {
    assert ([i] + p)[1..] == p;
  }
}
