/** The product that a derivation lattice explores: input string x transducer x output string
  * (carmel/src/derivations.h). */
module Lattices {
  import opened Transducer

  /** An arc with the state it leaves; an arc's id is its place in the table of all arcs. */
  datatype TableArc = TableArc(src: nat, arc: Arc)

  datatype DState = DState(i: nat, s: nat, o: nat)

  /** The transducer as a table of arcs, the two strings, the final state. */
  datatype Instance = Instance(table: seq<TableArc>, nStates: nat, final: nat, ins: seq<nat>, outs: seq<nat>)

  ghost predicate Proper(c: Instance) {
    && 0 < c.nStates && c.final < c.nStates
    && (forall k :: 0 <= k < |c.table| ==> c.table[k].src < c.nStates && c.table[k].arc.dest < c.nStates)
    && (forall k :: 0 <= k < |c.ins| ==> c.ins[k] != EPSILON)
    && (forall k :: 0 <= k < |c.outs| ==> c.outs[k] != EPSILON)
  }

  const START: DState := DState(0, 0, 0)

  function Goal(c: Instance): DState { DState(|c.ins|, c.final, |c.outs|) }

  ghost predicate Within(c: Instance, d: DState) {
    d.i <= |c.ins| && d.s < c.nStates && d.o <= |c.outs|
  }

  /** Arc id leaves d, and reads and writes what is next in the strings, or nothing. */
  ghost predicate CanTake(c: Instance, d: DState, id: nat) {
    && id < |c.table| && c.table[id].src == d.s
    && (c.table[id].arc.inp != EPSILON ==> d.i < |c.ins| && c.ins[d.i] == c.table[id].arc.inp)
    && (c.table[id].arc.out != EPSILON ==> d.o < |c.outs| && c.outs[d.o] == c.table[id].arc.out)
  }

  ghost function Successor(c: Instance, d: DState, id: nat): DState
    requires CanTake(c, d, id)
  {
    var arc := c.table[id].arc;
    DState(if arc.inp == EPSILON then d.i else d.i + 1, arc.dest, if arc.out == EPSILON then d.o else d.o + 1)
  }

  /** Following the arcs p from d ends at the goal. */
  ghost predicate Reaches(c: Instance, d: DState, p: seq<nat>)
    decreases |p|
  {
    if |p| == 0 then d == Goal(c) else CanTake(c, d, p[0]) && Reaches(c, Successor(c, d, p[0]), p[1..])
  }

  // ----- the paths of the transducer that yield the two strings -----

  ghost predicate IsIdPath(c: Instance, s: nat, p: seq<nat>)
    decreases |p|
  {
    if |p| == 0 then s == c.final
    else p[0] < |c.table| && c.table[p[0]].src == s && IsIdPath(c, c.table[p[0]].arc.dest, p[1..])
  }

  ghost function Letter(x: nat): seq<nat> {
    if x == EPSILON then [] else [x]
  }

  ghost function InputString(c: Instance, p: seq<nat>): seq<nat> {
    if |p| == 0 then [] else
    (if p[0] < |c.table| then Letter(c.table[p[0]].arc.inp) else []) + InputString(c, p[1..])
  }

  ghost function OutputString(c: Instance, p: seq<nat>): seq<nat> {
    if |p| == 0 then [] else
    (if p[0] < |c.table| then Letter(c.table[p[0]].arc.out) else []) + OutputString(c, p[1..])
  }

  lemma LetterInFront(x: nat, y: seq<nat>, s: seq<nat>, i: nat)
    requires i <= |s|
    ensures Letter(x) + y == s[i..] <==>
      (x != EPSILON ==> i < |s| && s[i] == x) && y == s[if x == EPSILON || i == |s| then i else i + 1..]
      && (x != EPSILON ==> i < |s|)
  {
    if x != EPSILON {
      if Letter(x) + y == s[i..] {
        assert (Letter(x) + y)[0] == x && (Letter(x) + y)[1..] == y;
      }
      if i < |s| && s[i] == x && y == s[i + 1..] {
        assert s[i..] == [s[i]] + s[i + 1..];
      }
    }
  }

  /** Product paths to the goal are the transducer's paths that yield what is left of the strings. */
  lemma {:induction false} ReachesIsYield(c: Instance, d: DState, p: seq<nat>)
    requires Proper(c) && Within(c, d)
    ensures Reaches(c, d, p) <==>
      IsIdPath(c, d.s, p) && InputString(c, p) == c.ins[d.i..] && OutputString(c, p) == c.outs[d.o..]
    decreases |p|
  {
    if |p| > 0 && p[0] < |c.table| {
      var arc, rest := c.table[p[0]].arc, p[1..];
      LetterInFront(arc.inp, InputString(c, rest), c.ins, d.i);
      LetterInFront(arc.out, OutputString(c, rest), c.outs, d.o);
      if CanTake(c, d, p[0]) {
        ReachesIsYield(c, Successor(c, d, p[0]), rest);
      }
    }
  }

  // ----- lattices -----

  datatype GArc = GArc(src: nat, dest: nat, id: nat)

  /** A lattice: arcs per state, which product state each state stands for, the final state. */
  datatype Lattice = Lattice(g: seq<seq<GArc>>, names: seq<DState>, fin: nat)

  ghost predicate LatticeArcOk(c: Instance, g: seq<seq<GArc>>, names: seq<DState>, k: nat, a: GArc)
    requires k < |names|
  {
    && a.src == k && a.dest < |names|
    && CanTake(c, names[k], a.id) && names[a.dest] == Successor(c, names[k], a.id)
  }

  ghost predicate Stored(arcs: seq<GArc>, id: nat) {
    exists j :: 0 <= j < |arcs| && arcs[j].id == id
  }

  ghost predicate OncePerId(arcs: seq<GArc>) {
    forall i, j :: 0 <= i < j < |arcs| ==> arcs[i].id != arcs[j].id
  }

  ghost predicate Hopeless(c: Instance, d: DState) {
    forall p :: !Reaches(c, d, p)
  }

  /** A lattice that misses nothing: an arc is left out only if nothing can be reached by it. */
  ghost predicate Exact(c: Instance, l: Lattice) {
    && |l.g| == |l.names| > 0 && l.names[0] == START
    && l.fin < |l.names| && l.names[l.fin] == Goal(c)
    && (forall j, k :: 0 <= j < k < |l.names| ==> l.names[j] != l.names[k])
    && (forall k, j :: 0 <= k < |l.g| && 0 <= j < |l.g[k]| ==> LatticeArcOk(c, l.g, l.names, k, l.g[k][j]))
    && (forall k :: 0 <= k < |l.g| ==> OncePerId(l.g[k]))
    && (forall k, id :: 0 <= k < |l.g| && CanTake(c, l.names[k], id) ==>
          Stored(l.g[k], id) || Hopeless(c, Successor(c, l.names[k], id)))
  }

  /** A path in a lattice, by positions in the arc lists, to the final state. */
  ghost predicate LatticePath(l: Lattice, k: nat, ps: seq<nat>)
    decreases |ps|
  {
    if |ps| == 0 then k == l.fin
    else k < |l.g| && ps[0] < |l.g[k]| && LatticePath(l, l.g[k][ps[0]].dest, ps[1..])
  }

  ghost function IdsOf(l: Lattice, k: nat, ps: seq<nat>): seq<nat>
    requires LatticePath(l, k, ps)
    decreases |ps|
  {
    if |ps| == 0 then [] else [l.g[k][ps[0]].id] + IdsOf(l, l.g[k][ps[0]].dest, ps[1..])
  }

  lemma {:induction false} LatticePathReaches(c: Instance, l: Lattice, k: nat, ps: seq<nat>)
    requires Exact(c, l) && k < |l.g| && LatticePath(l, k, ps)
    ensures Reaches(c, l.names[k], IdsOf(l, k, ps))
    decreases |ps|
  {
    if |ps| > 0 {
      var a := l.g[k][ps[0]];
      assert LatticeArcOk(c, l.g, l.names, k, a);
      LatticePathReaches(c, l, a.dest, ps[1..]);
      assert IdsOf(l, k, ps)[1..] == IdsOf(l, a.dest, ps[1..]);
    }
  }

  lemma {:induction false} ReachingPathStored(c: Instance, l: Lattice, k: nat, p: seq<nat>) returns (ps: seq<nat>)
    requires Exact(c, l) && k < |l.g| && Reaches(c, l.names[k], p)
    ensures LatticePath(l, k, ps) && IdsOf(l, k, ps) == p
    decreases |p|
  {
    if |p| == 0 {
      ps := [];
    } else {
      assert CanTake(c, l.names[k], p[0]);
      assert Reaches(c, Successor(c, l.names[k], p[0]), p[1..]);
      assert Stored(l.g[k], p[0]);
      var j :| 0 <= j < |l.g[k]| && l.g[k][j].id == p[0];
      assert LatticeArcOk(c, l.g, l.names, k, l.g[k][j]);
      var rest := ReachingPathStored(c, l, l.g[k][j].dest, p[1..]);
      ps := [j] + rest;
      assert ps[1..] == rest;
      assert p == [p[0]] + p[1..];
    }
  }

  lemma {:induction false} IdsDetermine(c: Instance, l: Lattice, k: nat, ps: seq<nat>, ps': seq<nat>)
    requires Exact(c, l) && k < |l.g| && LatticePath(l, k, ps) && LatticePath(l, k, ps')
    requires IdsOf(l, k, ps) == IdsOf(l, k, ps')
    ensures ps == ps'
    decreases |ps|
  {
    if |ps| > 0 && |ps'| > 0 {
      var x, x' := IdsOf(l, k, ps), IdsOf(l, k, ps');
      assert x[0] == l.g[k][ps[0]].id && x'[0] == l.g[k][ps'[0]].id;
      assert OncePerId(l.g[k]);
      assert ps[0] == ps'[0];
      var a := l.g[k][ps[0]];
      assert LatticeArcOk(c, l.g, l.names, k, a);
      assert x[1..] == IdsOf(l, a.dest, ps[1..]) && x'[1..] == IdsOf(l, a.dest, ps'[1..]);
      IdsDetermine(c, l, a.dest, ps[1..], ps'[1..]);
      assert ps == [ps[0]] + ps[1..] && ps' == [ps'[0]] + ps'[1..];
    }
  }

  /** The paths of an exact lattice are, one for one, the paths of the transducer that yield the two strings. */
  lemma LatticeIsYields(c: Instance, l: Lattice, p: seq<nat>)
    requires Proper(c) && Exact(c, l)
    ensures (IsIdPath(c, 0, p) && InputString(c, p) == c.ins && OutputString(c, p) == c.outs)
       <==> exists ps :: LatticePath(l, 0, ps) && IdsOf(l, 0, ps) == p
    ensures forall ps, ps' :: LatticePath(l, 0, ps) && LatticePath(l, 0, ps') && IdsOf(l, 0, ps) == IdsOf(l, 0, ps') ==> ps == ps'
  {
    assert c.ins[0..] == c.ins && c.outs[0..] == c.outs;
    ReachesIsYield(c, START, p);
    if Reaches(c, START, p) {
      var ps := ReachingPathStored(c, l, 0, p);
    }
    forall ps | LatticePath(l, 0, ps) && IdsOf(l, 0, ps) == p ensures Reaches(c, START, p) {
      LatticePathReaches(c, l, 0, ps);
    }
    forall ps, ps' | LatticePath(l, 0, ps) && LatticePath(l, 0, ps') && IdsOf(l, 0, ps) == IdsOf(l, 0, ps') ensures ps == ps' {
      IdsDetermine(c, l, 0, ps, ps');
    }
  }
}
