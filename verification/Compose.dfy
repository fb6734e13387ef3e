/** WFST::set_compose (carmel/src/compose.cc): the worklist over (state of a, state of b, filter) triples. */
module Compose {
  import opened Transducer
  import opened Weights
  import opened Filter
  import opened Composition
  import opened Chains
  import opened Cascades
  import opened Worklist
  import opened Finals
  import opened Options

  const INDEX_THRESHOLD: nat := 12

  // ----- alphabets and arc indices -----

  /** m[x] is the index in `to` of the symbol `from[x]`, or UNMATCHED. */
  ghost predicate IsLetterMap(m: seq<nat>, from: seq<string>, to: seq<string>) {
    && |m| == |from|
    && (forall x, y :: 0 <= x < |from| && 0 <= y < |to| ==> (m[x] == y <==> from[x] == to[y]))
  }

  method ComputeMap(from: seq<string>, to: seq<string>) returns (m: seq<nat>)
    requires IsAlphabet(from) && IsAlphabet(to)
    ensures IsLetterMap(m, from, to)
  {
    var table: map<string, nat> := map[];
    for y := 0 to |to|
      invariant forall s :: s in table ==> table[s] < y && to[table[s]] == s
      invariant forall z :: 0 <= z < y ==> to[z] in table
    {
      table := table[to[y] := y];
    }
    m := [];
    for x := 0 to |from|
      invariant |m| == x
      invariant forall z, y :: 0 <= z < x && 0 <= y < |to| ==> (m[z] == y <==> from[z] == to[y])
    {
      m := m + [if from[x] in table then table[from[x]] else UNMATCHED];
    }
  }

  function Symbol(arc: Arc, byOutput: bool): nat {
    if byOutput then arc.out else arc.inp
  }

  /** A list of the positions, among the first n arcs, that carry x. */
  ghost predicate Lists(list: seq<nat>, arcs: seq<Arc>, n: nat, byOutput: bool, x: nat)
    requires n <= |arcs|
  {
    && NoDuplicates(list)
    && (forall i :: 0 <= i < |list| ==> list[i] < n && Symbol(arcs[list[i]], byOutput) == x)
    && (forall k :: 0 <= k < n && Symbol(arcs[k], byOutput) == x ==> k in list)
  }

  ghost predicate IsIndex(index: map<nat, seq<nat>>, arcs: seq<Arc>, n: nat, byOutput: bool)
    requires n <= |arcs|
  {
    && (forall x :: x in index ==> |index[x]| > 0 && Lists(index[x], arcs, n, byOutput, x))
    && (forall k :: 0 <= k < n ==> Symbol(arcs[k], byOutput) in index)
  }

  lemma ListsGrow(list: seq<nat>, arcs: seq<Arc>, l: nat, byOutput: bool, x: nat)
    requires l < |arcs| && Lists(list, arcs, l, byOutput, x)
    ensures Symbol(arcs[l], byOutput) == x ==> Lists([l] + list, arcs, l + 1, byOutput, x)
    ensures Symbol(arcs[l], byOutput) != x ==> Lists(list, arcs, l + 1, byOutput, x)
  {
    assert ([l] + list)[0] == l;
    assert forall k :: k in list ==> k in [l] + list;
  }

  type Index = map<nat, seq<nat>>

  /** A state that has an index keeps it, whichever direction it is for. */
  method IndexBy(arcs: seq<Arc>, byOutput: bool, kept: Option<Index>) returns (index: Index)
    ensures kept.Some? ==> index == kept.value
    ensures kept.None? ==> IsIndex(index, arcs, |arcs|, byOutput)
  {
    hide Lists;
    if kept.Some? { return kept.value; }
    index := map[];
    for l := 0 to |arcs|
      invariant IsIndex(index, arcs, l, byOutput)
    {
      var x := Symbol(arcs[l], byOutput);
      forall y | y in index
        ensures y != x ==> Lists(index[y], arcs, l + 1, byOutput, y)
        ensures y == x ==> Lists([l] + index[y], arcs, l + 1, byOutput, y)
      {
        ListsGrow(index[y], arcs, l, byOutput, y);
      }
      if x !in index {
        NothingListed(index, arcs, l, byOutput, x);
        ListsGrow([], arcs, l, byOutput, x);
      }
      index := index[x := [l] + if x in index then index[x] else []];
    }
  }

  lemma NothingListed(index: map<nat, seq<nat>>, arcs: seq<Arc>, n: nat, byOutput: bool, x: nat)
    requires n <= |arcs| && IsIndex(index, arcs, n, byOutput) && x !in index
    ensures Lists([], arcs, n, byOutput, x)
  {}

  /** The index of the other direction serves exactly if every arc reads what it writes. */
  lemma OtherIndexServes(index: Index, arcs: seq<Arc>, byOutput: bool)
    requires IsIndex(index, arcs, |arcs|, byOutput)
    ensures IsIndex(index, arcs, |arcs|, !byOutput) <==> forall k :: 0 <= k < |arcs| ==> arcs[k].inp == arcs[k].out
  {
    if IsIndex(index, arcs, |arcs|, !byOutput) {
      forall k | 0 <= k < |arcs| ensures arcs[k].inp == arcs[k].out {
        var x := Symbol(arcs[k], byOutput);
        assert Lists(index[x], arcs, |arcs|, byOutput, x) && Lists(index[x], arcs, |arcs|, !byOutput, x);
      }
    } else if forall k :: 0 <= k < |arcs| ==> arcs[k].inp == arcs[k].out {
      forall x | x in index ensures Lists(index[x], arcs, |arcs|, !byOutput, x) {
        assert Lists(index[x], arcs, |arcs|, byOutput, x);
      }
    }
  }

  /** State 0 reads a and writes b, or reads b and writes c. */
  const SHARED: Wfst := Wfst([[Arc(1, 2, 1, 1.0, NO_GROUP, 0), Arc(2, 1, 1, 1.0, NO_GROUP, 1)], []], 1, ["*e*", "a", "b"], ["*e*", "c", "b"])

  /** One object as both operands: its state is indexed by output, and then asked for an index by input. The first arc
    * matches the second, but under the letter that the first writes the index lists the first arc alone. */
  method SharedIndexLoses() returns (letters: seq<nat>, right: Index)
    ensures Transducer.Valid(SHARED) && MatchingPair(Problem(true, false, SHARED, SHARED), [0], [1])
    ensures IsLetterMap(letters, SHARED.outs, SHARED.ins) && letters[SHARED.states[0][0].out] in right
    ensures forall j :: j in right[letters[SHARED.states[0][0].out]] <==> j == 0
    ensures !Same(Problem(true, false, SHARED, SHARED), SHARED.states[0][0].out, SHARED.states[0][0].inp)
  {
    SharedPath(0);
    SharedPath(1);
    letters := ComputeMap(SHARED.outs, SHARED.ins);
    var left := IndexBy(SHARED.states[0], true, None);
    right := IndexBy(SHARED.states[0], false, Some(left));
    assert letters[2] == 2 && Symbol(SHARED.states[0][0], true) == 2;
    assert Lists(right[2], SHARED.states[0], 2, true, 2);
  }

  lemma SharedPath(k: nat)
    requires k < 2
    ensures Transducer.Valid(SHARED) && Accepting(SHARED, [k])
    ensures InputOf(SHARED, 0, [k]) == [if k == 0 then "a" else "b"] && OutputOf(SHARED, 0, [k]) == [if k == 0 then "b" else "c"]
  {
    assert [k][1..] == [];
    PathCons(SHARED, 0, k, []);
    assert [k] == [k] + [];
  }

  /** The indexes that the states have from before are for the direction in which composition uses them. */
  ghost predicate Kept(indexes: seq<Option<Index>>, states: seq<seq<Arc>>, byOutput: bool) {
    |indexes| == |states| && forall q :: 0 <= q < |states| && indexes[q].Some? ==> IsIndex(indexes[q].value, states[q], |states[q]|, byOutput)
  }

  class Composer {
    const a: Wfst
    const b: Wfst
    const indexesA: seq<Option<Index>>
    const indexesB: seq<Option<Index>>
    const groups: bool
    const cascade: Cascade
    const letters: seq<nat>
    const revLetters: seq<nat>
    var states: seq<seq<Arc>>
    var stateMap: map<Key, nat>
    var mediateMap: map<Key, nat>
    var queue: seq<TrioId>
    var final: nat
    /** The origin of the states and arcs; how each state was reached; the states that still lack some of their arcs, and those queued. */
    ghost var keys: seq<Key>
    ghost var moves: seq<seq<Move>>
    ghost var routes: seq<seq<Move>>
    ghost var open: set<nat>
    ghost var waiting: set<nat>

    ghost function Unmerged(): Problem {
      Problem(groups, false, a, b)
    }

    ghost function Result(): Composed
      reads this
    {
      Composed(Wfst(states, final, a.ins, b.outs), keys, moves)
    }

    ghost function Progress(): Tables
      reads this
    {
      Tables(stateMap, mediateMap, queue, waiting, open, routes)
    }

    ghost predicate Inputs() {
      && Transducer.Valid(a) && Transducer.Valid(b)
      && IsLetterMap(letters, a.outs, b.ins) && IsLetterMap(revLetters, b.ins, a.outs)
      && Kept(indexesA, a.states, true) && Kept(indexesB, b.states, false)
    }

    ghost predicate Core()
      reads this
    {
      && Inputs()
      && Built(Unmerged(), Result(), Progress())
    }

    /** The cascade knows the arcs of a and b, and every composed arc has the group of its move. */
    ghost predicate Booked()
      reads this, cascade
    {
      Inputs() && BookedFor(Result())
    }

    ghost predicate BookedFor(r: Composed)
      requires Inputs()
      reads cascade
    {
      && cascade.Valid()
      && Linked(cascade.Snapshot(), cascade.isChain0, a) && Linked(cascade.Snapshot(), cascade.isChain1, b)
      && AllGrouped(cascade.Snapshot(), Unmerged(), r)
    }

    constructor (cascade: Cascade, a: Wfst, b: Wfst, indexesA: seq<Option<Index>>, indexesB: seq<Option<Index>>, groups: bool)
      requires Kept(indexesA, a.states, true) && Kept(indexesB, b.states, false)
      requires Transducer.Valid(a) && Transducer.Valid(b) && cascade.Valid()
      requires Linked(cascade.Snapshot(), cascade.isChain0, a) && Linked(cascade.Snapshot(), cascade.isChain1, b)
      ensures this.a == a && this.b == b && this.groups == groups && this.cascade == cascade
      ensures Core() && Booked() && open == waiting
    {
      this.a, this.b, this.groups, this.cascade := a, b, groups, cascade;
      this.indexesA, this.indexesB := indexesA, indexesB;
      var toB := ComputeMap(a.outs, b.ins);
      var toA := ComputeMap(b.ins, a.outs);
      letters, revLetters := toB, toA;
      var start := Trio(0, 0, 0);
      states, stateMap, mediateMap, queue := [[]], map[start := 0], map[], [TrioId(0, start)];
      keys, moves, routes, open, waiting := [start], [[]], [[]], {0}, {0};
      final := 0;
      new;
      hide Linked;
    }

    method IndexA(q: nat) returns (index: Index)
      requires Inputs() && q < |a.states|
      ensures IsIndex(index, a.states[q], |a.states[q]|, true)
    {
      hide IsIndex;
      index := IndexBy(a.states[q], true, indexesA[q]);
    }

    method IndexB(q: nat) returns (index: Index)
      requires Inputs() && q < |b.states|
      ensures IsIndex(index, b.states[q], |b.states[q]|, false)
    {
      hide IsIndex;
      index := IndexBy(b.states[q], false, indexesB[q]);
    }

    /** push_back(states) for a new triple, entered in the table and queued. */
    method NewTrio(tri: Key, ghost route: seq<Move>) returns (num: nat)
      requires Core() && Booked() && tri.Trio? && KeyOk(Unmerged(), tri) && tri !in stateMap && Routes(Unmerged(), route, tri)
      modifies this`states, this`stateMap, this`queue, this`keys, this`moves, this`routes, this`open, this`waiting
      ensures Core() && Booked()
      ensures num == |old(keys)| && keys == old(keys) + [tri] && moves == old(moves) + [[]]
      ensures states == old(states) + [[]]
      ensures stateMap == old(stateMap)[tri := num] && queue == [TrioId(num, tri)] + old(queue)
      ensures open == old(open) + {num} && waiting == old(waiting) + {num}
    {
      hide Core, Booked, Built, AllGrouped, KeyOk, Routes;
      Held();
      ghost var r, t := Result(), Progress();
      BuiltNewTrio(Unmerged(), r, t, tri, route);
      num := PushTrio(tri, route);
      StillBooked(r, AddState(r, tri));
      Hold(AddState(r, tri), EnterTrio(t, num, tri, route));
    }

    method PushTrio(tri: Key, ghost route: seq<Move>) returns (num: nat)
      modifies this`states, this`stateMap, this`queue, this`keys, this`moves, this`routes, this`open, this`waiting
      ensures num == |old(states)|
      ensures Result() == AddState(old(Result()), tri) && Progress() == EnterTrio(old(Progress()), num, tri, route)
    {
      hide AddState, EnterTrio;
      ghost var r, t := Result(), Progress();
      Entered(r, t, |states|, tri, route);
      num := |states|;
      stateMap, queue, states := stateMap[tri := num], [TrioId(num, tri)] + queue, states + [[]];
      keys, moves, routes, open, waiting := keys + [tri], moves + [[]], routes + [route], open + {num}, waiting + {num};
    }

    lemma Entered(r: Composed, t: Tables, num: nat, tri: Key, route: seq<Move>)
      ensures AddState(r, tri) == Composed(Wfst(r.w.states + [[]], r.w.final, r.w.ins, r.w.outs), r.keys + [tri], r.moves + [[]])
      ensures EnterTrio(t, num, tri, route) ==
        Tables(t.stateMap[tri := num], t.mediateMap, [TrioId(num, tri)] + t.queue, t.waiting + {num}, t.open + {num}, t.routes + [route])
    {}

    /** What Core and Booked are about. */
    lemma Held()
      requires Core() && Booked()
      ensures Ok(Unmerged()) && Inputs() && Built(Unmerged(), Result(), Progress())
      ensures BookedFor(Result())
    {}

    lemma StillBooked(r: Composed, r': Composed)
      requires Inputs() && BookedFor(r) && forall bk :: AllGrouped(bk, Unmerged(), r) ==> AllGrouped(bk, Unmerged(), r')
      ensures BookedFor(r')
    {
      hide AllGrouped, Linked;
    }

    lemma Hold(r: Composed, t: Tables)
      requires Inputs() && Result() == r && Progress() == t && Built(Unmerged(), r, t) && BookedFor(r)
      ensures Core() && Booked()
    {}

    /** states[source].addArc(arc): the new arc goes in front. */
    method AddArc(source: nat, arc: Arc, ghost m: Move)
      requires Core() && Shaped(Unmerged(), Result()) && source in open && source !in waiting && source < |keys|
      requires ArcFits(Unmerged(), Result(), source, arc, m) && m !in moves[source]
      modifies this`states, this`moves
      ensures Core()
      ensures old(Booked()) && ArcGrouped(cascade.Snapshot(), Unmerged(), keys[source], m, arc.group) ==> Booked()
      ensures states == old(states)[source := [arc] + old(states)[source]]
      ensures moves == old(moves)[source := [m] + old(moves)[source]]
    {
      hide Built, AllGrouped, Linked, ArcFits, ArcGrouped, Shaped, Transducer.Valid;
      BuiltShape(Unmerged(), Result(), Progress());
      BuiltAddArc(Unmerged(), Result(), Progress(), source, arc, m);
      states := states[source := [arc] + states[source]];
      moves := moves[source := [m] + moves[source]];
    }

    /** COMPOSEARC: add an arc from `source` to the state of `tri`, making and queueing that state if it is new. */
    method ComposeArc(source: nat, tri: Key, inp: nat, out: nat, weight: real, g: nat, ghost m: Move, ghost busy: set<nat>)
      requires Core() && Booked() && open == waiting + busy && source in busy && busy !! waiting
      requires Enabled(Unmerged(), keys[source], m) && m !in moves[source]
      requires tri == Target(Unmerged(), keys[source], m) && tri.Trio?
      requires inp == MoveIn(Unmerged(), keys[source], m) && out == MoveOut(Unmerged(), keys[source], m)
      requires weight == MoveWeight(Unmerged(), keys[source], m)
      requires GroupFits(cascade.Snapshot(), Unmerged(), keys[source], m, g)
      modifies this`states, this`stateMap, this`queue, this`keys, this`moves, this`routes, this`open, this`waiting
      ensures Core() && Booked() && open == waiting + busy && busy !! waiting
      ensures old(keys) <= keys && |moves| == |keys| && moves[source] == [m] + old(moves[source])
      ensures forall s :: s in busy && s != source && s < |old(moves)| ==> moves[s] == old(moves[s])
      ensures Grew()
    {
      hide Built, Enabled, Target, MoveIn, MoveOut, MoveWeight, GroupFits, Linked, AllGrouped, KeyOk, Shaped, Routed, Transducer.Valid;
      BuiltShape(Unmerged(), Result(), Progress());
      assert KeyOk(Unmerged(), Result().keys[source]);
      RouteOn(Unmerged(), keys, routes, source, m);
      var num := TrioFor(tri, routes[source] + [m], busy);
      AddArc(source, Arc(inp, out, num, weight, g, 0), m);
    }

    /** The state of a triple, new if there is none yet. */
    method TrioFor(tri: Key, ghost route: seq<Move>, ghost busy: set<nat>) returns (num: nat)
      requires Core() && Booked() && open == waiting + busy && busy !! waiting
      requires tri.Trio? && KeyOk(Unmerged(), tri) && Routes(Unmerged(), route, tri)
      modifies this`states, this`stateMap, this`queue, this`keys, this`moves, this`routes, this`open, this`waiting
      ensures Core() && Booked() && open == waiting + busy && busy !! waiting && Shaped(Unmerged(), Result())
      ensures old(keys) <= keys && |moves| == |keys| && num < |keys| && keys[num] == tri
      ensures forall s :: s in busy ==> s < |old(moves)| && s < |keys| && moves[s] == old(moves[s])
      ensures Grew()
    {
      hide Built, AllGrouped, Linked, KeyOk, Shaped, Routes, Routed, Transducer.Valid;
      BuiltShape(Unmerged(), Result(), Progress());
      if tri in stateMap {
        num := stateMap[tri];
      } else {
        num := NewTrio(tri, route);
        BuiltShape(Unmerged(), Result(), Progress());
      }
    }

    /** Chains and triples are only added, and the queue is as it was unless a triple was. */
    twostate predicate Grew()
      reads this, cascade
    {
      && old(cascade.chains) <= cascade.chains
      && old(stateMap).Keys <= stateMap.Keys
      && (stateMap.Keys == old(stateMap).Keys ==> queue == old(queue))
    }

    /** State `source`, of key `tri`, is being expanded; `busy` are the states that are. */
    ghost predicate Busy(source: nat, tri: Key, busy: set<nat>)
      reads this, cascade
    {
      && Inputs() && Core() && Booked() && open == waiting + busy && source in busy && busy !! waiting
      && source < |keys| && keys[source] == tri && KeyOk(Unmerged(), tri)
      && |moves| == |keys|
    }

    /** COMPOSEARC with the group of an arc of a, of an arc of b, of a matched pair. */
    method ComposeA(source: nat, tri: Key, dest: Key, inp: nat, out: nat, weight: real, la: Arc, ghost m: Move, ghost busy: set<nat>)
      requires Busy(source, tri, busy) && Enabled(Unmerged(), tri, m) && m !in moves[source]
      requires dest == Target(Unmerged(), tri, m) && dest.Trio?
      requires inp == MoveIn(Unmerged(), tri, m) && out == MoveOut(Unmerged(), tri, m)
      requires weight == MoveWeight(Unmerged(), tri, m)
      requires m.L? && la == ArcA(Unmerged(), tri, m)
      modifies this`states, this`stateMap, this`queue, this`keys, this`moves, this`routes, this`open, this`waiting
      modifies cascade`chains, cascade`epsilonChains
      ensures Busy(source, tri, busy) && old(keys) <= keys && moves[source] == [m] + old(moves[source])
      ensures forall s :: s in busy && s != source && s < |old(moves)| ==> moves[s] == old(moves[s])
      ensures Grew()
    {
      hide Core, Enabled, Target, MoveIn, MoveOut, MoveWeight, Shaped, KeyOk, Linked;
      MoveArcsLinked(cascade.Snapshot(), Unmerged(), tri, m);
      var g := cascade.Record1(la);
      GroupedExtends(old(cascade.Snapshot()), cascade.Snapshot(), Unmerged(), Result());
      ComposeArc(source, dest, inp, out, weight, g, m, busy);
    }

    method ComposeB(source: nat, tri: Key, dest: Key, inp: nat, out: nat, weight: real, rb: Arc, ghost m: Move, ghost busy: set<nat>)
      requires Busy(source, tri, busy) && Enabled(Unmerged(), tri, m) && m !in moves[source]
      requires dest == Target(Unmerged(), tri, m) && dest.Trio?
      requires inp == MoveIn(Unmerged(), tri, m) && out == MoveOut(Unmerged(), tri, m)
      requires weight == MoveWeight(Unmerged(), tri, m)
      requires m.R? && rb == ArcB(Unmerged(), tri, m)
      modifies this`states, this`stateMap, this`queue, this`keys, this`moves, this`routes, this`open, this`waiting
      modifies cascade`chains, cascade`epsilonChains
      ensures Busy(source, tri, busy) && old(keys) <= keys && moves[source] == [m] + old(moves[source])
      ensures forall s :: s in busy && s != source && s < |old(moves)| ==> moves[s] == old(moves[s])
      ensures Grew()
    {
      hide Core, Enabled, Target, MoveIn, MoveOut, MoveWeight, Shaped, KeyOk, Linked;
      MoveArcsLinked(cascade.Snapshot(), Unmerged(), tri, m);
      var g := cascade.Record2(rb);
      GroupedExtends(old(cascade.Snapshot()), cascade.Snapshot(), Unmerged(), Result());
      ComposeArc(source, dest, inp, out, weight, g, m, busy);
    }

    method ComposeAB(source: nat, tri: Key, dest: Key, inp: nat, out: nat, weight: real, la: Arc, rb: Arc, ghost m: Move, ghost busy: set<nat>)
      requires Busy(source, tri, busy) && Enabled(Unmerged(), tri, m) && m !in moves[source]
      requires dest == Target(Unmerged(), tri, m) && dest.Trio?
      requires inp == MoveIn(Unmerged(), tri, m) && out == MoveOut(Unmerged(), tri, m)
      requires weight == MoveWeight(Unmerged(), tri, m)
      requires m.LR? && la == ArcA(Unmerged(), tri, m) && rb == ArcB(Unmerged(), tri, m)
      modifies this`states, this`stateMap, this`queue, this`keys, this`moves, this`routes, this`open, this`waiting
      modifies cascade`chains, cascade`epsilonChains
      ensures Busy(source, tri, busy) && old(keys) <= keys && moves[source] == [m] + old(moves[source])
      ensures forall s :: s in busy && s != source && s < |old(moves)| ==> moves[s] == old(moves[s])
      ensures Grew()
    {
      hide Core, Enabled, Target, MoveIn, MoveOut, MoveWeight, Shaped, KeyOk, Linked, ArcA, ArcB, GroupFits, BookedFor, Inputs;
      var g := RecordPair(source, tri, la, rb, m, busy);
      ComposeArc(source, dest, inp, out, weight, g, m, busy);
    }

    /** The chain of a matched pair. */
    method RecordPair(source: nat, tri: Key, la: Arc, rb: Arc, ghost m: Move, ghost busy: set<nat>) returns (g: nat)
      requires Busy(source, tri, busy) && Enabled(Unmerged(), tri, m)
      requires m.LR? && la == ArcA(Unmerged(), tri, m) && rb == ArcB(Unmerged(), tri, m)
      modifies cascade`chains, cascade`epsilonChains
      ensures Busy(source, tri, busy) && GroupFits(cascade.Snapshot(), Unmerged(), tri, m, g)
      ensures old(cascade.chains) <= cascade.chains
    {
      hide Core, Enabled, Target, MoveIn, MoveOut, MoveWeight, Shaped, KeyOk, Linked, ArcA, ArcB, ArcLinked, Transducer.Valid;
      MoveArcsLinked(cascade.Snapshot(), Unmerged(), tri, m);
      g := cascade.Record(la, rb);
      GroupedExtends(old(cascade.Snapshot()), cascade.Snapshot(), Unmerged(), Result());
    }


    /** Pair arc i of a's state with the arcs of b's state, all of them looked at. */
    method PairPlain(source: nat, tri: Key, i: nat)
      requires !groups && Busy(source, tri, {source}) && i < |a.states[tri.qa]|
      requires forall m :: m in moves[source] && m.LR? ==> m.i != i
      modifies this`states, this`stateMap, this`queue, this`keys, this`moves, this`routes, this`open, this`waiting
      modifies cascade`chains, cascade`epsilonChains
      ensures Busy(source, tri, {source})
      ensures forall m :: m in moves[source] <==> m in old(moves[source]) || (Enabled(Unmerged(), tri, m) && m.LR? && m.i == i)
      ensures Grew()
    {
      hide Core, Booked, Kept;
      if a.states[tri.qa][i].out != EPSILON {
        PairLetter(source, tri, i);
      } else if tri.filter == 0 {
        PairEmpty(source, tri, i);
      }
    }

    /** An arc that writes nothing, with the arcs that read nothing. */
    method PairEmpty(source: nat, tri: Key, i: nat)
      requires !groups && Busy(source, tri, {source}) && i < |a.states[tri.qa]| && a.states[tri.qa][i].out == EPSILON && tri.filter == 0
      requires forall m :: m in moves[source] && m.LR? ==> m.i != i
      modifies this`states, this`stateMap, this`queue, this`keys, this`moves, this`routes, this`open, this`waiting
      modifies cascade`chains, cascade`epsilonChains
      ensures Busy(source, tri, {source}) && Grew()
      ensures forall m :: m in moves[source] <==> m in old(moves[source]) || (Enabled(Unmerged(), tri, m) && m.LR? && m.i == i)
    {
      hide Core, Booked, Kept;
      var la, qb := a.states[tri.qa][i], b.states[tri.qb];
      for j := 0 to |qb|
        invariant Busy(source, tri, {source}) && Grew()
        invariant forall m :: m in moves[source] <==> m in old(moves[source]) || (Enabled(Unmerged(), tri, m) && m.LR? && m.i == i && m.j < j)
      {
        var rb := qb[j];
        if rb.inp == EPSILON {
          ComposeAB(source, tri, Trio(la.dest, rb.dest, 0), la.inp, rb.out, la.weight * rb.weight, la, rb, LR(i, j), {source});
        }
      }
    }

    /** An arc that writes a letter, with the arcs that read it. */
    method PairLetter(source: nat, tri: Key, i: nat)
      requires !groups && Busy(source, tri, {source}) && i < |a.states[tri.qa]| && a.states[tri.qa][i].out != EPSILON
      requires forall m :: m in moves[source] && m.LR? ==> m.i != i
      modifies this`states, this`stateMap, this`queue, this`keys, this`moves, this`routes, this`open, this`waiting
      modifies cascade`chains, cascade`epsilonChains
      ensures Busy(source, tri, {source}) && Grew()
      ensures forall m :: m in moves[source] <==> m in old(moves[source]) || (Enabled(Unmerged(), tri, m) && m.LR? && m.i == i)
    {
      hide Core, Booked, Kept;
      var la, qb := a.states[tri.qa][i], b.states[tri.qb];
      for j := 0 to |qb|
        invariant Busy(source, tri, {source}) && Grew()
        invariant forall m :: m in moves[source] <==> m in old(moves[source]) || (Enabled(Unmerged(), tri, m) && m.LR? && m.i == i && m.j < j)
      {
        var rb := qb[j];
        if letters[la.out] == rb.inp {
          ComposeAB(source, tri, Trio(la.dest, rb.dest, 0), la.inp, rb.out, la.weight * rb.weight, la, rb, LR(i, j), {source});
        }
      }
    }

    /** As PairPlain, with the arcs of b's state indexed by input. */
    method PairRight(source: nat, tri: Key, i: nat, index: map<nat, seq<nat>>)
      requires !groups && Busy(source, tri, {source}) && i < |a.states[tri.qa]|
      requires IsIndex(index, b.states[tri.qb], |b.states[tri.qb]|, false)
      requires forall m :: m in moves[source] && m.LR? ==> m.i != i
      modifies this`states, this`stateMap, this`queue, this`keys, this`moves, this`routes, this`open, this`waiting
      modifies cascade`chains, cascade`epsilonChains
      ensures Busy(source, tri, {source}) && Grew()
      ensures forall m :: m in moves[source] <==> m in old(moves[source]) || (Enabled(Unmerged(), tri, m) && m.LR? && m.i == i)
    {
      hide Core, Booked, Kept;
      ghost var c := Unmerged();
      var la, qb := a.states[tri.qa][i], b.states[tri.qb];
      if la.out == EPSILON {
        if tri.filter == 0 && EPSILON in index {
          PairWithLeft(source, tri, i, index[EPSILON]);
        }
      } else if letters[la.out] in index {
        PairWithLeft(source, tri, i, index[letters[la.out]]);
      }
    }

    /** The loop over the matching arcs of b's state. */
    method PairWithLeft(source: nat, tri: Key, i: nat, matches: seq<nat>)
      requires !groups && Busy(source, tri, {source}) && i < |a.states[tri.qa]| && NoDuplicates(matches)
      requires forall j :: j in matches ==> Enabled(Unmerged(), tri, LR(i, j))
      requires forall m :: m in moves[source] && m.LR? ==> m.i != i
      modifies this`states, this`stateMap, this`queue, this`keys, this`moves, this`routes, this`open, this`waiting
      modifies cascade`chains, cascade`epsilonChains
      ensures Busy(source, tri, {source}) && Grew()
      ensures forall m :: m in moves[source] <==> m in old(moves[source]) || (m.LR? && m.i == i && m.j in matches)
    {
      hide Core, Booked, Kept;
      var la, qb := a.states[tri.qa][i], b.states[tri.qb];
      for k := 0 to |matches|
        invariant Busy(source, tri, {source}) && Grew()
        invariant forall m :: m in moves[source] <==> m in old(moves[source]) || (m.LR? && m.i == i && m.j in matches[..k])
      {
        assert matches[k] in matches;
        var rb := qb[matches[k]];
        ComposeAB(source, tri, Trio(la.dest, rb.dest, 0), la.inp, rb.out, la.weight * rb.weight, la, rb, LR(i, matches[k]), {source});
      }
      assert matches[..|matches|] == matches;
    }

    /** Pair arc j of b's state with the arcs of a's state, indexed by output. */
    method PairLeft(source: nat, tri: Key, j: nat, index: map<nat, seq<nat>>)
      requires !groups && Busy(source, tri, {source}) && j < |b.states[tri.qb]|
      requires IsIndex(index, a.states[tri.qa], |a.states[tri.qa]|, true)
      requires forall m :: m in moves[source] && m.LR? ==> m.j != j
      modifies this`states, this`stateMap, this`queue, this`keys, this`moves, this`routes, this`open, this`waiting
      modifies cascade`chains, cascade`epsilonChains
      ensures Busy(source, tri, {source}) && Grew()
      ensures forall m :: m in moves[source] <==> m in old(moves[source]) || (Enabled(Unmerged(), tri, m) && m.LR? && m.j == j)
    {
      hide Core, Booked, Kept;
      ghost var c := Unmerged();
      var rb, qa := b.states[tri.qb][j], a.states[tri.qa];
      if rb.inp == EPSILON {
        if tri.filter == 0 && EPSILON in index {
          PairWithRight(source, tri, j, index[EPSILON]);
        }
      } else if revLetters[rb.inp] in index {
        PairWithRight(source, tri, j, index[revLetters[rb.inp]]);
      }
    }

    /** The loop over the matching arcs of a's state. */
    method PairWithRight(source: nat, tri: Key, j: nat, matches: seq<nat>)
      requires !groups && Busy(source, tri, {source}) && j < |b.states[tri.qb]| && NoDuplicates(matches)
      requires forall i :: i in matches ==> Enabled(Unmerged(), tri, LR(i, j))
      requires forall m :: m in moves[source] && m.LR? ==> m.j != j
      modifies this`states, this`stateMap, this`queue, this`keys, this`moves, this`routes, this`open, this`waiting
      modifies cascade`chains, cascade`epsilonChains
      ensures Busy(source, tri, {source}) && Grew()
      ensures forall m :: m in moves[source] <==> m in old(moves[source]) || (m.LR? && m.j == j && m.i in matches)
    {
      hide Core, Booked, Kept;
      var rb, qa := b.states[tri.qb][j], a.states[tri.qa];
      for k := 0 to |matches|
        invariant Busy(source, tri, {source}) && Grew()
        invariant forall m :: m in moves[source] <==> m in old(moves[source]) || (m.LR? && m.j == j && m.i in matches[..k])
      {
        assert matches[k] in matches;
        var la := qa[matches[k]];
        ComposeAB(source, tri, Trio(la.dest, rb.dest, 0), la.inp, rb.out, la.weight * rb.weight, la, rb, LR(matches[k], j), {source});
      }
      assert matches[..|matches|] == matches;
    }

    // ----- empty arcs, taken alone -----

    /** The arcs of a's state in the list, which write nothing. */
    method AloneLeft(source: nat, tri: Key, list: seq<nat>)
      requires Busy(source, tri, {source}) && tri.Trio? && NoDuplicates(list)
      requires forall i :: i in list ==> Enabled(Unmerged(), tri, L(i)) && a.states[tri.qa][i].out == EPSILON
      requires forall m :: m in moves[source] && m.L? ==> m.i !in list
      modifies this`states, this`stateMap, this`queue, this`keys, this`moves, this`routes, this`open, this`waiting
      modifies cascade`chains, cascade`epsilonChains
      ensures Busy(source, tri, {source}) && Grew()
      ensures forall m :: m in moves[source] <==> m in old(moves[source]) || (m.L? && m.i in list)
    {
      hide Core, Booked, Kept;
      var qa, f := a.states[tri.qa], if groups then 0 else 1;
      for k := 0 to |list|
        invariant Busy(source, tri, {source}) && Grew()
        invariant forall m :: m in moves[source] <==> m in old(moves[source]) || (m.L? && m.i in list[..k])
      {
        assert list[k] in list;
        var la := qa[list[k]];
        ComposeA(source, tri, Trio(la.dest, tri.qb, f), la.inp, EPSILON, la.weight, la, L(list[k]), {source});
      }
      assert list[..|list|] == list;
    }

    /** The arcs of b's state in the list, which read nothing. */
    method AloneRight(source: nat, tri: Key, list: seq<nat>)
      requires Busy(source, tri, {source}) && tri.Trio? && NoDuplicates(list)
      requires forall j :: j in list ==> Enabled(Unmerged(), tri, R(j))
      requires forall m :: m in moves[source] ==> !m.R?
      modifies this`states, this`stateMap, this`queue, this`keys, this`moves, this`routes, this`open, this`waiting
      modifies cascade`chains, cascade`epsilonChains
      ensures Busy(source, tri, {source}) && Grew()
      ensures forall m :: m in moves[source] <==> m in old(moves[source]) || (m.R? && m.j in list)
    {
      hide Core, Booked, Kept;
      var qb, f := b.states[tri.qb], if groups then 1 else 2;
      for k := 0 to |list|
        invariant Busy(source, tri, {source}) && Grew()
        invariant forall m :: m in moves[source] <==> m in old(moves[source]) || (m.R? && m.j in list[..k])
      {
        assert list[k] in list;
        var rb := qb[list[k]];
        ComposeB(source, tri, Trio(tri.qa, rb.dest, f), EPSILON, rb.out, rb.weight, rb, R(list[k]), {source});
      }
      assert list[..|list|] == list;
    }

    // ----- expanding a triple, 3-state filter -----

    /** Neither state has enough arcs to be worth indexing. */
    method ExpandPlain(source: nat, tri: Key)
      requires !groups && Busy(source, tri, {source}) && moves[source] == []
      modifies this`states, this`stateMap, this`queue, this`keys, this`moves, this`routes, this`open, this`waiting
      modifies cascade`chains, cascade`epsilonChains
      ensures Busy(source, tri, {source}) && Grew()
      ensures forall m :: m in moves[source] <==> Enabled(Unmerged(), tri, m)
    {
      hide Core, Booked, Kept;
      var qa, f := a.states[tri.qa], tri.filter;
      ghost var c := Unmerged();
      for i := 0 to |qa|
        invariant Busy(source, tri, {source}) && Grew()
        invariant forall m :: m in moves[source] <==> Enabled(c, tri, m) && !m.R? && m.i < i
      {
        var la := qa[i];
        if la.out == EPSILON && f != 2 {
          ComposeA(source, tri, Trio(la.dest, tri.qb, 1), la.inp, EPSILON, la.weight, la, L(i), {source});
        }
        PairPlain(source, tri, i);
      }
      if f != 1 {
        AlonePlain(source, tri);
      }
    }

    /** The arcs of b's state that read nothing, all arcs looked at. */
    method AlonePlain(source: nat, tri: Key)
      requires !groups && Busy(source, tri, {source}) && tri.Trio? && tri.filter != 1
      requires forall m :: m in moves[source] <==> Enabled(Unmerged(), tri, m) && !m.R?
      modifies this`states, this`stateMap, this`queue, this`keys, this`moves, this`routes, this`open, this`waiting
      modifies cascade`chains, cascade`epsilonChains
      ensures Busy(source, tri, {source}) && Grew()
      ensures forall m :: m in moves[source] <==> Enabled(Unmerged(), tri, m)
    {
      hide Core, Booked, Kept;
      var qb := b.states[tri.qb];
      ghost var c := Unmerged();
      for j := 0 to |qb|
        invariant Busy(source, tri, {source}) && Grew()
        invariant forall m :: m in moves[source] <==> Enabled(c, tri, m) && (m.R? ==> m.j < j)
      {
        var rb := qb[j];
        if rb.inp == EPSILON {
          ComposeB(source, tri, Trio(tri.qa, rb.dest, 2), EPSILON, rb.out, rb.weight, rb, R(j), {source});
        }
      }
    }

    /** b's state is the larger one, and indexed by input. */
    method ExpandIndexRight(source: nat, tri: Key)
      requires !groups && Busy(source, tri, {source}) && moves[source] == []
      modifies this`states, this`stateMap, this`queue, this`keys, this`moves, this`routes, this`open, this`waiting
      modifies cascade`chains, cascade`epsilonChains
      ensures Busy(source, tri, {source}) && Grew()
      ensures forall m :: m in moves[source] <==> Enabled(Unmerged(), tri, m)
    {
      hide Core, Booked, Kept;
      var qa, qb, f := a.states[tri.qa], b.states[tri.qb], tri.filter;
      ghost var c := Unmerged();
      var index := IndexB(tri.qb);
      for i := 0 to |qa|
        invariant Busy(source, tri, {source}) && Grew()
        invariant forall m :: m in moves[source] <==> Enabled(c, tri, m) && !m.R? && m.i < i
      {
        var la := qa[i];
        if la.out == EPSILON && f != 2 {
          ComposeA(source, tri, Trio(la.dest, tri.qb, 1), la.inp, EPSILON, la.weight, la, L(i), {source});
        }
        PairRight(source, tri, i, index);
      }
      if f != 1 && EPSILON in index {
        AloneRight(source, tri, index[EPSILON]);
      }
    }

    /** a's state is the larger one, and indexed by output. */
    method ExpandIndexLeft(source: nat, tri: Key)
      requires !groups && Busy(source, tri, {source}) && moves[source] == []
      modifies this`states, this`stateMap, this`queue, this`keys, this`moves, this`routes, this`open, this`waiting
      modifies cascade`chains, cascade`epsilonChains
      ensures Busy(source, tri, {source}) && Grew()
      ensures forall m :: m in moves[source] <==> Enabled(Unmerged(), tri, m)
    {
      hide Core, Booked, Kept;
      var qa, qb, f := a.states[tri.qa], b.states[tri.qb], tri.filter;
      ghost var c := Unmerged();
      var index := IndexA(tri.qa);
      for j := 0 to |qb|
        invariant Busy(source, tri, {source}) && Grew()
        invariant forall m :: m in moves[source] <==> Enabled(c, tri, m) && !m.L? && m.j < j
      {
        var rb := qb[j];
        if rb.inp == EPSILON && f != 1 {
          ComposeB(source, tri, Trio(tri.qa, rb.dest, 2), EPSILON, rb.out, rb.weight, rb, R(j), {source});
        }
        PairLeft(source, tri, j, index);
      }
      if f != 2 && EPSILON in index {
        AloneLeft(source, tri, index[EPSILON]);
      }
    }

    /** The larger of the two states decides which branch is taken. */
    method Expand(source: nat, tri: Key)
      requires !groups && Busy(source, tri, {source}) && moves[source] == []
      modifies this`states, this`stateMap, this`queue, this`keys, this`moves, this`routes, this`open, this`waiting
      modifies cascade`chains, cascade`epsilonChains
      ensures Busy(source, tri, {source}) && Grew()
      ensures forall m :: m in moves[source] <==> Enabled(Unmerged(), tri, m)
    {
      var qa, qb := a.states[tri.qa], b.states[tri.qb];
      var larger := if |qa| > |qb| then |qa| else |qb|;
      if larger > INDEX_THRESHOLD {
        if |qa| > |qb| {
          ExpandIndexLeft(source, tri);
        } else {
          ExpandIndexRight(source, tri);
        }
      } else {
        ExpandPlain(source, tri);
      }
    }

    // ----- expanding a triple, 2-state filter of the -a mode -----

    /** push_back(states) for a new mediate state. */
    method NewMediate(key: Key, ghost route: seq<Move>) returns (num: nat)
      requires Core() && key.Mediate? && KeyOk(Unmerged(), key) && key !in mediateMap && Routes(Unmerged(), route, key)
      modifies this`states, this`mediateMap, this`keys, this`moves, this`routes, this`open
      ensures Core() && (old(Booked()) ==> Booked())
      ensures num == |old(keys)| && keys == old(keys) + [key] && moves == old(moves) + [[]]
      ensures |moves| == |keys| && states == old(states) + [[]]
      ensures mediateMap == old(mediateMap)[key := num] && open == old(open) + {num} && num !in waiting
    {
      hide Built, AllGrouped, Linked, KeyOk, Routes, Transducer.Valid;
      BuiltNewMediate(Unmerged(), Result(), Progress(), key, route);
      num := |states|;
      mediateMap := mediateMap[key := num];
      states := states + [[]];
      keys, moves, routes, open := keys + [key], moves + [[]], routes + [route], open + {num};
    }

    /** The arcs of a mediate state: b's arcs that read the letter. */
    method FillMediate(num: nat, key: Key, matches: seq<nat>, ghost busy: set<nat>)
      requires groups && Busy(num, key, busy) && key.Mediate? && moves[num] == []
      requires Lists(matches, b.states[key.source], |b.states[key.source]|, false, letters[key.letter])
      modifies this`states, this`stateMap, this`queue, this`keys, this`moves, this`routes, this`open, this`waiting
      modifies cascade`chains, cascade`epsilonChains
      ensures Busy(num, key, busy) && Grew() && old(keys) <= keys
      ensures forall m :: m in moves[num] <==> Enabled(Unmerged(), key, m)
      ensures forall s :: s in busy && s != num && s < |old(moves)| ==> moves[s] == old(moves[s])
    {
      hide Core, Booked, Kept;
      for k := 0 to |matches|
        invariant Busy(num, key, busy) && Grew() && old(keys) <= keys
        invariant forall m :: m in moves[num] <==> m.R? && m.j in matches[..k]
        invariant forall s :: s in busy && s != num && s < |old(moves)| ==> moves[s] == old(moves[s])
      {
        var rb := b.states[key.source][matches[k]];
        ComposeB(num, key, Trio(key.dest, rb.dest, 0), EPSILON, rb.out, rb.weight, rb, R(matches[k]), busy);
      }
    }

    /** A state that has all its arcs is closed. */
    ghost method Close(num: nat, key: Key, busy: set<nat>)
      requires Busy(num, key, busy) && forall m :: m in moves[num] <==> Enabled(Unmerged(), key, m)
      modifies this`open
      ensures Core() && Booked() && open == waiting + (busy - {num})
    {
      hide AllGrouped, Linked, Enabled, Built;
      BuiltClose(Unmerged(), Result(), Progress(), num);
      open := open - {num};
    }

    /** The mediate state of a key that has none yet, with its arcs. */
    method MakeMediate(source: nat, tri: Key, key: Key, matches: seq<nat>, ghost route: seq<Move>) returns (num: nat)
      requires groups && Busy(source, tri, {source}) && key.Mediate? && KeyOk(Unmerged(), key) && key !in mediateMap
      requires Routes(Unmerged(), route, key)
      requires Lists(matches, b.states[key.source], |b.states[key.source]|, false, letters[key.letter])
      modifies this`states, this`stateMap, this`mediateMap, this`queue, this`keys, this`moves, this`routes, this`open, this`waiting
      modifies cascade`chains, cascade`epsilonChains
      ensures Busy(source, tri, {source}) && Grew()
      ensures num < |keys| && keys[num] == key && moves[source] == old(moves[source])
    {
      hide Core, Booked, Enabled, KeyOk, Lists;
      num := NewMediate(key, route);
      FillMediate(num, key, matches, {source, num});
      Close(num, key, {source, num});
      assert {source, num} - {num} == {source};
    }

    method MediateFor(source: nat, tri: Key, key: Key, matches: seq<nat>, ghost route: seq<Move>) returns (num: nat)
      requires groups && Busy(source, tri, {source}) && key.Mediate? && KeyOk(Unmerged(), key)
      requires Routes(Unmerged(), route, key)
      requires Lists(matches, b.states[key.source], |b.states[key.source]|, false, letters[key.letter])
      modifies this`states, this`stateMap, this`mediateMap, this`queue, this`keys, this`moves, this`routes, this`open, this`waiting
      modifies cascade`chains, cascade`epsilonChains
      ensures Busy(source, tri, {source}) && Grew()
      ensures num < |keys| && keys[num] == key && moves[source] == old(moves[source])
    {
      if key in mediateMap { return mediateMap[key]; }
      hide *;
      num := MakeMediate(source, tri, key, matches, route);
    }

    /** An arc of a to a state already there, with the group of the arc. */
    method AddHalf(source: nat, tri: Key, la: Arc, num: nat, ghost m: Move)
      requires groups && Busy(source, tri, {source}) && Enabled(Unmerged(), tri, m) && m !in moves[source]
      requires m.L? && la == ArcA(Unmerged(), tri, m) && num < |keys| && keys[num] == Target(Unmerged(), tri, m)
      modifies this`states, this`stateMap, this`queue, this`keys, this`moves, this`routes, this`open, this`waiting
      modifies cascade`chains, cascade`epsilonChains
      ensures Busy(source, tri, {source}) && Grew()
      ensures moves[source] == [m] + old(moves[source])
    {
      hide Core, Enabled, Target, Shaped, KeyOk, Linked, MoveIn, MoveOut, MoveWeight;
      MoveArcsLinked(cascade.Snapshot(), Unmerged(), tri, m);
      var g := cascade.Record1(la);
      GroupedExtends(old(cascade.Snapshot()), cascade.Snapshot(), Unmerged(), Result());
      AddHalfArc(source, tri, la, num, g, m);
    }

    method AddHalfArc(source: nat, tri: Key, la: Arc, num: nat, g: nat, ghost m: Move)
      requires groups && Busy(source, tri, {source}) && Enabled(Unmerged(), tri, m) && m !in moves[source]
      requires m.L? && la == ArcA(Unmerged(), tri, m) && num < |keys| && keys[num] == Target(Unmerged(), tri, m)
      requires GroupFits(cascade.Snapshot(), Unmerged(), tri, m, g)
      modifies this`states, this`moves
      ensures Busy(source, tri, {source}) && moves[source] == [m] + old(moves[source])
    {
      hide Built, Enabled, Target, KeyOk, Linked, AllGrouped, GroupFits, Transducer.Valid;
      BuiltShape(Unmerged(), Result(), Progress());
      AddArc(source, Arc(la.inp, EPSILON, num, la.weight, g, 0), m);
    }

    lemma HasRoutes()
      requires Core()
      ensures Inputs() && Routed(Unmerged(), keys, routes)
    {}

    /** The first half of a matched pair: arc i of a's state, to the mediate state. */
    method HalfArc(source: nat, tri: Key, i: nat, matches: seq<nat>)
      requires groups && Busy(source, tri, {source}) && tri.Trio? && i < |a.states[tri.qa]|
      requires a.states[tri.qa][i].out != EPSILON && L(i) !in moves[source] && |matches| > 0
      requires Lists(matches, b.states[tri.qb], |b.states[tri.qb]|, false, letters[a.states[tri.qa][i].out])
      modifies this`states, this`stateMap, this`mediateMap, this`queue, this`keys, this`moves, this`routes, this`open, this`waiting
      modifies cascade`chains, cascade`epsilonChains
      ensures Busy(source, tri, {source}) && Grew()
      ensures moves[source] == [L(i)] + old(moves[source]) && Enabled(Unmerged(), tri, L(i))
    {
      hide Core, Booked, Kept;
      var la := a.states[tri.qa][i];
      assert Same(Unmerged(), la.out, b.states[tri.qb][matches[0]].inp);
      HasRoutes();
      RouteOn(Unmerged(), keys, routes, source, L(i));
      var num := MediateFor(source, tri, Mediate(la.dest, tri.qb, la.out), matches, routes[source] + [L(i)]);
      AddHalf(source, tri, la, num, L(i));
    }

    /** The arcs of a's state that write x: alone if x is empty, else as first halves of matched pairs. */
    method ExpandLetter(source: nat, tri: Key, x: nat, list: seq<nat>, indexB: map<nat, seq<nat>>)
      requires groups && Busy(source, tri, {source}) && tri.Trio?
      requires |list| > 0 && Lists(list, a.states[tri.qa], |a.states[tri.qa]|, true, x)
      requires IsIndex(indexB, b.states[tri.qb], |b.states[tri.qb]|, false)
      requires forall m :: m in moves[source] && m.L? ==> m.i < |a.states[tri.qa]| && a.states[tri.qa][m.i].out != x
      modifies this`states, this`stateMap, this`mediateMap, this`queue, this`keys, this`moves, this`routes, this`open, this`waiting
      modifies cascade`chains, cascade`epsilonChains
      ensures Busy(source, tri, {source}) && Grew()
      ensures forall m :: m in moves[source] <==>
        m in old(moves[source]) || (Enabled(Unmerged(), tri, m) && m.L? && a.states[tri.qa][m.i].out == x)
    {
      hide Core, Booked, Kept;
      var qa := a.states[tri.qa];
      if x == EPSILON {
        if tri.filter == 0 {
          AloneLeft(source, tri, list);
        }
        return;
      }
      assert ArcOk(a, qa[list[0]]);
      if letters[x] in indexB {
        var matches := indexB[letters[x]];
        for k := 0 to |list|
          invariant Busy(source, tri, {source}) && Grew()
          invariant forall m :: m in moves[source] <==> m in old(moves[source]) || (m.L? && m.i in list[..k])
          invariant forall i :: i in list[..k] ==> Enabled(Unmerged(), tri, L(i))
        {
          HalfArc(source, tri, list[k], matches);
        }
      }
    }

    method ExpandGroups(source: nat, tri: Key)
      requires groups && Busy(source, tri, {source}) && tri.Trio? && moves[source] == []
      modifies this`states, this`stateMap, this`mediateMap, this`queue, this`keys, this`moves, this`routes, this`open, this`waiting
      modifies cascade`chains, cascade`epsilonChains
      ensures Busy(source, tri, {source}) && Grew()
      ensures forall m :: m in moves[source] <==> Enabled(Unmerged(), tri, m)
    {
      hide Core, Booked, Kept;
      var indexA := IndexA(tri.qa);
      var indexB := IndexB(tri.qb);
      EachLetter(source, tri, indexA, indexB);
      if EPSILON in indexB {
        AloneRight(source, tri, indexB[EPSILON]);
      }
    }

    /** The loop over the letters that a's state writes. */
    method EachLetter(source: nat, tri: Key, indexA: Index, indexB: Index)
      requires groups && Busy(source, tri, {source}) && tri.Trio? && moves[source] == []
      requires IsIndex(indexA, a.states[tri.qa], |a.states[tri.qa]|, true) && IsIndex(indexB, b.states[tri.qb], |b.states[tri.qb]|, false)
      modifies this`states, this`stateMap, this`mediateMap, this`queue, this`keys, this`moves, this`routes, this`open, this`waiting
      modifies cascade`chains, cascade`epsilonChains
      ensures Busy(source, tri, {source}) && Grew()
      ensures forall m :: m in moves[source] <==> Enabled(Unmerged(), tri, m) && m.L?
    {
      hide Core, Booked, Kept;
      var qa := a.states[tri.qa];
      ghost var c := Unmerged();
      var todo := indexA.Keys;
      while todo != {}
        invariant todo <= indexA.Keys
        invariant Busy(source, tri, {source}) && Grew()
        invariant forall m :: m in moves[source] <==> Enabled(c, tri, m) && m.L? && qa[m.i].out !in todo
      {
        var x :| x in todo;
        todo := todo - {x};
        ExpandLetter(source, tri, x, indexA[x], indexB);
      }
    }

    // ----- the worklist loop -----

    /** Every triple that composition could make. */
    ghost function AllTrios(): set<Key> {
      set qa, qb, f | 0 <= qa < |a.states| && 0 <= qb < |b.states| && 0 <= f < 3 :: Trio(qa, qb, f)
    }

    lemma TriosBounded()
      requires Core()
      ensures stateMap.Keys <= AllTrios()
    {
      forall t | t in stateMap ensures t in AllTrios() {
        assert KeyOk(Unmerged(), keys[stateMap[t]]);
      }
    }

    /** queue.top() and queue.pop(). */
    method Pop() returns (top: TrioId)
      requires Core() && Booked() && open == waiting && queue != []
      modifies this`queue, this`waiting
      ensures Busy(top.num, top.tri, {top.num}) && top.tri.Trio? && moves[top.num] == []
      ensures queue == old(queue)[1..]
    {
      hide Built, AllGrouped, Linked, KeyOk, Transducer.Valid;
      BuiltPop(Unmerged(), Result(), Progress());
      top := queue[0];
      queue, waiting := queue[1..], waiting - {top.num};
    }

    method RunWorklist()
      requires Core() && Booked() && open == waiting
      modifies this, cascade`chains, cascade`epsilonChains
      ensures Finished() && Extends(old(cascade.Snapshot()), cascade.Snapshot())
    {
      hide Core, Booked, Enabled, Busy, Finished, AllTrios;
      TriosBounded();
      while queue != []
        invariant Core() && Booked() && open == waiting && old(cascade.chains) <= cascade.chains
        invariant stateMap.Keys <= AllTrios()
        decreases AllTrios() - stateMap.Keys, |queue|
      {
        var top := Pop();
        if groups {
          ExpandGroups(top.num, top.tri);
        } else {
          Expand(top.num, top.tri);
        }
        Close(top.num, top.tri, {top.num});
        assert {top.num} - {top.num} == {};
        TriosBounded();
      }
      NothingWaits();
    }

    lemma NothingWaits()
      requires Core() && Booked() && open == waiting && queue == []
      ensures Finished()
    {
      assert waiting == {};
    }

    /** What the worklist leaves: exactly the arcs of the moves of the states that can be reached. */
    ghost predicate Finished()
      reads this, cascade
    {
      && Inputs() && cascade.Valid()
      && Settled(Unmerged(), Result()) && Routed(Unmerged(), keys, routes)
      && Maps(keys, stateMap, mediateMap)
      && AllGrouped(cascade.Snapshot(), Unmerged(), Result())
    }

    // ----- the final states -----

    /** The filter finals that were reached, how many, and the last of them. */
    method FindFinals() returns (found: seq<bool>, n: nat, last: nat)
      ensures |found| == 3 && forall i :: 0 <= i < 3 ==> (found[i] <==> Trio(a.final, b.final, i) in stateMap)
      ensures n == (if found[0] then 1 else 0) + (if found[1] then 1 else 0) + (if found[2] then 1 else 0)
      ensures n > 0 ==> exists i :: 0 <= i < 3 && found[i] && last == stateMap[Trio(a.final, b.final, i)]
    {
      found, n, last := [], 0, 0;
      for i := 0 to 3
        invariant |found| == i && forall k :: 0 <= k < i ==> (found[k] <==> Trio(a.final, b.final, k) in stateMap)
        invariant n == (if i > 0 && found[0] then 1 else 0) + (if i > 1 && found[1] then 1 else 0) + (if i > 2 && found[2] then 1 else 0)
        invariant n > 0 ==> exists k :: 0 <= k < i && found[k] && last == stateMap[Trio(a.final, b.final, k)]
      {
        var key := Trio(a.final, b.final, i);
        if key in stateMap {
          n, last := n + 1, stateMap[key];
        }
        found := found + [key in stateMap];
      }
    }

    /** A state is a filter final exactly if it is the state of one of the three final triples. */
    lemma FinalStates()
      requires Finished()
      ensures |keys| == |moves| == |states|
      ensures forall s :: 0 <= s < |keys| && Final(Unmerged(), keys[s]) ==>
        keys[s] == Trio(a.final, b.final, keys[s].filter) && keys[s].filter < 3 && keys[s] in stateMap && stateMap[keys[s]] == s
      ensures forall t :: t in stateMap ==> stateMap[t] < |keys| && keys[stateMap[t]] == t
    {
      forall s | 0 <= s < |keys| ensures KeyOk(Unmerged(), keys[s]) {}
    }

    /** Add the sink, and an empty arc to it from each filter final. */
    method JoinFinals(found: seq<bool>)
      requires Finished()
      requires |found| == 3 && forall i :: 0 <= i < 3 ==> (found[i] <==> Trio(a.final, b.final, i) in stateMap)
      modifies this`states, this`keys, this`moves, this`final
      ensures Joins(Unmerged(), old(Result()), Result())
    {
      FinalStates();
      ghost var r := Result();
      var g := cascade.LockedOneGroup();
      hide Settled, KeyOk, JoinsBelow, Joins, Finished;
      final := |states|;
      keys := keys + [Sink];
      states, moves := AddStops(states + [[]], stateMap, a.final, b.final, found, final, g, Unmerged(), r);
      AllJoined(Unmerged(), r, Result());
    }
  }

  /** The empty arcs from the filter finals to the sink. */
  method AddStops(states: seq<seq<Arc>>, stateMap: map<Key, nat>, fa: nat, fb: nat, found: seq<bool>, final: nat, g: nat, ghost c: Problem, ghost r: Composed)
    returns (states': seq<seq<Arc>>, ghost moves': seq<seq<Move>>)
    requires Ok(c) && Shaped(c, r) && states == r.w.states + [[]] && final == |r.keys| && g == LOCKED_GROUP
    requires fa == c.a.final && fb == c.b.final
    requires |found| == 3 && forall i :: 0 <= i < 3 ==> (found[i] <==> Trio(c.a.final, c.b.final, i) in stateMap)
    requires forall s :: 0 <= s < |r.keys| && Final(c, r.keys[s]) ==> r.keys[s] in stateMap
    requires forall t :: t in stateMap ==> stateMap[t] < |r.keys| && r.keys[stateMap[t]] == t
    ensures JoinsBelow(c, r, 3, moves', states')
  {
    hide JoinsBelow, Shaped;
    StartJoining(c, r);
    states', moves' := states, r.moves + [[]];
    for i := 0 to 3
      invariant JoinsBelow(c, r, i, moves', states')
    {
      JoinedLengths(c, r, i, moves', states');
      if found[i] {
        var s := stateMap[Trio(fa, fb, i)];
        JoinStepAt(c, r, i, moves', states', s);
        states' := states'[s := [Arc(EPSILON, EPSILON, final, STOP_ARC_WEIGHT, g, 0)] + states'[s]];
        moves' := moves'[s := [Stop] + moves'[s]];
      } else {
        JoinStepNone(c, r, i, moves', states');
      }
    }
  }

  /** The finals that were found are the filter finals among the states. */
  lemma FoundFinals(c: Problem, keys: seq<Key>, stateMap: map<Key, nat>, found: seq<bool>, n: nat, last: nat)
    requires |found| == 3 && forall i :: 0 <= i < 3 ==> (found[i] <==> Trio(c.a.final, c.b.final, i) in stateMap)
    requires n == (if found[0] then 1 else 0) + (if found[1] then 1 else 0) + (if found[2] then 1 else 0)
    requires n > 0 ==> exists i :: 0 <= i < 3 && found[i] && last == stateMap[Trio(c.a.final, c.b.final, i)]
    requires forall s :: 0 <= s < |keys| && Final(c, keys[s]) ==>
      keys[s] == Trio(c.a.final, c.b.final, keys[s].filter) && keys[s].filter < 3 && keys[s] in stateMap && stateMap[keys[s]] == s
    requires forall t :: t in stateMap ==> stateMap[t] < |keys| && keys[stateMap[t]] == t
    ensures n == 0 ==> forall s :: 0 <= s < |keys| ==> !Final(c, keys[s])
    ensures n > 0 ==> last < |keys| && Final(c, keys[last])
    ensures n == 1 ==> forall s :: 0 <= s < |keys| ==> (Final(c, keys[s]) <==> s == last)
  {}

  /** The states made by the worklist, with one final state. */
  method MergeFinals(w: Composer) returns (usable: bool, ghost c: Problem)
    requires w.Finished()
    modifies w`states, w`keys, w`moves, w`final
    ensures w.Inputs() && c == w.Unmerged().(merged := c.merged)
    ensures usable ==> Realizes(c, w.Result()) && AllGrouped(w.cascade.Snapshot(), c, w.Result())
    ensures usable <==> exists pa, pb :: MatchingPair(w.Unmerged(), pa, pb)
  {
    ghost var r := w.Result();
    ghost var bk := w.cascade.Snapshot();
    ghost var u := w.Unmerged();
    c := u;
    var found, n, last := w.FindFinals();
    w.FinalStates();
    FoundFinals(u, w.keys, w.stateMap, found, n, last);
    assert AllGrouped(bk, u, r) && Routed(u, r.keys, w.routes) && (!bk.trivial ==> |bk.chains| > 0 && bk.chains[0] == []);
    hide Settled, Realizes, AllGrouped, Joins, Routed, MatchingPair, Composer.Finished, Final;
    if n == 0 {
      forall pa, pb ensures !MatchingPair(u, pa, pb) { NoFinalNoPair(u, r, pa, pb); }
      return false, c;
    }
    ghost var pa, pb := FinalHasPair(u, r, w.routes, last);
    if n == 1 {
      w.final := last;
      OneFinal(u, r, w.Result(), last);
    } else {
      w.JoinFinals(found);
      c := u.(merged := true);
      ManyFinals(u, r, c, w.Result());
      ManyFinalsGrouped(bk, u, r, c, w.Result());
    }
    return true, c;
  }

  /** A transducer that may have been invalidated. */
  datatype MaybeWfst = Invalid | Usable(w: Wfst)

  /** set_compose: the result is usable exactly if some pair of accepting paths matches, and then it is a
    * composition of a and b in which every arc has the group of its move. */
  method SetCompose(cascade: Cascade, a: MaybeWfst, b: MaybeWfst, indexesA: seq<Option<Index>>, indexesB: seq<Option<Index>>, groups: bool)
    returns (res: MaybeWfst, ghost c: Problem, ghost r: Composed)
    requires cascade.Valid()
    requires (a.Usable? ==> Kept(indexesA, a.w.states, true)) && (b.Usable? ==> Kept(indexesB, b.w.states, false))
    requires a.Usable? ==> Transducer.Valid(a.w) && Linked(cascade.Snapshot(), cascade.isChain0, a.w)
    requires b.Usable? ==> Transducer.Valid(b.w) && Linked(cascade.Snapshot(), cascade.isChain1, b.w)
    modifies cascade`chains, cascade`epsilonChains
    ensures cascade.Valid() && Extends(old(cascade.Snapshot()), cascade.Snapshot())
    ensures res.Usable? <==> a.Usable? && b.Usable? && exists pa, pb :: MatchingPair(Problem(groups, false, a.w, b.w), pa, pb)
    ensures res.Usable? ==> c == Problem(groups, c.merged, a.w, b.w) && res.w == r.w
    ensures res.Usable? ==> Realizes(c, r) && AllGrouped(cascade.Snapshot(), c, r)
  {
    hide Realizes, AllGrouped, MatchingPair, Linked, Kept;
    if a.Invalid? || b.Invalid? {
      return Invalid, *, *;
    }
    var w := new Composer(cascade, a.w, b.w, indexesA, indexesB, groups);
    w.RunWorklist();
    var usable;
    usable, c := MergeFinals(w);
    r := w.Result();
    res := if usable then Usable(Wfst(w.states, w.final, a.w.ins, b.w.outs)) else Invalid;
  }
}
