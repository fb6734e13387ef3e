/** The invariants of the worklist of composition, on values, and the steps that keep them. */
module Worklist {
  import opened Transducer
  import opened Weights
  import opened Filter
  import opened Composition
  import opened Chains

  datatype TrioId = TrioId(num: nat, tri: Key)

  /** Both tables name exactly the states made so far. */
  ghost predicate Maps(keys: seq<Key>, stateMap: map<Key, nat>, mediateMap: map<Key, nat>) {
    && (forall t :: t in stateMap ==> t.Trio? && stateMap[t] < |keys| && keys[stateMap[t]] == t)
    && (forall t :: t in mediateMap ==> t.Mediate? && mediateMap[t] < |keys| && keys[mediateMap[t]] == t)
    && (forall s :: 0 <= s < |keys| ==> !keys[s].Sink?)
    && (forall s :: 0 <= s < |keys| && keys[s].Trio? ==> keys[s] in stateMap && stateMap[keys[s]] == s)
    && (forall s :: 0 <= s < |keys| && keys[s].Mediate? ==> keys[s] in mediateMap && mediateMap[keys[s]] == s)
  }

  /** The queue holds the waiting states, once each: triples that have no arcs yet. */
  ghost predicate Queued(queue: seq<TrioId>, waiting: set<nat>, keys: seq<Key>, moves: seq<seq<Move>>) {
    && |queue| == |waiting|
    && (forall i :: 0 <= i < |queue| ==> queue[i].num in waiting)
    && (forall i, j :: 0 <= i < j < |queue| ==> queue[i].num != queue[j].num)
    && (forall i :: 0 <= i < |queue| ==>
          && queue[i].num < |keys| && queue[i].num < |moves|
          && keys[queue[i].num] == queue[i].tri && queue[i].tri.Trio?
          && moves[queue[i].num] == [])
    && (forall s :: s in waiting ==> s < |keys|)
  }

  lemma NewTrioKeeps(keys: seq<Key>, moves: seq<seq<Move>>, stateMap: map<Key, nat>, mediateMap: map<Key, nat>,
                     queue: seq<TrioId>, waiting: set<nat>, tri: Key)
    requires Maps(keys, stateMap, mediateMap) && Queued(queue, waiting, keys, moves)
    requires tri.Trio? && tri !in stateMap && |moves| == |keys|
    ensures tri !in keys
    ensures Maps(keys + [tri], stateMap[tri := |keys|], mediateMap)
    ensures Queued([TrioId(|keys|, tri)] + queue, waiting + {|keys|}, keys + [tri], moves + [[]])
  {}

  lemma NewMediateKeeps(keys: seq<Key>, moves: seq<seq<Move>>, stateMap: map<Key, nat>, mediateMap: map<Key, nat>,
                        queue: seq<TrioId>, waiting: set<nat>, key: Key)
    requires Maps(keys, stateMap, mediateMap) && Queued(queue, waiting, keys, moves)
    requires key.Mediate? && key !in mediateMap && |moves| == |keys|
    ensures key !in keys && |keys| !in waiting
    ensures Maps(keys + [key], stateMap, mediateMap[key := |keys|])
    ensures Queued(queue, waiting, keys + [key], moves + [[]])
  {}

  lemma PopKeeps(queue: seq<TrioId>, waiting: set<nat>, keys: seq<Key>, moves: seq<seq<Move>>)
    requires Queued(queue, waiting, keys, moves) && queue != []
    ensures var top := queue[0].num;
      && top in waiting && top < |keys| && top < |moves|
      && keys[top] == queue[0].tri && queue[0].tri.Trio? && moves[top] == []
      && Queued(queue[1..], waiting - {top}, keys, moves)
  {}

  lemma AddedMoveKeeps(queue: seq<TrioId>, waiting: set<nat>, keys: seq<Key>, moves: seq<seq<Move>>, source: nat, ms: seq<Move>)
    requires Queued(queue, waiting, keys, moves) && source < |moves| && source !in waiting
    ensures Queued(queue, waiting, keys, moves[source := ms])
  {}

  /** The group of the arc of a move is the one that the cascade gives to it. */
  ghost predicate ArcGrouped(bk: Book, c: Problem, key: Key, m: Move, g: nat)
    requires Ok(c)
  {
    KeyOk(c, key) && Enabled(c, key, m) && GroupFits(bk, c, key, m, g)
  }

  ghost predicate StateGrouped(bk: Book, c: Problem, r: Composed, s: nat)
    requires Ok(c) && s < |r.keys| && s < |r.moves| && s < |r.w.states|
  {
    forall k :: 0 <= k < |r.moves[s]| && k < |r.w.states[s]| ==>
      ArcGrouped(bk, c, r.keys[s], r.moves[s][k], r.w.states[s][k].group)
  }

  ghost predicate AllGrouped(bk: Book, c: Problem, r: Composed)
    requires Ok(c)
  {
    forall s :: 0 <= s < |r.keys| && s < |r.moves| && s < |r.w.states| ==> StateGrouped(bk, c, r, s)
  }

  lemma GroupedExtends(bk: Book, bk': Book, c: Problem, r: Composed)
    requires Ok(c) && AllGrouped(bk, c, r) && Extends(bk, bk')
    requires Linked(bk, bk.ch0, c.a) && Linked(bk, bk.ch1, c.b)
    ensures AllGrouped(bk', c, r)
    ensures Linked(bk', bk'.ch0, c.a) && Linked(bk', bk'.ch1, c.b)
  {
    hide Linked, GroupFits, Enabled, KeyOk;
    LinkedExtends(bk, bk', bk.ch0, c.a);
    LinkedExtends(bk, bk', bk.ch1, c.b);
    forall s, k | 0 <= s < |r.keys| && s < |r.moves| && s < |r.w.states| && 0 <= k < |r.moves[s]| && k < |r.w.states[s]|
      ensures ArcGrouped(bk', c, r.keys[s], r.moves[s][k], r.w.states[s][k].group)
    {
      assert StateGrouped(bk, c, r, s);
      assert ArcGrouped(bk, c, r.keys[s], r.moves[s][k], r.w.states[s][k].group);
      GroupFitsExtends(bk, bk', c, r.keys[s], r.moves[s][k], r.w.states[s][k].group);
    }
  }

  lemma LinkedExtends(bk: Book, bk': Book, isChain: bool, w: Wfst)
    requires Linked(bk, isChain, w) && Extends(bk, bk')
    ensures Linked(bk', isChain, w)
  {
    forall q, k | !bk.trivial && 0 <= q < |w.states| && 0 <= k < |w.states[q]|
      ensures ArcLinked(bk', isChain, w.states[q][k])
    {
      assert ArcLinked(bk, isChain, w.states[q][k]);
    }
  }

  /** A new state without arcs leaves the others as they were. */
  lemma GrownShape(c: Problem, r: Composed, r': Composed, key: Key)
    requires Ok(c) && Shaped(c, r) && KeyOk(c, key) && key !in r.keys
    requires r'.keys == r.keys + [key] && r'.moves == r.moves + [[]] && r'.w.states == r.w.states + [[]]
    ensures Shaped(c, r')
  {}

  lemma ShapeLengths(c: Problem, r: Composed)
    requires Ok(c) && Shaped(c, r)
    ensures |r.keys| == |r.moves| == |r.w.states|
  {}

  lemma GrownStatesKeep(c: Problem, r: Composed, r': Composed, key: Key)
    requires Ok(c) && Shaped(c, r) && KeyOk(c, key) && key !in r.keys
    requires r'.keys == r.keys + [key] && r'.moves == r.moves + [[]] && r'.w.states == r.w.states + [[]]
    ensures Shaped(c, r')
    ensures forall s :: 0 <= s < |r.keys| && StateSound(c, r, s) ==> StateSound(c, r', s)
    ensures forall s :: 0 <= s < |r.keys| && StateComplete(c, r, s) ==> StateComplete(c, r', s)
    ensures StateSound(c, r', |r.keys|)
    ensures forall bk :: AllGrouped(bk, c, r) ==> AllGrouped(bk, c, r')
  {
    GrownShape(c, r, r', key);
    forall bk, s | AllGrouped(bk, c, r) && 0 <= s < |r'.keys| && s < |r'.moves| && s < |r'.w.states|
      ensures StateGrouped(bk, c, r', s)
    {
      assert s < |r.keys| ==> s < |r.moves| && s < |r.w.states| && StateGrouped(bk, c, r, s);
    }
    forall s | 0 <= s < |r.keys| && StateSound(c, r, s) ensures StateSound(c, r', s) {
      forall k | 0 <= k < |r'.moves[s]| ensures ArcFits(c, r', s, r'.w.states[s][k], r'.moves[s][k]) {
        assert ArcFits(c, r, s, r.w.states[s][k], r.moves[s][k]);
      }
    }
  }

  /** A new arc, for a move not taken yet, keeps every state sound and what was complete complete. */
  lemma AddedArcKeeps(c: Problem, r: Composed, r': Composed, source: nat, arc: Arc, m: Move)
    requires Ok(c) && Shaped(c, r) && source < |r.keys| && r'.keys == r.keys
    requires r'.moves == r.moves[source := [m] + r.moves[source]]
    requires r'.w.states == r.w.states[source := [arc] + r.w.states[source]]
    requires ArcFits(c, r, source, arc, m) && m !in r.moves[source]
    ensures Shaped(c, r')
    ensures forall s :: 0 <= s < |r.keys| && StateSound(c, r, s) ==> StateSound(c, r', s)
    ensures forall s :: 0 <= s < |r.keys| && StateComplete(c, r, s) ==> StateComplete(c, r', s)
  {
    hide Enabled, KeyOk, Target, MoveIn, MoveOut, MoveWeight;
    forall s | 0 <= s < |r.keys| && StateSound(c, r, s) ensures StateSound(c, r', s) {
      forall k | 0 <= k < |r'.moves[s]| ensures ArcFits(c, r', s, r'.w.states[s][k], r'.moves[s][k]) {
        if s == source && k > 0 {
          assert ArcFits(c, r, s, r.w.states[s][k - 1], r.moves[s][k - 1]);
        } else if s != source {
          assert ArcFits(c, r, s, r.w.states[s][k], r.moves[s][k]);
        }
      }
    }
    assert forall s, x :: 0 <= s < |r.keys| && x in r.moves[s] ==> x in r'.moves[s];
  }

  lemma AddedArcKeepsGroups(c: Problem, r: Composed, r': Composed, source: nat, arc: Arc, m: Move)
    requires Ok(c) && Shaped(c, r) && Shaped(c, r') && source < |r.keys| && r'.keys == r.keys
    requires r'.moves == r.moves[source := [m] + r.moves[source]]
    requires r'.w.states == r.w.states[source := [arc] + r.w.states[source]]
    ensures forall bk :: AllGrouped(bk, c, r) && ArcGrouped(bk, c, r.keys[source], m, arc.group) ==> AllGrouped(bk, c, r')
  {
    hide ArcGrouped, KeyOk;
    forall bk, s | AllGrouped(bk, c, r) && ArcGrouped(bk, c, r.keys[source], m, arc.group) && 0 <= s < |r.keys|
      ensures StateGrouped(bk, c, r', s)
    {
      assert StateGrouped(bk, c, r, s);
      forall k | 0 <= k < |r'.moves[s]| && k < |r'.w.states[s]|
        ensures ArcGrouped(bk, c, r'.keys[s], r'.moves[s][k], r'.w.states[s][k].group)
      {
        if s == source && k > 0 {
          assert ArcGrouped(bk, c, r.keys[s], r.moves[s][k - 1], r.w.states[s][k - 1].group);
        }
      }
    }
  }

  lemma MoveArcsLinked(bk: Book, c: Problem, key: Key, m: Move)
    requires Ok(c) && KeyOk(c, key) && Enabled(c, key, m)
    requires Linked(bk, bk.ch0, c.a) && Linked(bk, bk.ch1, c.b)
    ensures !bk.trivial && (m.L? || m.LR?) ==> ArcLinked(bk, bk.ch0, ArcA(c, key, m))
    ensures !bk.trivial && (m.R? || m.LR?) ==> ArcLinked(bk, bk.ch1, ArcB(c, key, m))
  {}

  /** How each state was reached from the start. */
  ghost predicate Routed(c: Problem, keys: seq<Key>, routes: seq<seq<Move>>)
    requires Ok(c)
  {
    |routes| == |keys| && forall s :: 0 <= s < |keys| ==> Routes(c, routes[s], keys[s])
  }

  ghost predicate Routes(c: Problem, ms: seq<Move>, key: Key)
    requires Ok(c)
  {
    IsRun(c, Trio(0, 0, 0), ms) && RunEnd(c, Trio(0, 0, 0), ms) == key
  }

  lemma {:induction false} RunSnoc(c: Problem, key: Key, ms: seq<Move>, m: Move)
    requires Ok(c) && KeyOk(c, key) && IsRun(c, key, ms) && Enabled(c, RunEnd(c, key, ms), m)
    ensures IsRun(c, key, ms + [m]) && RunEnd(c, key, ms + [m]) == Target(c, RunEnd(c, key, ms), m)
    decreases |ms|
  {
    hide Enabled, Target;
    if |ms| == 0 {
      assert ms + [m] == [m] && [m][1..] == [];
    } else {
      RunSnoc(c, Target(c, key, ms[0]), ms[1..], m);
      assert (ms + [m])[1..] == ms[1..] + [m];
    }
  }

  lemma RouteOn(c: Problem, keys: seq<Key>, routes: seq<seq<Move>>, s: nat, m: Move)
    requires Ok(c) && Routed(c, keys, routes) && s < |keys| && KeyOk(c, keys[s]) && Enabled(c, keys[s], m)
    ensures Routes(c, routes[s] + [m], Target(c, keys[s], m))
  {
    hide Enabled, Target, KeyOk;
    assert Routes(c, routes[s], keys[s]);
    StartOk(c);
    RunSnoc(c, Trio(0, 0, 0), routes[s], m);
  }

  lemma StartOk(c: Problem)
    requires Ok(c)
    ensures KeyOk(c, Trio(0, 0, 0))
  {}

  // ----- the whole invariant -----

  /** The tables and the queue of the worklist; the states that still lack some of their arcs, those of them that are
    * queued, and how each state was reached. */
  datatype Tables = Tables(stateMap: map<Key, nat>, mediateMap: map<Key, nat>, queue: seq<TrioId>,
                           waiting: set<nat>, open: set<nat>, routes: seq<seq<Move>>)

  /** What has been built: every arc is one of its state's moves, and a state that is not open has them all. */
  ghost predicate Built(c: Problem, r: Composed, t: Tables)
    requires Ok(c)
  {
    && Shaped(c, r)
    && |r.keys| > 0 && r.keys[0] == Trio(0, 0, 0)
    && (forall s :: s in t.open ==> s < |r.keys|)
    && Routed(c, r.keys, t.routes)
    && Maps(r.keys, t.stateMap, t.mediateMap) && Queued(t.queue, t.waiting, r.keys, r.moves) && t.waiting <= t.open
    && (forall s :: 0 <= s < |r.keys| ==> StateSound(c, r, s))
    && (forall s :: 0 <= s < |r.keys| && s !in t.open ==> StateComplete(c, r, s))
  }

  ghost function AddState(r: Composed, key: Key): Composed {
    r.(w := r.w.(states := r.w.states + [[]]), keys := r.keys + [key], moves := r.moves + [[]])
  }

  ghost function AddArcTo(r: Composed, s: nat, arc: Arc, m: Move): Composed
    requires s < |r.w.states| && s < |r.moves|
  {
    r.(w := r.w.(states := r.w.states[s := [arc] + r.w.states[s]]), moves := r.moves[s := [m] + r.moves[s]])
  }

  lemma BuiltShape(c: Problem, r: Composed, t: Tables)
    requires Ok(c) && Built(c, r, t)
    ensures Shaped(c, r) && |r.keys| == |r.moves| == |r.w.states| && Routed(c, r.keys, t.routes)
    ensures Maps(r.keys, t.stateMap, t.mediateMap)
    ensures forall s :: 0 <= s < |r.keys| ==> KeyOk(c, r.keys[s])
    ensures forall s :: s in t.open ==> s < |r.keys|
  {}

  /** A new triple, queued. */
  ghost function EnterTrio(t: Tables, num: nat, tri: Key, route: seq<Move>): Tables {
    Tables(t.stateMap[tri := num], t.mediateMap, [TrioId(num, tri)] + t.queue, t.waiting + {num}, t.open + {num}, t.routes + [route])
  }

  lemma BuiltNewTrio(c: Problem, r: Composed, t: Tables, tri: Key, route: seq<Move>)
    requires Ok(c) && Built(c, r, t) && tri.Trio? && KeyOk(c, tri) && tri !in t.stateMap && Routes(c, route, tri)
    ensures |r.keys| == |r.moves| == |r.w.states|
    ensures Built(c, AddState(r, tri), EnterTrio(t, |r.keys|, tri, route))
    ensures forall bk :: AllGrouped(bk, c, r) ==> AllGrouped(bk, c, AddState(r, tri))
  {
    hide StateSound, StateComplete, Maps, Queued, AllGrouped, KeyOk, Routes;
    ShapeLengths(c, r);
    NewTrioKeeps(r.keys, r.moves, t.stateMap, t.mediateMap, t.queue, t.waiting, tri);
    GrownStatesKeep(c, r, AddState(r, tri), tri);
  }

  lemma BuiltNewMediate(c: Problem, r: Composed, t: Tables, key: Key, route: seq<Move>)
    requires Ok(c) && Built(c, r, t) && key.Mediate? && KeyOk(c, key) && key !in t.mediateMap && Routes(c, route, key)
    ensures |r.keys| == |r.moves| == |r.w.states| && |r.keys| !in t.waiting
    ensures Built(c, AddState(r, key), t.(mediateMap := t.mediateMap[key := |r.keys|], open := t.open + {|r.keys|}, routes := t.routes + [route]))
    ensures forall bk :: AllGrouped(bk, c, r) ==> AllGrouped(bk, c, AddState(r, key))
  {
    hide StateSound, StateComplete, Maps, Queued, AllGrouped, KeyOk, Routes;
    ShapeLengths(c, r);
    NewMediateKeeps(r.keys, r.moves, t.stateMap, t.mediateMap, t.queue, t.waiting, key);
    GrownStatesKeep(c, r, AddState(r, key), key);
  }

  lemma BuiltAddArc(c: Problem, r: Composed, t: Tables, source: nat, arc: Arc, m: Move)
    requires Ok(c) && Built(c, r, t) && Shaped(c, r) && source in t.open && source !in t.waiting && source < |r.keys|
    requires ArcFits(c, r, source, arc, m) && m !in r.moves[source]
    ensures Built(c, AddArcTo(r, source, arc, m), t)
    ensures forall bk :: AllGrouped(bk, c, r) && ArcGrouped(bk, c, r.keys[source], m, arc.group) ==> AllGrouped(bk, c, AddArcTo(r, source, arc, m))
  {
    hide StateSound, StateComplete, Maps, Queued, AllGrouped, KeyOk, Routed, ArcGrouped, ArcFits;
    var r' := AddArcTo(r, source, arc, m);
    AddedMoveKeeps(t.queue, t.waiting, r.keys, r.moves, source, [m] + r.moves[source]);
    AddedArcKeeps(c, r, r', source, arc, m);
    AddedArcKeepsGroups(c, r, r', source, arc, m);
  }

  lemma BuiltPop(c: Problem, r: Composed, t: Tables)
    requires Ok(c) && Built(c, r, t) && t.queue != [] && t.open == t.waiting
    ensures var top := t.queue[0];
      && top.tri.Trio? && top.num < |r.keys| == |r.moves| && r.keys[top.num] == top.tri && KeyOk(c, top.tri) && r.moves[top.num] == []
      && top.num in t.waiting
    ensures Built(c, r, t.(queue := t.queue[1..], waiting := t.waiting - {t.queue[0].num}))
  {
    hide StateSound, StateComplete, Maps, Queued, KeyOk, Routed;
    PopKeeps(t.queue, t.waiting, r.keys, r.moves);
  }

  lemma BuiltClose(c: Problem, r: Composed, t: Tables, num: nat)
    requires Ok(c) && Built(c, r, t) && num < |r.keys| && num !in t.waiting && StateComplete(c, r, num)
    ensures Built(c, r, t.(open := t.open - {num}))
  {
    hide StateSound, StateComplete, Maps, Queued, KeyOk, Routed;
  }
}
