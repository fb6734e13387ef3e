/** The last step of composition: one final state out of the filter finals that were reached. */
module Finals {
  import opened Transducer
  import opened Weights
  import opened Filter
  import opened Composition
  import opened Chains
  import opened Worklist

  /** The worklist is done: every state has exactly the arcs of its moves. */
  ghost predicate Settled(c: Problem, r: Composed)
    requires Ok(c)
  {
    && !c.merged && Shaped(c, r)
    && |r.keys| > 0 && r.keys[0] == Trio(0, 0, 0)
    && (forall s :: 0 <= s < |r.keys| ==> StateSound(c, r, s) && StateComplete(c, r, s) && !r.keys[s].Sink?)
    && r.w.ins == c.a.ins && r.w.outs == c.b.outs
  }

  /** A single filter final was reached: it is the final state. */
  lemma OneFinal(c: Problem, r: Composed, r': Composed, final: nat)
    requires Ok(c) && Settled(c, r) && r' == r.(w := r.w.(final := final))
    requires final < |r.keys| && forall s :: 0 <= s < |r.keys| ==> (Final(c, r.keys[s]) <==> s == final)
    ensures Realizes(c, r')
    ensures forall bk :: AllGrouped(bk, c, r) ==> AllGrouped(bk, c, r')
  {
    hide Enabled, KeyOk, Target, MoveIn, MoveOut, MoveWeight, ArcGrouped;
    forall s | 0 <= s < |r.keys| ensures StateSound(c, r', s) && StateComplete(c, r', s) {
      assert StateSound(c, r, s) && StateComplete(c, r, s);
      forall k | 0 <= k < |r'.moves[s]| ensures ArcFits(c, r', s, r'.w.states[s][k], r'.moves[s][k]) {
        assert ArcFits(c, r, s, r.w.states[s][k], r.moves[s][k]);
      }
    }
    forall bk, s | AllGrouped(bk, c, r) && 0 <= s < |r.keys| ensures StateGrouped(bk, c, r', s) {
      assert StateGrouped(bk, c, r, s);
    }
  }

  const STOP_ARC_WEIGHT: real := 1.0

  function StopArc(final: nat): Arc {
    Arc(EPSILON, EPSILON, final, STOP_ARC_WEIGHT, LOCKED_GROUP, 0)
  }

  /** r' is r with a sink to which every filter final has an empty arc of weight one. */
  ghost predicate Joins(c: Problem, r: Composed, r': Composed)
    requires Ok(c) && Shaped(c, r)
  {
    var n := |r.keys|;
    && r'.keys == r.keys + [Sink] && |r'.moves| == |r'.w.states| == n + 1
    && r'.w.final == n && r'.w.ins == r.w.ins && r'.w.outs == r.w.outs
    && r'.moves[n] == [] && r'.w.states[n] == []
    && forall s :: 0 <= s < n ==>
         && r'.moves[s] == (if Final(c, r.keys[s]) then [Stop] else []) + r.moves[s]
         && r'.w.states[s] == (if Final(c, r.keys[s]) then [StopArc(n)] else []) + r.w.states[s]
  }

  /** As Joins, for the filter finals below i only. */
  ghost predicate JoinsBelow(c: Problem, r: Composed, i: nat, moves: seq<seq<Move>>, states: seq<seq<Arc>>) {
    var n := |r.keys|;
    && |moves| == |states| == n + 1 && n == |r.moves| == |r.w.states|
    && moves[n] == [] && states[n] == []
    && forall s :: 0 <= s < n ==>
         && moves[s] == (if Final(c, r.keys[s]) && r.keys[s].filter < i then [Stop] + r.moves[s] else r.moves[s])
         && states[s] == (if Final(c, r.keys[s]) && r.keys[s].filter < i then [StopArc(n)] + r.w.states[s] else r.w.states[s])
  }

  lemma JoinStepAt(c: Problem, r: Composed, i: nat, moves: seq<seq<Move>>, states: seq<seq<Arc>>, s: nat)
    requires Ok(c) && Shaped(c, r) && JoinsBelow(c, r, i, moves, states)
    requires s < |r.keys| && r.keys[s] == Trio(c.a.final, c.b.final, i)
    ensures JoinsBelow(c, r, i + 1, moves[s := [Stop] + moves[s]], states[s := [StopArc(|r.keys|)] + states[s]])
  {}

  lemma JoinStepNone(c: Problem, r: Composed, i: nat, moves: seq<seq<Move>>, states: seq<seq<Arc>>)
    requires JoinsBelow(c, r, i, moves, states)
    requires forall s :: 0 <= s < |r.keys| ==> r.keys[s] != Trio(c.a.final, c.b.final, i)
    ensures JoinsBelow(c, r, i + 1, moves, states)
  {}

  lemma StartJoining(c: Problem, r: Composed)
    requires Ok(c) && Shaped(c, r)
    ensures JoinsBelow(c, r, 0, r.moves + [[]], r.w.states + [[]])
  {}

  lemma JoinedLengths(c: Problem, r: Composed, i: nat, moves: seq<seq<Move>>, states: seq<seq<Arc>>)
    requires JoinsBelow(c, r, i, moves, states)
    ensures |moves| == |states| == |r.keys| + 1
  {}

  lemma AllJoined(c: Problem, r: Composed, r': Composed)
    requires Ok(c) && Settled(c, r) && JoinsBelow(c, r, 3, r'.moves, r'.w.states)
    requires r'.keys == r.keys + [Sink] && r'.w.final == |r.keys| && r'.w.ins == r.w.ins && r'.w.outs == r.w.outs
    ensures Joins(c, r, r')
  {
    forall s | 0 <= s < |r.keys| ensures KeyOk(c, r.keys[s]) {}
  }

  /** The moves of a problem are unchanged by the sink, but for Stop. */
  lemma MovesUnchanged(c: Problem, c': Problem, key: Key, m: Move)
    requires Ok(c) && !c.merged && c' == c.(merged := true) && KeyOk(c, key)
    ensures KeyOk(c', key)
    ensures Enabled(c', key, m) <==> Enabled(c, key, m) || (m.Stop? && Final(c, key))
    ensures Enabled(c, key, m) ==>
      && !m.Stop?
      && Target(c', key, m) == Target(c, key, m)
      && MoveIn(c', key, m) == MoveIn(c, key, m) && MoveOut(c', key, m) == MoveOut(c, key, m)
      && MoveWeight(c', key, m) == MoveWeight(c, key, m)
    ensures forall bk, g :: ArcGrouped(bk, c, key, m, g) ==> ArcGrouped(bk, c', key, m, g)
  {}

  lemma JoinedShape(c: Problem, r: Composed, c': Problem, r': Composed)
    requires Ok(c) && Settled(c, r) && c' == c.(merged := true) && Joins(c, r, r')
    ensures Shaped(c', r')
  {
    forall s | 0 <= s < |r.keys| ensures KeyOk(c', r.keys[s]) {
      MovesUnchanged(c, c', r.keys[s], Stop);
    }
  }

  lemma JoinedArc(c: Problem, r: Composed, c': Problem, r': Composed, s: nat, k: nat)
    requires Ok(c) && Settled(c, r) && c' == c.(merged := true) && Joins(c, r, r') && Shaped(c', r')
    requires s < |r.keys| && k < |r'.moves[s]| && |r'.moves[s]| == |r'.w.states[s]|
    ensures ArcFits(c', r', s, r'.w.states[s][k], r'.moves[s][k])
  {
    hide Enabled, KeyOk, Target, MoveIn, MoveOut, MoveWeight;
    var d := if Final(c, r.keys[s]) then 1 else 0;
    assert StateSound(c, r, s);
    MovesUnchanged(c, c', r.keys[s], r'.moves[s][k]);
    if k < d {
      StopFits(c', r.keys[s]);
    } else {
      assert ArcFits(c, r, s, r.w.states[s][k - d], r.moves[s][k - d]);
    }
  }

  lemma StopFits(c: Problem, key: Key)
    requires Ok(c) && KeyOk(c, key) && c.merged && Final(c, key)
    ensures Enabled(c, key, Stop) && Target(c, key, Stop) == Sink
    ensures MoveIn(c, key, Stop) == EPSILON && MoveOut(c, key, Stop) == EPSILON
    ensures MoveWeight(c, key, Stop) == STOP_ARC_WEIGHT
  {}

  lemma JoinedState(c: Problem, r: Composed, c': Problem, r': Composed, s: nat)
    requires Ok(c) && Settled(c, r) && c' == c.(merged := true) && Joins(c, r, r') && Shaped(c', r')
    requires s < |r.keys|
    ensures StateSound(c', r', s) && StateComplete(c', r', s)
  {
    hide Enabled, KeyOk, Target, MoveIn, MoveOut, MoveWeight;
    assert StateSound(c, r, s) && StateComplete(c, r, s);
    NoStop(c, r, s);
    forall k | 0 <= k < |r'.moves[s]| ensures ArcFits(c', r', s, r'.w.states[s][k], r'.moves[s][k]) {
      JoinedArc(c, r, c', r', s, k);
    }
    forall m | Enabled(c', r'.keys[s], m) ensures m in r'.moves[s] {
      MovesUnchanged(c, c', r.keys[s], m);
      if m.Stop? { assert r'.moves[s][0] == Stop; } else { assert m in r.moves[s]; }
    }
  }

  lemma NoStop(c: Problem, r: Composed, s: nat)
    requires Ok(c) && Settled(c, r) && s < |r.keys|
    ensures Stop !in r.moves[s]
  {
    forall k | 0 <= k < |r.moves[s]| ensures r.moves[s][k] != Stop {
      assert StateSound(c, r, s);
      assert ArcFits(c, r, s, r.w.states[s][k], r.moves[s][k]);
    }
  }

  /** Several filter finals were reached: the sink is the final state. */
  lemma ManyFinals(c: Problem, r: Composed, c': Problem, r': Composed)
    requires Ok(c) && Settled(c, r) && c' == c.(merged := true) && Joins(c, r, r')
    ensures Realizes(c', r')
  {
    hide Enabled, Target, MoveIn, MoveOut, MoveWeight;
    JoinedShape(c, r, c', r');
    forall s | 0 <= s < |r.keys| ensures StateSound(c', r', s) && StateComplete(c', r', s) {
      JoinedState(c, r, c', r', s);
    }
    SinkIsBare(c', r', |r.keys|);
  }

  lemma SinkIsBare(c: Problem, r: Composed, s: nat)
    requires Ok(c) && Shaped(c, r) && s < |r.keys| && r.keys[s] == Sink && r.moves[s] == [] && r.w.states[s] == []
    ensures StateSound(c, r, s) && StateComplete(c, r, s)
  {}

  lemma ManyFinalsGrouped(bk: Book, c: Problem, r: Composed, c': Problem, r': Composed)
    requires Ok(c) && Settled(c, r) && c' == c.(merged := true) && Joins(c, r, r')
    requires AllGrouped(bk, c, r) && (!bk.trivial ==> |bk.chains| > 0 && bk.chains[0] == [])
    ensures AllGrouped(bk, c', r')
  {
    hide Enabled, KeyOk, ArcGrouped, ArcFits, StateComplete;
    forall s | 0 <= s < |r'.keys| && s < |r'.moves| && s < |r'.w.states|
      ensures StateGrouped(bk, c', r', s)
    {
      if s < |r.keys| {
        assert StateGrouped(bk, c, r, s) && StateSound(c, r, s);
        JoinedGrouped(bk, c, r, c', r', s);
      }
    }
  }

  lemma JoinedGrouped(bk: Book, c: Problem, r: Composed, c': Problem, r': Composed, s: nat)
    requires Ok(c) && Shaped(c, r) && !c.merged && c' == c.(merged := true) && s < |r.keys| && StateSound(c, r, s) && StateGrouped(bk, c, r, s)
    requires !bk.trivial ==> |bk.chains| > 0 && bk.chains[0] == []
    requires s < |r'.keys| && s < |r'.moves| && s < |r'.w.states| && r'.keys[s] == r.keys[s]
    requires if Final(c, r.keys[s])
             then r'.moves[s] == [Stop] + r.moves[s] && |r'.w.states[s]| > 0 && r'.w.states[s][0].group == LOCKED_GROUP
                  && r'.w.states[s][1..] == r.w.states[s]
             else r'.moves[s] == r.moves[s] && r'.w.states[s] == r.w.states[s]
    ensures StateGrouped(bk, c', r', s)
  {
    hide Enabled, KeyOk, ArcGrouped;
    var d := if Final(c, r.keys[s]) then 1 else 0;
    forall k | 0 <= k < |r'.moves[s]| && k < |r'.w.states[s]|
      ensures ArcGrouped(bk, c', r'.keys[s], r'.moves[s][k], r'.w.states[s][k].group)
    {
      MovesUnchanged(c, c', r.keys[s], r'.moves[s][k]);
      if k < d {
        StopGrouped(bk, c', r.keys[s]);
      } else {
        assert ArcGrouped(bk, c, r.keys[s], r.moves[s][k - d], r.w.states[s][k - d].group);
      }
    }
  }

  lemma StopGrouped(bk: Book, c: Problem, key: Key)
    requires Ok(c) && KeyOk(c, key) && c.merged && Final(c, key)
    requires !bk.trivial ==> |bk.chains| > 0 && bk.chains[0] == []
    ensures ArcGrouped(bk, c, key, Stop, LOCKED_GROUP)
  {}

  // ----- when no filter final was reached -----

  /** Where a run ends there is a state. */
  lemma {:induction false} RunEndIsMade(c: Problem, r: Composed, s: nat, ms: seq<Move>) returns (t: nat)
    requires Ok(c) && Settled(c, r) && s < |r.keys| && IsRun(c, r.keys[s], ms)
    ensures t < |r.keys| && r.keys[t] == RunEnd(c, r.keys[s], ms)
    decreases |ms|
  {
    if |ms| == 0 {
      t := s;
    } else {
      assert StateComplete(c, r, s);
      assert ms[0] in r.moves[s];
      var k :| 0 <= k < |r.moves[s]| && r.moves[s][k] == ms[0];
      assert StateSound(c, r, s);
      assert ArcFits(c, r, s, r.w.states[s][k], ms[0]);
      t := RunEndIsMade(c, r, r.w.states[s][k].dest, ms[1..]);
    }
  }

  /** No filter final reached: no pair of paths matches. */
  lemma NoFinalNoPair(c: Problem, r: Composed, pa: seq<nat>, pb: seq<nat>)
    requires Ok(c) && Settled(c, r) && forall s :: 0 <= s < |r.keys| ==> !Final(c, r.keys[s])
    ensures !MatchingPair(c, pa, pb)
  {
    if MatchingPair(c, pa, pb) {
      assert [] + OutputOf(c.a, 0, pa) == OutputOf(c.a, 0, pa);
      MergeAccepts(c, r.keys[0], pa, pb);
      var t := RunEndIsMade(c, r, 0, Merge(c, r.keys[0], pa, pb));
      assert false;
    }
  }

  /** A filter final that was reached: some pair of paths matches. */
  lemma FinalHasPair(c: Problem, r: Composed, routes: seq<seq<Move>>, s: nat) returns (pa: seq<nat>, pb: seq<nat>)
    requires Ok(c) && Settled(c, r) && Routed(c, r.keys, routes) && s < |r.keys| && Final(c, r.keys[s])
    ensures MatchingPair(c, pa, pb)
  {
    var start, ms := Trio(0, 0, 0), routes[s];
    StartOk(c);
    assert Routes(c, ms, r.keys[s]);
    pa, pb := ProjA(ms), ProjB(ms);
    RunProjects(c, start, ms);
    RunMatches(c, start, ms);
    assert [] + OutputOf(c.a, 0, pa) == OutputOf(c.a, 0, pa) && InputOf(c.b, 0, pb) + [] == InputOf(c.b, 0, pb);
  }
}
