/** derivations::derive (carmel/src/derivations.h): the lattice is built depth first, and a state all of whose
  * successors are known dead is marked removed, so that no arc to it is stored. */
module Derivations {
  import opened Transducer
  import opened Lattices
  import opened Walks
  import opened Pruning

  /** For each state, the ids of its arcs by input and output symbol. */
  type IoIndex = seq<map<(nat, nat), seq<nat>>>

  ghost predicate Bucket(c: Instance, s: nat, x: nat, y: nat, id: nat) {
    id < |c.table| && c.table[id].src == s && c.table[id].arc.inp == x && c.table[id].arc.out == y
  }

  /** In order, the ids below n of the arcs in the bucket. */
  ghost predicate IsIds(c: Instance, ids: seq<nat>, n: nat, s: nat, x: nat, y: nat) {
    && (forall i, j :: 0 <= i < j < |ids| ==> ids[i] < ids[j])
    && forall id: nat :: id in ids <==> id < n && Bucket(c, s, x, y, id)
  }

  ghost predicate IndexesUpTo(c: Instance, io: IoIndex, n: nat) {
    && |io| == c.nStates
    && forall s: nat, x: nat, y: nat :: 0 <= s < |io| ==> IsIds(c, if (x, y) in io[s] then io[s][(x, y)] else [], n, s, x, y)
  }

  method BuildIndex(c: Instance) returns (io: IoIndex)
    requires Proper(c)
    ensures IndexesUpTo(c, io, |c.table|)
  {
    hide IsIds, IndexesUpTo;
    io := seq(c.nStates, _ => map[]);
    IndexStarts(c, io);
    for i := 0 to |c.table|
      invariant |io| == c.nStates && IndexesUpTo(c, io, i)
    {
      var s, key := c.table[i].src, (c.table[i].arc.inp, c.table[i].arc.out);
      var ids := if key in io[s] then io[s][key] else [];
      IndexGrows(c, i, io, io[s := io[s][key := ids + [i]]]);
      io := io[s := io[s][key := ids + [i]]];
    }
  }

  lemma IndexStarts(c: Instance, io: IoIndex)
    requires |io| == c.nStates && forall s :: 0 <= s < |io| ==> io[s] == map[]
    ensures IndexesUpTo(c, io, 0)
  {}

  lemma IndexGrows(c: Instance, i: nat, io0: IoIndex, io: IoIndex)
    requires Proper(c) && i < |c.table| && IndexesUpTo(c, io0, i)
    requires var s, key := c.table[i].src, (c.table[i].arc.inp, c.table[i].arc.out);
      io == io0[s := io0[s][key := (if key in io0[s] then io0[s][key] else []) + [i]]]
    ensures |io| == c.nStates && IndexesUpTo(c, io, i + 1)
  {
    hide IsIds;
    forall t: nat, x: nat, y: nat | 0 <= t < |io|
      ensures IsIds(c, if (x, y) in io[t] then io[t][(x, y)] else [], i + 1, t, x, y)
    {
      IndexStep(c, i, if (x, y) in io0[t] then io0[t][(x, y)] else [], t, x, y);
    }
  }

  lemma IndexStep(c: Instance, i: nat, ids: seq<nat>, s: nat, x: nat, y: nat)
    requires i < |c.table| && IsIds(c, ids, i, s, x, y)
    ensures Bucket(c, s, x, y, i) ==> IsIds(c, ids + [i], i + 1, s, x, y)
    ensures !Bucket(c, s, x, y, i) ==> IsIds(c, ids, i + 1, s, x, y)
  {
    assert forall id :: id in ids ==> id < i;
    hide Bucket;
    assert forall k :: 0 <= k < |ids| ==> ids[k] in ids;
  }

  // ----- the invariant of the search -----

  ghost predicate Shape(c: Instance, g: seq<seq<GArc>>, names: seq<DState>, removed: seq<bool>, idOf: map<DState, nat>) {
    && |g| == |names| == |removed|
    && (forall d :: d in idOf ==> idOf[d] < |names| && names[idOf[d]] == d)
    && (forall k :: 0 <= k < |names| ==> names[k] in idOf && idOf[names[k]] == k && Within(c, names[k]))
  }

  /** The successor by arc id has been explored, and is dead or has its arc. */
  ghost predicate Covered(c: Instance, arcs: seq<GArc>, removed: seq<bool>, idOf: map<DState, nat>, d: DState, id: nat) {
    CanTake(c, d, id) ==>
      var t := Successor(c, d, id);
      t in idOf && ((idOf[t] < |removed| && removed[idOf[t]]) || Stored(arcs, id))
  }

  ghost predicate ArcsGood(c: Instance, g: seq<seq<GArc>>, names: seq<DState>, removed: seq<bool>, k: nat)
    requires k < |g| == |names| == |removed|
  {
    && OncePerId(g[k])
    && forall j :: 0 <= j < |g[k]| ==> LatticeArcOk(c, g, names, k, g[k][j]) && !removed[g[k][j].dest]
  }

  /** A finished state is dead exactly if it is not the goal and has no arcs. */
  ghost predicate FinishedGood(c: Instance, arcs: seq<GArc>, removed: seq<bool>, idOf: map<DState, nat>, d: DState, dead: bool) {
    && (dead <==> d != Goal(c) && arcs == [])
    && forall id: nat :: Covered(c, arcs, removed, idOf, d, id)
  }

  ghost predicate Searching(c: Instance, g: seq<seq<GArc>>, names: seq<DState>, removed: seq<bool>, idOf: map<DState, nat>, done: set<nat>) {
    && Shape(c, g, names, removed, idOf)
    && (forall k :: 0 <= k < |g| ==> ArcsGood(c, g, names, removed, k))
    && (forall k :: 0 <= k < |g| && k in done ==> FinishedGood(c, g[k], removed, idOf, names[k], removed[k]))
    && (forall k :: 0 <= k < |g| && k !in done ==> !removed[k])
    && (forall k :: k in done ==> k < |g|)
  }

  /** Explored states stay explored, dead states stay dead. */
  ghost predicate Grows(removed: seq<bool>, removed': seq<bool>, idOf: map<DState, nat>, idOf': map<DState, nat>) {
    && (forall d :: d in idOf ==> d in idOf' && idOf'[d] == idOf[d])
    && |removed| <= |removed'| && forall k :: 0 <= k < |removed| && removed[k] ==> removed'[k]
  }

  lemma CoveredKeeps(c: Instance, arcs: seq<GArc>, arcs': seq<GArc>, removed: seq<bool>, removed': seq<bool>,
                     idOf: map<DState, nat>, idOf': map<DState, nat>, d: DState, id: nat)
    requires Covered(c, arcs, removed, idOf, d, id) && Grows(removed, removed', idOf, idOf')
    requires Stored(arcs, id) ==> Stored(arcs', id)
    ensures Covered(c, arcs', removed', idOf', d, id)
  {}

  lemma FinishedKeeps(c: Instance, arcs: seq<GArc>, removed: seq<bool>, removed': seq<bool>,
                      idOf: map<DState, nat>, idOf': map<DState, nat>, d: DState, dead: bool)
    requires FinishedGood(c, arcs, removed, idOf, d, dead) && Grows(removed, removed', idOf, idOf')
    ensures FinishedGood(c, arcs, removed', idOf', d, dead)
  {
    hide Covered, Grows, Goal;
    forall id: nat ensures Covered(c, arcs, removed', idOf', d, id) {
      CoveredKeeps(c, arcs, arcs, removed, removed', idOf, idOf', d, id);
    }
  }

  lemma ArcsKeep(c: Instance, g: seq<seq<GArc>>, names: seq<DState>, removed: seq<bool>,
                 g': seq<seq<GArc>>, names': seq<DState>, removed': seq<bool>, k: nat)
    requires k < |g| == |names| == |removed| && |g'| == |names'| == |removed'| && k < |g'|
    requires ArcsGood(c, g, names, removed, k) && g'[k] == g[k] && names <= names'
    requires forall j :: 0 <= j < |g[k]| ==> !removed'[g[k][j].dest] || |removed'| <= g[k][j].dest
    ensures ArcsGood(c, g', names', removed', k)
  {
    forall j | 0 <= j < |g'[k]| ensures LatticeArcOk(c, g', names', k, g'[k][j]) && !removed'[g'[k][j].dest] {
      assert LatticeArcOk(c, g, names, k, g[k][j]);
    }
  }

  lemma EnterKeeps(c: Instance, g: seq<seq<GArc>>, names: seq<DState>, removed: seq<bool>, idOf: map<DState, nat>, done: set<nat>, d: DState)
    requires Searching(c, g, names, removed, idOf, done) && Within(c, d) && d !in idOf
    ensures Searching(c, g + [[]], names + [d], removed + [false], idOf[d := |g|], done)
    ensures |g| !in done
  {
    hide FinishedGood, Goal;
    var g', names', removed', idOf' := g + [[]], names + [d], removed + [false], idOf[d := |g|];
    forall k | 0 <= k < |g'|
      ensures ArcsGood(c, g', names', removed', k)
      ensures k in done ==> FinishedGood(c, g'[k], removed', idOf', names'[k], removed'[k])
    {
      if k < |g| {
        assert ArcsGood(c, g, names, removed, k);
        forall j | 0 <= j < |g[k]| ensures !removed'[g[k][j].dest] || |removed'| <= g[k][j].dest {
          assert LatticeArcOk(c, g, names, k, g[k][j]);
        }
        ArcsKeep(c, g, names, removed, g', names', removed', k);
        if k in done { FinishedKeeps(c, g[k], removed, removed', idOf, idOf', names[k], removed[k]); }
      }
    }
  }

  lemma LeaveKeeps(c: Instance, g: seq<seq<GArc>>, names: seq<DState>, removed: seq<bool>, idOf: map<DState, nat>, done: set<nat>,
                   r: nat, dead: bool)
    requires Searching(c, g, names, removed, idOf, done) && r < |g| && r !in done
    requires FinishedGood(c, g[r], removed, idOf, names[r], dead)
    requires dead ==> forall k, j :: 0 <= k < |g| && 0 <= j < |g[k]| ==> g[k][j].dest != r
    ensures Searching(c, g, names, removed[r := dead], idOf, done + {r})
  {
    hide FinishedGood, Goal;
    var removed' := removed[r := dead];
    forall k | 0 <= k < |g|
      ensures ArcsGood(c, g, names, removed', k)
      ensures k in done || k == r ==> FinishedGood(c, g[k], removed', idOf, names[k], removed'[k])
    {
      assert ArcsGood(c, g, names, removed, k);
      forall j | 0 <= j < |g[k]| ensures !removed'[g[k][j].dest] || |removed'| <= g[k][j].dest {
        assert LatticeArcOk(c, g, names, k, g[k][j]);
      }
      ArcsKeep(c, g, names, removed, g, names, removed', k);
      if k in done { FinishedKeeps(c, g[k], removed, removed', idOf, idOf, names[k], removed[k]); }
      if k == r { FinishedKeeps(c, g[k], removed, removed', idOf, idOf, names[k], dead); }
    }
  }

  lemma AddKeeps(c: Instance, g: seq<seq<GArc>>, names: seq<DState>, removed: seq<bool>, idOf: map<DState, nat>, done: set<nat>,
                 src: nat, a: GArc)
    requires Searching(c, g, names, removed, idOf, done) && src < |g| && src !in done
    requires LatticeArcOk(c, g, names, src, a) && !removed[a.dest] && !Stored(g[src], a.id)
    ensures Searching(c, g[src := [a] + g[src]], names, removed, idOf, done)
  {
    hide FinishedGood, Goal;
    var g' := g[src := [a] + g[src]];
    forall k | 0 <= k < |g'|
      ensures ArcsGood(c, g', names, removed, k)
      ensures k in done ==> FinishedGood(c, g'[k], removed, idOf, names[k], removed[k])
    {
      assert ArcsGood(c, g, names, removed, k);
      forall j | 0 <= j < |g'[k]| ensures LatticeArcOk(c, g', names, k, g'[k][j]) && !removed[g'[k][j].dest] {
        if k == src && j > 0 { assert LatticeArcOk(c, g, names, k, g[k][j - 1]); }
        if k != src { assert LatticeArcOk(c, g, names, k, g[k][j]); }
      }
    }
  }

  lemma ArcsWithin(c: Instance, g: seq<seq<GArc>>, names: seq<DState>, removed: seq<bool>, idOf: map<DState, nat>, done: set<nat>)
    requires Searching(c, g, names, removed, idOf, done)
    ensures |g| == |names| == |removed| && forall k, j :: 0 <= k < |g| && 0 <= j < |g[k]| ==> g[k][j].dest < |g|
  {
    forall k, j | 0 <= k < |g| && 0 <= j < |g[k]| ensures g[k][j].dest < |g| {
      assert ArcsGood(c, g, names, removed, k);
      assert LatticeArcOk(c, g, names, k, g[k][j]);
    }
  }

  /** An arc that can be followed reads and writes what is next, or nothing: one of four cases. */
  lemma CoveredByBuckets(c: Instance, arcs: seq<GArc>, removed: seq<bool>, idOf: map<DState, nat>, d: DState)
    requires forall id: nat :: Bucket(c, d.s, EPSILON, EPSILON, id) ==> Covered(c, arcs, removed, idOf, d, id)
    requires d.o < |c.outs| ==> forall id: nat :: Bucket(c, d.s, EPSILON, c.outs[d.o], id) ==> Covered(c, arcs, removed, idOf, d, id)
    requires d.i < |c.ins| ==> forall id: nat :: Bucket(c, d.s, c.ins[d.i], EPSILON, id) ==> Covered(c, arcs, removed, idOf, d, id)
    requires d.i < |c.ins| && d.o < |c.outs| ==>
      forall id: nat :: Bucket(c, d.s, c.ins[d.i], c.outs[d.o], id) ==> Covered(c, arcs, removed, idOf, d, id)
    ensures forall id: nat :: Covered(c, arcs, removed, idOf, d, id)
  {
    forall id: nat | CanTake(c, d, id) ensures Covered(c, arcs, removed, idOf, d, id) {
      var arc := c.table[id].arc;
      assert Bucket(c, d.s, arc.inp, arc.out, id);
    }
  }

  lemma StoredInFront(a: GArc, arcs: seq<GArc>)
    ensures forall id :: Stored([a] + arcs, id) <==> a.id == id || Stored(arcs, id)
  {
    var all := [a] + arcs;
    assert all[0] == a && all[1..] == arcs;
    forall id ensures Stored(all, id) <==> a.id == id || Stored(arcs, id) {
      if Stored(arcs, id) {
        var j :| 0 <= j < |arcs| && arcs[j].id == id;
        assert all[j + 1].id == id;
      }
    }
  }

  /** From an arc of a state at or after n to one before n that is not finished. */
  ghost predicate TouchesOpen(g: seq<seq<GArc>>, n: nat, m: nat, done: set<nat>) {
    exists k, j :: n <= k < |g| && 0 <= j < |g[k]| && g[k][j].dest < m && g[k][j].dest !in done
  }

  datatype Snapshot = Snapshot(g: seq<seq<GArc>>, names: seq<DState>, removed: seq<bool>, idOf: map<DState, nat>, done: set<nat>)

  ghost predicate Good(c: Instance, e: Snapshot) {
    Searching(c, e.g, e.names, e.removed, e.idOf, e.done)
  }

  /** Earlier states are as they were, but for the arcs of src; later ones are finished. */
  ghost predicate Extends(s: Snapshot, e: Snapshot, src: nat) {
    && |s.g| == |s.names| == |s.removed| && |e.g| == |e.names| == |e.removed| && s.names <= e.names
    && (forall k :: 0 <= k < |s.g| ==> e.removed[k] == s.removed[k] && (k != src ==> e.g[k] == s.g[k]))
    && (forall k :: k in e.done <==> k in s.done || |s.g| <= k < |e.g|)
    && (forall d :: d in s.idOf ==> d in e.idOf && e.idOf[d] == s.idOf[d])
  }

  lemma ExtendsTransitive(s: Snapshot, e: Snapshot, e': Snapshot, src: nat, src': nat)
    requires Extends(s, e, src) && Extends(e, e', src') && (src' == src || src' >= |s.g|)
    ensures Extends(s, e', src)
  {}

  /** Between s and e the search met the goal, or linked a state it met to one that was on the stack at s. */
  ghost predicate Hope(c: Instance, s: Snapshot, e: Snapshot) {
    TouchesOpen(e.g, |s.g|, |s.g|, s.done) || (Goal(c) in e.idOf && Goal(c) !in s.idOf)
  }

  // ----- one state -----

  ghost predicate Tried(c: Instance, e: Snapshot, r: nat, d: DState, x: nat, y: nat)
    requires r < |e.g|
  {
    forall id: nat :: Bucket(c, d.s, x, y, id) ==> Covered(c, e.g[r], e.removed, e.idOf, d, id)
  }

  ghost predicate Untried(c: Instance, e: Snapshot, r: nat, d: DState, x: nat, y: nat)
    requires r < |e.g|
  {
    forall id: nat :: Bucket(c, d.s, x, y, id) ==> !Stored(e.g[r], id)
  }

  ghost predicate NothingBelow(g: seq<seq<GArc>>, r: nat)
    requires r <= |g|
  {
    forall k, j :: 0 <= k < r && 0 <= j < |g[k]| ==> g[k][j].dest < r
  }

  /** While r, entered at s, is explored: dead so far exactly if it is not the goal and has no arcs; and r is
    * not dead if there is hope below it. */
  ghost predicate Trying(c: Instance, s: Snapshot, e: Snapshot, r: nat, d: DState, dead: bool) {
    && Good(c, e) && Extends(s, e, r) && |s.g| == r + 1 && r < |e.g| && |e.names| == |e.g| == |e.removed|
    && r !in s.done && r !in e.done && e.names[r] == d && Within(c, d) && d in s.idOf
    && (dead <==> d != Goal(c) && e.g[r] == [])
    && (TouchesOpen(e.g, r + 1, r + 1, s.done) || (Goal(c) in e.idOf && Goal(c) !in s.idOf) ==> !dead)
    && NothingBelow(e.g, r)
  }

  lemma TryingSteps(c: Instance, s: Snapshot, e: Snapshot, e': Snapshot, r: nat, d: DState, dead: bool, reached: bool)
    requires Trying(c, s, e, r, d, dead) && Good(c, e') && Extends(e, e', r) && |e'.names| == |e'.g| && r < |e'.g|
    requires |e'.g[r]| >= |e.g[r]| && (reached <==> |e'.g[r]| > |e.g[r]|) && (Hope(c, e, e') ==> reached)
    ensures Trying(c, s, e', r, d, dead && !reached)
  {
    hide Good;
    ExtendsTransitive(s, e, e', r, r);
    if TouchesOpen(e'.g, r + 1, r + 1, s.done) {
      var k, j :| r + 1 <= k < |e'.g| && 0 <= j < |e'.g[k]| && e'.g[k][j].dest < r + 1 && e'.g[k][j].dest !in s.done;
      if k < |e.g| {
        assert TouchesOpen(e.g, r + 1, r + 1, s.done);
      } else {
        assert TouchesOpen(e'.g, |e.g|, |e.g|, e.done);
      }
    }
    forall k, j | 0 <= k < r && 0 <= j < |e'.g[k]| ensures e'.g[k][j].dest < r {
      assert e'.g[k] == e.g[k];
    }
  }

  lemma TriedSteps(c: Instance, e: Snapshot, e': Snapshot, r: nat, d: DState, x: nat, y: nat)
    requires Good(c, e) && Extends(e, e', r) && r < |e.g| && r < |e'.g| && Tried(c, e, r, d, x, y)
    requires forall id: nat :: Stored(e.g[r], id) ==> Stored(e'.g[r], id)
    ensures Tried(c, e', r, d, x, y)
  {
    hide Searching, Covered, Stored;
    forall id: nat | Bucket(c, d.s, x, y, id) ensures Covered(c, e'.g[r], e'.removed, e'.idOf, d, id) {
      CoveredKeeps(c, e.g[r], e'.g[r], e.removed, e'.removed, e.idOf, e'.idOf, d, id);
    }
  }

  lemma TryingShape(c: Instance, s: Snapshot, e: Snapshot, r: nat, d: DState, dead: bool)
    requires Trying(c, s, e, r, d, dead)
    ensures r < |e.g| == |e.names| == |e.removed| && r !in e.done && e.names[r] == d && Within(c, d)
  {
    hide Good, Extends, TouchesOpen, NothingBelow;
  }

  lemma IndexAt(c: Instance, io: IoIndex, s: nat, x: nat, y: nat)
    requires IndexesUpTo(c, io, |c.table|) && s < c.nStates
    ensures s < |io| && IsIds(c, if (x, y) in io[s] then io[s][(x, y)] else [], |c.table|, s, x, y)
  {
    hide IsIds;
  }

  /** The arcs of a bucket can be taken, and lead where they are said to. */
  lemma BucketFits(c: Instance, e: Snapshot, r: nat, d: DState, x: nat, y: nat, i: nat, o: nat)
    requires r < |e.g| && Untried(c, e, r, d, x, y)
    requires x != EPSILON ==> d.i < |c.ins| && c.ins[d.i] == x
    requires y != EPSILON ==> d.o < |c.outs| && c.outs[d.o] == y
    requires i == (if x == EPSILON then d.i else d.i + 1) && o == (if y == EPSILON then d.o else d.o + 1)
    ensures forall id: nat :: Bucket(c, d.s, x, y, id) ==>
      id < |c.table| && CanTake(c, d, id) && Successor(c, d, id) == DState(i, c.table[id].arc.dest, o) && !Stored(e.g[r], id)
  {
    hide Stored;
  }

  lemma NowTried(c: Instance, e: Snapshot, r: nat, d: DState, x: nat, y: nat)
    requires r < |e.g| && forall id: nat :: Bucket(c, d.s, x, y, id) ==> Covered(c, e.g[r], e.removed, e.idOf, d, id)
    ensures Tried(c, e, r, d, x, y)
  {
    hide Bucket, Covered;
  }

  lemma UntriedSteps(c: Instance, e: Snapshot, e': Snapshot, r: nat, d: DState, x: nat, y: nat, x': nat, y': nat)
    requires r < |e.g| && r < |e'.g| && Untried(c, e, r, d, x', y') && (x', y') != (x, y)
    requires forall id: nat :: Stored(e'.g[r], id) ==> Stored(e.g[r], id) || Bucket(c, d.s, x, y, id)
    ensures Untried(c, e', r, d, x', y')
  {
    hide Stored;
  }

  lemma AllTried(c: Instance, e: Snapshot, r: nat, d: DState)
    requires r < |e.g| && Tried(c, e, r, d, EPSILON, EPSILON)
    requires d.o < |c.outs| ==> Tried(c, e, r, d, EPSILON, c.outs[d.o])
    requires d.i < |c.ins| ==> Tried(c, e, r, d, c.ins[d.i], EPSILON)
    requires d.i < |c.ins| && d.o < |c.outs| ==> Tried(c, e, r, d, c.ins[d.i], c.outs[d.o])
    ensures forall id: nat :: Covered(c, e.g[r], e.removed, e.idOf, d, id)
  {
    hide Covered;
    CoveredByBuckets(c, e.g[r], e.removed, e.idOf, d);
  }

  /** A dead state has no arc to it: it can be marked. */
  lemma Unwanted(c: Instance, s: Snapshot, e: Snapshot, r: nat, d: DState, dead: bool)
    requires Trying(c, s, e, r, d, dead)
    ensures dead ==> forall k, j :: 0 <= k < |e.g| && 0 <= j < |e.g[k]| ==> e.g[k][j].dest != r
  {
    hide Good, Extends;
  }

  ghost function Entered(s: Snapshot, d: DState): Snapshot {
    Snapshot(s.g + [[]], s.names + [d], s.removed + [false], s.idOf[d := |s.g|], s.done)
  }

  ghost function Left(e: Snapshot, r: nat, dead: bool): Snapshot
    requires r < |e.removed|
  {
    e.(removed := e.removed[r := dead], done := e.done + {r})
  }

  lemma EnterTrying(c: Instance, s: Snapshot, d: DState)
    requires Good(c, s) && Within(c, d) && d !in s.idOf
    ensures Trying(c, Entered(s, d), Entered(s, d), |s.g|, d, d != Goal(c))
    ensures forall x: nat, y: nat :: Untried(c, Entered(s, d), |s.g|, d, x, y)
  {
    EnterKeeps(c, s.g, s.names, s.removed, s.idOf, s.done, d);
    ArcsWithin(c, s.g, s.names, s.removed, s.idOf, s.done);
    hide ArcsGood, FinishedGood;
    var e := Entered(s, d);
    forall k, j | 0 <= k < |s.g| && 0 <= j < |e.g[k]| ensures e.g[k][j].dest < |s.g| {
      assert e.g[k] == s.g[k];
    }
  }

  lemma LeaveTrying(c: Instance, s0: Snapshot, e: Snapshot, r: nat, d: DState, dead: bool)
    requires Good(c, s0) && Trying(c, Entered(s0, d), e, r, d, dead) && d !in s0.idOf && |s0.g| == r
    requires forall id: nat :: Covered(c, e.g[r], e.removed, e.idOf, d, id)
    ensures Good(c, Left(e, r, dead)) && Extends(s0, Left(e, r, dead), r)
    ensures Hope(c, s0, Left(e, r, dead)) ==> !dead
  {
    Unwanted(c, Entered(s0, d), e, r, d, dead);
    hide Covered;
    LeaveKeeps(c, e.g, e.names, e.removed, e.idOf, e.done, r, dead);
    LeaveHope(c, s0, e, r, d, dead);
    LeaveExtends(c, s0, e, r, d, dead);
  }

  lemma LeaveExtends(c: Instance, s0: Snapshot, e: Snapshot, r: nat, d: DState, dead: bool)
    requires Good(c, s0) && Trying(c, Entered(s0, d), e, r, d, dead) && d !in s0.idOf && |s0.g| == r
    ensures Extends(s0, Left(e, r, dead), r)
  {
    hide ArcsGood, FinishedGood, NothingBelow, TouchesOpen;
    var s, f := Entered(s0, d), Left(e, r, dead);
    assert s0.names <= s.names <= e.names;
    forall k | 0 <= k < |s0.g| ensures f.removed[k] == s0.removed[k] && f.g[k] == s0.g[k] {
      assert s.removed[k] == s0.removed[k] && s.g[k] == s0.g[k];
    }
  }

  lemma LeaveHope(c: Instance, s0: Snapshot, e: Snapshot, r: nat, d: DState, dead: bool)
    requires Trying(c, Entered(s0, d), e, r, d, dead) && |s0.g| == r < |e.removed|
    ensures Hope(c, s0, Left(e, r, dead)) ==> !dead
  {
    hide Good, Extends;
    var s, f := Entered(s0, d), Left(e, r, dead);
    if TouchesOpen(f.g, r, r, s0.done) {
      var k, j :| r <= k < |f.g| && 0 <= j < |f.g[k]| && f.g[k][j].dest < r && f.g[k][j].dest !in s0.done;
      if k > r { assert TouchesOpen(e.g, r + 1, r + 1, s.done); }
    }
  }

  // ----- the arcs of one bucket -----

  /** Of the bucket ids, those before i are covered; reached if an arc was stored. */
  ghost predicate Adding(c: Instance, s: Snapshot, e: Snapshot, src: nat, d: DState, ids: seq<nat>, i: nat, reached: bool) {
    && Good(c, e) && Extends(s, e, src) && src < |s.g| && src !in s.done && |s.g| <= |e.g| == |e.names| && e.names[src] == d
    && i <= |ids| && NoDuplicates(ids)
    && (forall j :: 0 <= j < i ==> Covered(c, e.g[src], e.removed, e.idOf, d, ids[j]))
    && (forall j :: i <= j < |ids| ==> !Stored(e.g[src], ids[j]))
    && (forall id: nat :: Stored(s.g[src], id) ==> Stored(e.g[src], id))
    && (forall id: nat :: Stored(e.g[src], id) ==> Stored(s.g[src], id) || id in ids)
    && |e.g[src]| >= |s.g[src]| && (reached <==> |e.g[src]| > |s.g[src]|)
    && (Hope(c, s, e) ==> reached)
  }

  lemma HopeSteps(c: Instance, s: Snapshot, e: Snapshot, f: Snapshot, src: nat)
    requires Extends(s, e, src) && src < |s.g| && Extends(e, f, |e.g|)
    ensures Hope(c, s, f) ==> Hope(c, s, e) || Hope(c, e, f)
  {
    if TouchesOpen(f.g, |s.g|, |s.g|, s.done) {
      var k, j :| |s.g| <= k < |f.g| && 0 <= j < |f.g[k]| && f.g[k][j].dest < |s.g| && f.g[k][j].dest !in s.done;
      if k < |e.g| {
        assert TouchesOpen(e.g, |s.g|, |s.g|, s.done);
      } else {
        assert TouchesOpen(f.g, |e.g|, |e.g|, e.done);
      }
    }
  }

  ghost function WithArc(f: Snapshot, src: nat, a: GArc): Snapshot
    requires src < |f.g|
  {
    f.(g := f.g[src := [a] + f.g[src]])
  }

  /** The successor is dead: its arc is not stored. */
  lemma AddingSkips(c: Instance, s: Snapshot, e: Snapshot, f: Snapshot, src: nat, d: DState, ids: seq<nat>, i: nat, reached: bool, child: nat)
    requires Adding(c, s, e, src, d, ids, i, reached) && i < |ids|
    requires Good(c, f) && Extends(e, f, |e.g|) && child < |f.g| == |f.names|
    requires CanTake(c, d, ids[i]) && f.names[child] == Successor(c, d, ids[i])
    requires f.removed[child] && !Hope(c, e, f)
    ensures Adding(c, s, f, src, d, ids, i + 1, reached)
  {
    hide Good, Covered, Extends, Hope, Stored, CanTake, Successor;
    AddingParts(c, s, e, src, d, ids, i, reached);
    ExtendsParts(e, f, |e.g|);
    ExtendsTransitive(s, e, f, src, |e.g|);
    HopeSteps(c, s, e, f, src);
    CoveredStays(c, e, f, f, src, d, ids, i);
    RemovedCovered(c, f, src, d, ids[i], child);
  }

  lemma RemovedCovered(c: Instance, f: Snapshot, src: nat, d: DState, id: nat, child: nat)
    requires Good(c, f) && src < |f.g| && child < |f.names| && child < |f.removed| && f.removed[child]
    requires CanTake(c, d, id) && f.names[child] == Successor(c, d, id)
    ensures Covered(c, f.g[src], f.removed, f.idOf, d, id)
  {
    hide ArcsGood, FinishedGood;
    assert Shape(c, f.g, f.names, f.removed, f.idOf);
  }

  /** The successor is not known to be dead: its arc is stored. */
  lemma AddingStores(c: Instance, s: Snapshot, e: Snapshot, f: Snapshot, src: nat, d: DState, ids: seq<nat>, i: nat, reached: bool, child: nat)
    requires Adding(c, s, e, src, d, ids, i, reached) && i < |ids|
    requires Good(c, f) && Extends(e, f, |e.g|)
    requires CanTake(c, d, ids[i]) && child < |f.g| == |f.names| && f.names[child] == Successor(c, d, ids[i])
    requires !f.removed[child]
    ensures Adding(c, s, WithArc(f, src, GArc(src, child, ids[i])), src, d, ids, i + 1, true)
  {
    hide Good, Covered, Extends, Hope, Stored, CanTake, Successor;
    AddingParts(c, s, e, src, d, ids, i, reached);
    ExtendsParts(e, f, |e.g|);
    ExtendsTransitive(s, e, f, src, |e.g|);
    var a := GArc(src, child, ids[i]);
    StoredInFront(a, f.g[src]);
    GoodAdds(c, f, src, a);
    ExtendsAdds(s, f, src, a);
    CoveredStays(c, e, f, WithArc(f, src, a), src, d, ids, i);
    SuccessorCovered(c, f, src, d, a);
  }

  lemma AddingParts(c: Instance, s: Snapshot, e: Snapshot, src: nat, d: DState, ids: seq<nat>, i: nat, reached: bool)
    requires Adding(c, s, e, src, d, ids, i, reached)
    ensures |e.g| == |e.names| == |e.removed| && src < |s.g| <= |e.g| && src !in e.done && |s.g| == |s.names|
  {
    hide Covered, Stored, Hope, ArcsGood, FinishedGood;
  }

  lemma ExtendsParts(e: Snapshot, f: Snapshot, src: nat)
    requires Extends(e, f, src)
    ensures |e.g| == |e.names| == |e.removed| <= |f.g| == |f.names| == |f.removed| && e.names <= f.names
    ensures forall k :: 0 <= k < |e.g| ==> f.removed[k] == e.removed[k] && (k != src ==> f.g[k] == e.g[k])
    ensures forall k :: 0 <= k < |e.g| ==> (k in f.done <==> k in e.done)
    ensures Grows(e.removed, f.removed, e.idOf, f.idOf)
  {}

  lemma GoodAdds(c: Instance, f: Snapshot, src: nat, a: GArc)
    requires Good(c, f) && src < |f.g| == |f.names| && src !in f.done && a.src == src && a.dest < |f.names| && a.dest < |f.removed|
    requires CanTake(c, f.names[src], a.id) && f.names[a.dest] == Successor(c, f.names[src], a.id)
    requires !f.removed[a.dest] && !Stored(f.g[src], a.id)
    ensures Good(c, WithArc(f, src, a))
  {
    AddKeeps(c, f.g, f.names, f.removed, f.idOf, f.done, src, a);
  }

  lemma ExtendsAdds(s: Snapshot, f: Snapshot, src: nat, a: GArc)
    requires Extends(s, f, src) && src < |f.g|
    ensures Extends(s, WithArc(f, src, a), src)
  {}

  lemma CoveredStays(c: Instance, e: Snapshot, f: Snapshot, f': Snapshot, src: nat, d: DState, ids: seq<nat>, i: nat)
    requires src < |e.g| && src < |f'.g| && f'.removed == f.removed && f'.idOf == f.idOf && i <= |ids|
    requires Grows(e.removed, f.removed, e.idOf, f.idOf) && forall id: nat :: Stored(e.g[src], id) ==> Stored(f'.g[src], id)
    requires forall j :: 0 <= j < i ==> Covered(c, e.g[src], e.removed, e.idOf, d, ids[j])
    ensures forall j :: 0 <= j < i ==> Covered(c, f'.g[src], f'.removed, f'.idOf, d, ids[j])
  {
    hide Covered, Grows, Stored;
    forall j | 0 <= j < i ensures Covered(c, f'.g[src], f'.removed, f'.idOf, d, ids[j]) {
      CoveredKeeps(c, e.g[src], f'.g[src], e.removed, f'.removed, e.idOf, f'.idOf, d, ids[j]);
    }
  }

  lemma SuccessorCovered(c: Instance, f: Snapshot, src: nat, d: DState, a: GArc)
    requires Good(c, f) && src < |f.g| && a.dest < |f.names| && CanTake(c, d, a.id) && f.names[a.dest] == Successor(c, d, a.id)
    ensures Covered(c, [a] + f.g[src], f.removed, f.idOf, d, a.id)
  {
    hide ArcsGood, FinishedGood;
    assert Shape(c, f.g, f.names, f.removed, f.idOf);
    assert ([a] + f.g[src])[0] == a;
  }

  lemma AddingStarts(c: Instance, s: Snapshot, src: nat, d: DState, ids: seq<nat>)
    requires Good(c, s) && src < |s.g| && src !in s.done && s.names[src] == d && NoDuplicates(ids)
    requires forall id :: id in ids ==> !Stored(s.g[src], id)
    ensures Adding(c, s, s, src, d, ids, 0, false)
  {
    hide ArcsGood, FinishedGood, Stored;
    assert Shape(c, s.g, s.names, s.removed, s.idOf);
  }

  lemma AddingEnds(c: Instance, s: Snapshot, e: Snapshot, src: nat, d: DState, ids: seq<nat>, reached: bool)
    requires Adding(c, s, e, src, d, ids, |ids|, reached)
    ensures Extends(s, e, src) && src < |s.g| && src < |e.g| == |e.names| && src !in e.done && e.names[src] == d
    ensures forall id :: id in ids ==> Covered(c, e.g[src], e.removed, e.idOf, d, id)
    ensures forall id: nat :: Stored(s.g[src], id) ==> Stored(e.g[src], id)
    ensures forall id: nat :: Stored(e.g[src], id) ==> Stored(s.g[src], id) || id in ids
    ensures |e.g[src]| >= |s.g[src]| && (reached <==> |e.g[src]| > |s.g[src]|)
    ensures Hope(c, s, e) ==> reached
  {
    hide Good, Covered, Stored, Hope;
    forall id | id in ids ensures Covered(c, e.g[src], e.removed, e.idOf, d, id) {
      var j :| 0 <= j < |ids| && ids[j] == id;
    }
  }

  lemma NothingToAdd(c: Instance, s: Snapshot)
    requires Good(c, s)
    ensures !Hope(c, s, s) && forall src :: Extends(s, s, src)
  {
    hide ArcsGood, FinishedGood;
    assert Shape(c, s.g, s.names, s.removed, s.idOf);
  }

  // ----- the finished search -----

  /** Every state but the start was found by an arc of an earlier one. */
  ghost predicate Discovered(c: Instance, names: seq<DState>) {
    forall k :: 0 <= k < |names| ==> FoundFrom(c, names[..k], names[k])
  }

  ghost predicate FoundFrom(c: Instance, names: seq<DState>, d: DState) {
    (names == [] && d == START) || exists j: nat, id: nat :: j < |names| && CanTake(c, names[j], id) && Successor(c, names[j], id) == d
  }

  lemma DiscoveredSnoc(c: Instance, names: seq<DState>, d: DState)
    requires Discovered(c, names) && FoundFrom(c, names, d)
    ensures Discovered(c, names + [d])
  {
    hide FoundFrom;
    var names' := names + [d];
    forall k | 0 <= k < |names'| ensures FoundFrom(c, names'[..k], names'[k]) {
      assert names'[..k] == names[..k];
    }
  }

  lemma {:induction false} DiscoveredReaches(c: Instance, names: seq<DState>, k: nat, p: seq<nat>) returns (q: seq<nat>)
    requires Discovered(c, names) && k < |names| && Reaches(c, names[k], p)
    ensures Reaches(c, START, q)
    decreases k
  {
    assert FoundFrom(c, names[..k], names[k]);
    if k == 0 {
      q := p;
    } else {
      var j: nat, id: nat :| j < k && CanTake(c, names[..k][j], id) && Successor(c, names[..k][j], id) == names[k];
      assert ([id] + p)[1..] == p;
      q := DiscoveredReaches(c, names, j, [id] + p);
    }
  }

  /** When each state was marked removed: after all its successors were. */
  ghost predicate Timed(c: Instance, names: seq<DState>, removed: seq<bool>, idOf: map<DState, nat>, time: map<nat, nat>) {
    && |names| == |removed|
    && (forall k :: k in time <==> 0 <= k < |removed| && removed[k])
    && (forall k :: k in time ==> time[k] < |time|)
    && forall k, id: nat :: 0 <= k < |removed| && removed[k] && CanTake(c, names[k], id) ==> Before(idOf, time, k, Successor(c, names[k], id))
  }

  ghost predicate Before(idOf: map<DState, nat>, time: map<nat, nat>, k: nat, t: DState) {
    k in time && t in idOf && idOf[t] in time && time[idOf[t]] < time[k]
  }

  lemma TimedEnters(c: Instance, names: seq<DState>, removed: seq<bool>, idOf: map<DState, nat>, time: map<nat, nat>, d: DState)
    requires Timed(c, names, removed, idOf, time) && d !in idOf
    ensures Timed(c, names + [d], removed + [false], idOf[d := |names|], time)
  {
    var names', removed', idOf' := names + [d], removed + [false], idOf[d := |names|];
    forall k, id: nat | 0 <= k < |removed'| && removed'[k] && CanTake(c, names'[k], id) ensures Before(idOf', time, k, Successor(c, names'[k], id)) {
      assert Before(idOf, time, k, Successor(c, names[k], id));
    }
  }

  /** A state is marked: it has no arcs, so that all its successors were marked before. */
  lemma TimedLeaves(c: Instance, e: Snapshot, r: nat, time: map<nat, nat>)
    requires Timed(c, e.names, e.removed, e.idOf, time) && r < |e.g| == |e.removed| && !e.removed[r] && e.g[r] == []
    requires forall id: nat :: Covered(c, e.g[r], e.removed, e.idOf, e.names[r], id)
    ensures Timed(c, e.names, e.removed[r := true], e.idOf, time[r := |time|])
  {
    var time' := time[r := |time|];
    assert r !in time;
    forall k, id: nat | 0 <= k < |e.removed| && (e.removed[k] || k == r) && CanTake(c, e.names[k], id)
      ensures Before(e.idOf, time', k, Successor(c, e.names[k], id))
    {
      if k == r {
        assert Covered(c, e.g[r], e.removed, e.idOf, e.names[r], id);
      } else {
        assert Before(e.idOf, time, k, Successor(c, e.names[k], id));
      }
    }
  }

  ghost predicate Finished(c: Instance, e: Snapshot) {
    && Good(c, e) && Discovered(c, e.names) && |e.g| > 0
    && (forall k :: 0 <= k < |e.g| ==> k in e.done)
    && exists time :: Timed(c, e.names, e.removed, e.idOf, time)
  }

  /** A state marked removed never reaches the goal, whatever cycles there are. */
  lemma {:induction false} RemovedIsHopeless(c: Instance, e: Snapshot, k: nat, p: seq<nat>)
    requires Finished(c, e) && k < |e.removed| && e.removed[k] && k < |e.names|
    ensures !Reaches(c, e.names[k], p)
    decreases |p|
  {
    assert FinishedGood(c, e.g[k], e.removed, e.idOf, e.names[k], e.removed[k]);
    hide ArcsGood, FinishedGood;
    if |p| > 0 && CanTake(c, e.names[k], p[0]) {
      assert Covered(c, e.g[k], e.removed, e.idOf, e.names[k], p[0]);
      RemovedIsHopeless(c, e, e.idOf[Successor(c, e.names[k], p[0])], p[1..]);
    }
  }

  /** The search meets the goal if any path does. */
  lemma {:induction false} GoalIsMet(c: Instance, e: Snapshot, k: nat, p: seq<nat>)
    requires Finished(c, e) && k < |e.names| && Reaches(c, e.names[k], p)
    ensures Goal(c) in e.idOf
    decreases |p|
  {
    assert FinishedGood(c, e.g[k], e.removed, e.idOf, e.names[k], e.removed[k]);
    hide ArcsGood, FinishedGood;
    if |p| > 0 {
      assert Covered(c, e.g[k], e.removed, e.idOf, e.names[k], p[0]);
      GoalIsMet(c, e, e.idOf[Successor(c, e.names[k], p[0])], p[1..]);
    }
  }

  lemma FinishedExact(c: Instance, e: Snapshot)
    requires Finished(c, e) && Goal(c) in e.idOf
    ensures Exact(c, Lattice(e.g, e.names, e.idOf[Goal(c)]))
  {
    assert FoundFrom(c, e.names[..0], e.names[0]);
    var l := Lattice(e.g, e.names, e.idOf[Goal(c)]);
    forall m: nat | m < |l.g| ensures StateGood(c, l, m) {
      assert ArcsGood(c, e.g, e.names, e.removed, m);
      forall id | CanTake(c, l.names[m], id) ensures Stored(l.g[m], id) || Hopeless(c, Successor(c, l.names[m], id)) {
        assert FinishedGood(c, e.g[m], e.removed, e.idOf, e.names[m], e.removed[m]);
        assert Covered(c, e.g[m], e.removed, e.idOf, e.names[m], id);
        if !Stored(l.g[m], id) {
          forall p ensures !Reaches(c, Successor(c, l.names[m], id), p) {
            RemovedIsHopeless(c, e, e.idOf[Successor(c, l.names[m], id)], p);
          }
        }
      }
    }
    StatesGood(c, l);
  }

  /** Arcs end in states never marked removed; a state without arcs that is not the goal is marked. */
  lemma FinishedArcs(c: Instance, e: Snapshot)
    requires Finished(c, e)
    ensures |e.g| == |e.names| == |e.removed|
    ensures ArcsFit(e.g) && forall k, j :: 0 <= k < |e.g| && 0 <= j < |e.g[k]| ==> !e.removed[e.g[k][j].dest]
    ensures forall k :: 0 <= k < |e.g| ==> (e.removed[k] <==> e.g[k] == [] && e.names[k] != Goal(c))
  {
    forall k | 0 <= k < |e.g|
      ensures forall j :: 0 <= j < |e.g[k]| ==> e.g[k][j].src == k && e.g[k][j].dest < |e.g| && !e.removed[e.g[k][j].dest]
      ensures e.removed[k] <==> e.g[k] == [] && e.names[k] != Goal(c)
    {
      assert ArcsGood(c, e.g, e.names, e.removed, k);
      assert FinishedGood(c, e.g[k], e.removed, e.idOf, e.names[k], e.removed[k]);
      hide FinishedGood, Searching;
      forall j | 0 <= j < |e.g[k]| ensures e.g[k][j].src == k && e.g[k][j].dest < |e.g| {
        assert LatticeArcOk(c, e.g, e.names, k, e.g[k][j]);
      }
    }
  }

  /** Along any walk from a removed state, the states were removed earlier and earlier. */
  lemma {:induction false} TimeFalls(c: Instance, e: Snapshot, time: map<nat, nat>, k: nat, p: seq<nat>, t: DState)
    requires Finished(c, e) && Timed(c, e.names, e.removed, e.idOf, time) && k in time && WalkTo(c, e.names[k], p, t)
    ensures t in e.idOf && e.idOf[t] in time && time[e.idOf[t]] + |p| <= time[k]
    decreases |p|
  {
    hide ArcsGood, FinishedGood, Discovered;
    assert Shape(c, e.g, e.names, e.removed, e.idOf);
    if |p| > 0 {
      var next := Successor(c, e.names[k], p[0]);
      assert Before(e.idOf, time, k, next);
      TimeFalls(c, e, time, e.idOf[next], p[1..], t);
    }
  }

  lemma RemovedIsDoomed(c: Instance, e: Snapshot, k: nat)
    requires Finished(c, e) && k < |e.names| && k < |e.removed| && e.removed[k]
    ensures Doomed(c, e.names[k])
  {
    forall p ensures !Reaches(c, e.names[k], p) { RemovedIsHopeless(c, e, k, p); }
    hide Good, Discovered;
    var time :| Timed(c, e.names, e.removed, e.idOf, time);
    if ToCycle(c, e.names[k]) {
      var t :| Leads(c, e.names[k], t) && OnCycle(c, t);
      var p: seq<nat> :| WalkTo(c, e.names[k], p, t);
      var q: seq<nat> :| |q| > 0 && WalkTo(c, t, q, t);
      TimeFalls(c, e, time, k, p, t);
      TimeFalls(c, e, time, e.idOf[t], q, t);
    }
  }

  ghost function Alive(removed: seq<bool>): (r: set<nat>)
    ensures forall k: nat :: k in r <==> k < |removed| && !removed[k]
  {
    if |removed| == 0 then {} else
    Alive(removed[..|removed| - 1]) + if removed[|removed| - 1] then {} else {|removed| - 1}
  }

  lemma AliveGoOn(c: Instance, e: Snapshot)
    requires Finished(c, e)
    ensures GoesOn(c, e.g, e.names, Alive(e.removed))
  {
    FinishedArcs(c, e);
    forall k | k in Alive(e.removed) && e.names[k] != Goal(c) ensures FirstArcIn(c, e.g, e.names, Alive(e.removed), k) {
      assert ArcsGood(c, e.g, e.names, e.removed, k);
    }
  }

  /** Marked is exactly: unable to reach the goal, and unable to reach a cycle. */
  lemma MarksExactly(c: Instance, e: Snapshot, k: nat)
    requires Finished(c, e) && k < |e.names| && k < |e.removed|
    ensures e.removed[k] <==> Hopeless(c, e.names[k]) && !ToCycle(c, e.names[k])
  {
    hide Finished, Hopeless, ToCycle;
    if e.removed[k] {
      RemovedIsDoomed(c, e, k);
    } else {
      AliveGoOn(c, e);
      AliveGoesOn(c, e.g, e.names, Alive(e.removed), [k], []);
    }
  }

  /** So marked is exactly unable to reach the goal, where there are no cycles ahead. */
  lemma AcyclicMarksExactly(c: Instance, e: Snapshot, k: nat)
    requires Finished(c, e) && k < |e.names| && k < |e.removed| && !ToCycle(c, e.names[k])
    ensures e.removed[k] <==> Hopeless(c, e.names[k])
  {
    MarksExactly(c, e, k);
  }

  // ----- which states there are -----

  lemma {:induction false} WalkIsMet(c: Instance, e: Snapshot, k: nat, p: seq<nat>, t: DState)
    requires Finished(c, e) && k < |e.names| && WalkTo(c, e.names[k], p, t)
    ensures t in e.idOf
    decreases |p|
  {
    assert FinishedGood(c, e.g[k], e.removed, e.idOf, e.names[k], e.removed[k]);
    hide ArcsGood, FinishedGood;
    if |p| > 0 {
      assert Covered(c, e.g[k], e.removed, e.idOf, e.names[k], p[0]);
      WalkIsMet(c, e, e.idOf[Successor(c, e.names[k], p[0])], p[1..], t);
    }
  }

  lemma {:induction false} MetIsWalked(c: Instance, names: seq<DState>, k: nat)
    requires Discovered(c, names) && k < |names|
    ensures Leads(c, START, names[k])
    decreases k
  {
    assert FoundFrom(c, names[..k], names[k]);
    if k == 0 {
      assert WalkTo(c, START, [], START);
    } else {
      var j: nat, id: nat :| j < k && CanTake(c, names[..k][j], id) && Successor(c, names[..k][j], id) == names[k];
      MetIsWalked(c, names, j);
      var p: seq<nat> :| WalkTo(c, START, p, names[j]);
      WalkStep(c, names[j], id);
      WalkJoin(c, START, p, names[j], [id], names[k]);
    }
  }

  /** The search meets exactly the states that walks from the start lead to. */
  lemma NamesExact(c: Instance, e: Snapshot)
    requires Finished(c, e) && |e.names| > 0 && e.names[0] == START
    ensures forall d :: d in e.names <==> Leads(c, START, d)
  {
    forall d ensures d in e.names <==> Leads(c, START, d) {
      if d in e.names {
        var k :| 0 <= k < |e.names| && e.names[k] == d;
        MetIsWalked(c, e.names, k);
      }
      if Leads(c, START, d) {
        var p: seq<nat> :| WalkTo(c, START, p, d);
        WalkIsMet(c, e, 0, p, d);
        Known(c, e, d);
      }
    }
  }

  lemma GoodLengths(c: Instance, e: Snapshot)
    requires Good(c, e)
    ensures |e.g| == |e.names| == |e.removed|
  {
    hide ArcsGood, FinishedGood;
  }

  lemma OpenIsUnmarked(c: Instance, e: Snapshot, r: nat)
    requires Good(c, e) && r < |e.removed| && r !in e.done
    ensures !e.removed[r]
  {
    hide ArcsGood, FinishedGood;
  }

  lemma EnterGood(c: Instance, s: Snapshot, d: DState)
    requires Good(c, s) && Discovered(c, s.names) && Within(c, d) && d !in s.idOf && FoundFrom(c, s.names, d)
    ensures Good(c, Entered(s, d)) && Discovered(c, Entered(s, d).names) && |s.g| == |s.names| == |s.removed|
  {
    hide FoundFrom, Discovered;
    EnterKeeps(c, s.g, s.names, s.removed, s.idOf, s.done, d);
    DiscoveredSnoc(c, s.names, d);
    hide ArcsGood, FinishedGood;
    assert Shape(c, s.g, s.names, s.removed, s.idOf);
  }

  lemma Known(c: Instance, s: Snapshot, d: DState)
    requires Good(c, s) && d in s.idOf
    ensures s.idOf[d] < |s.g| == |s.names| == |s.removed| && s.names[s.idOf[d]] == d
    ensures !Hope(c, s, s) && Extends(s, s, |s.g|)
  {
    NothingToAdd(c, s);
    hide ArcsGood, FinishedGood, Hope, Extends;
    assert Shape(c, s.g, s.names, s.removed, s.idOf);
  }

  lemma ComputeStarts(c: Instance, s: Snapshot, e: Snapshot, start: nat, time: map<nat, nat>)
    requires Timed(c, e.names, e.removed, e.idOf, time)
    requires s == Snapshot([], [], [], map[], {}) && Good(c, e) && Discovered(c, e.names) && Extends(s, e, 0)
    requires start < |e.g| == |e.names| == |e.removed| && e.names[start] == START
    ensures start == 0 && Finished(c, e)
  {
    hide ArcsGood, FinishedGood, Timed;
    FirstIsStart(c, e.names);
    hide Discovered;
    assert Shape(c, e.g, e.names, e.removed, e.idOf);
    assert e.idOf[e.names[0]] == 0;
  }

  lemma SearchStarts(c: Instance, s: Snapshot)
    requires Proper(c) && s == Snapshot([], [], [], map[], {})
    ensures Good(c, s) && Discovered(c, s.names) && Timed(c, s.names, s.removed, s.idOf, map[]) && Within(c, START) && FoundFrom(c, s.names, START)
  {}

  lemma FirstIsStart(c: Instance, names: seq<DState>)
    requires Discovered(c, names) && |names| > 0
    ensures names[0] == START
  {
    assert FoundFrom(c, names[..0], names[0]);
  }

  lemma ComputeEnds(c: Instance, s: Snapshot, e: Snapshot, start: nat, time: map<nat, nat>)
    requires Timed(c, e.names, e.removed, e.idOf, time)
    requires s == Snapshot([], [], [], map[], {}) && Good(c, e) && Discovered(c, e.names) && Extends(s, e, 0)
    requires start < |e.g| == |e.names| == |e.removed| && e.names[start] == START && (Hope(c, s, e) ==> !e.removed[start])
    ensures start == 0 && Finished(c, e)
    ensures Goal(c) in e.idOf <==> exists p :: Reaches(c, START, p)
    ensures Goal(c) in e.idOf ==> !e.removed[0] && Exact(c, Lattice(e.g, e.names, e.idOf[Goal(c)]))
    ensures forall d :: d in e.names <==> Leads(c, START, d)
  {
    hide Discovered, Good, Extends, Timed, Finished, Leads;
    ComputeStarts(c, s, e, start, time);
    hide Hope;
    GoalIsReached(c, e);
    NamesExact(c, e);
    if Goal(c) in e.idOf { FinishedExact(c, e); }
  }

  lemma GoalIsReached(c: Instance, e: Snapshot)
    requires Finished(c, e) && |e.names| > 0 && e.names[0] == START
    ensures Goal(c) in e.idOf <==> exists p :: Reaches(c, START, p)
  {
    hide Good, Discovered;
    if exists p :: Reaches(c, START, p) {
      var p :| Reaches(c, START, p);
      GoalIsMet(c, e, 0, p);
    }
    if Goal(c) in e.idOf {
      Known(c, e, Goal(c));
      assert Reaches(c, Goal(c), []);
      var p := DiscoveredReaches(c, e.names, e.idOf[Goal(c)], []);
    }
  }

  lemma GoalNumbered(c: Instance, e: Snapshot)
    requires Finished(c, e) && Goal(c) in e.idOf
    ensures e.idOf[Goal(c)] < |e.names| == |e.removed| && e.names[e.idOf[Goal(c)]] == Goal(c) && !e.removed[e.idOf[Goal(c)]]
  {
    FinishedArcs(c, e);
    Known(c, e, Goal(c));
  }

  lemma KeptExactly(c: Instance, e: Snapshot)
    requires Finished(c, e) && |e.names| == |e.removed|
    ensures forall d :: d in KeptNames(e.names, e.removed, |e.removed|) <==> d in e.names && !Doomed(c, d)
  {
    forall k | 0 <= k < |e.names| ensures e.removed[k] <==> Doomed(c, e.names[k]) { MarksExactly(c, e, k); }
    hide Finished, Doomed;
    KeptMembers(e.names, e.removed, |e.removed|);
  }

  lemma {:induction false} KeptMembers(names: seq<DState>, removed: seq<bool>, n: nat)
    requires n <= |names| == |removed|
    ensures forall d :: d in KeptNames(names, removed, n) <==> exists k :: 0 <= k < n && names[k] == d && !removed[k]
  {
    if n > 0 { KeptMembers(names, removed, n - 1); }
  }

  ghost function UnexploredBy(c: Instance, idOf: map<DState, nat>): set<DState> {
    (set i, s, o | 0 <= i <= |c.ins| && 0 <= s < c.nStates && 0 <= o <= |c.outs| :: DState(i, s, o)) - idOf.Keys
  }

  lemma FewerUnexplored(c: Instance, idOf: map<DState, nat>, d: DState, r: nat)
    requires Within(c, d) && d !in idOf
    ensures UnexploredBy(c, idOf[d := r]) < UnexploredBy(c, idOf)
  {
    assert d in UnexploredBy(c, idOf);
  }

  class Derivation {
    const c: Instance
    const io: IoIndex
    var g: seq<seq<GArc>>
    var idOf: map<DState, nat>
    var removed: seq<bool>
    var fin: nat
    ghost var names: seq<DState>
    /** The states whose exploration is over; the others are still on the stack. */
    ghost var done: set<nat>
    /** The order in which states were marked removed. */
    ghost var time: map<nat, nat>

    constructor (c: Instance, io: IoIndex)
      ensures this.c == c && this.io == io && g == [] && idOf == map[] && removed == [] && names == [] && done == {} && time == map[]
    {
      this.c, this.io := c, io;
      g, idOf, removed, fin := [], map[], [], 0;
      names, done, time := [], {}, map[];
    }

    ghost function Snap(): Snapshot
      reads this
    {
      Snapshot(g, names, removed, idOf, done)
    }

    ghost predicate Inv()
      reads this
    {
      Proper(c) && IndexesUpTo(c, io, |c.table|) && Good(c, Snap()) && Discovered(c, names) && Timed(c, names, removed, idOf, time)
    }

    ghost function Unexplored(): set<DState>
      reads this
    {
      UnexploredBy(c, idOf)
    }

    method Derive(d: DState) returns (r: nat)
      requires Inv() && Within(c, d) && FoundFrom(c, names, d)
      modifies this
      ensures Inv() && Extends(old(Snap()), Snap(), |old(g)|) && Unexplored() <= old(Unexplored())
      ensures r < |g| == |names| == |removed| && names[r] == d
      ensures Hope(c, old(Snap()), Snap()) ==> !removed[r]
      decreases Unexplored(), 0
    {
      hide FoundFrom, Discovered, IndexesUpTo, Good, Extends, Hope, Timed, Proper;
      if d in idOf {
        r := idOf[d];
        Known(c, Snap(), d);
        return;
      }
      ghost var s0 := Snap();
      EnterTrying(c, s0, d);
      r := Enter(d);
      hide Goal, Bucket, Covered, TouchesOpen, NothingBelow;
      ghost var s := Snap();
      var dead := Explore(r, d, s);
      LeaveTrying(c, s0, Snap(), r, d, dead);
      OpenIsUnmarked(c, Snap(), r);
      if dead {
        TimedLeaves(c, Snap(), r, time);
        time := time[r := |time|];
      } else {
        assert removed[r := dead] == removed;
      }
      removed := removed[r := dead];
      done := done + {r};
    }

    /** The arcs that read and write nothing, write only, read only, read and write. */
    method Explore(r: nat, d: DState, ghost s: Snapshot) returns (dead: bool)
      requires Inv() && s == Snap() && Trying(c, s, s, r, d, d != Goal(c))
      requires forall x: nat, y: nat :: Untried(c, s, r, d, x, y)
      modifies this
      ensures Inv() && Trying(c, s, Snap(), r, d, dead) && Unexplored() <= old(Unexplored())
      ensures forall id: nat :: Covered(c, g[r], removed, idOf, d, id)
      decreases Unexplored(), 4
    {
      hide Good, Goal, IndexesUpTo, Bucket, Extends, Tried, Untried, Hope, Covered, TouchesOpen, NothingBelow, Discovered, Timed;
      dead := d != Goal(c);
      dead := TryArcs(EPSILON, EPSILON, d.i, d.o, r, d, dead, s);
      var useO, useI := d.o < |c.outs|, d.i < |c.ins|;
      var o1, i1 := d.o + 1, d.i + 1;
      if useO {
        dead := TryArcs(EPSILON, c.outs[d.o], d.i, o1, r, d, dead, s);
      }
      if useI {
        var si := c.ins[d.i];
        dead := TryArcs(si, EPSILON, i1, d.o, r, d, dead, s);
        if useO {
          dead := TryArcs(si, c.outs[d.o], i1, o1, r, d, dead, s);
        }
      }
      AllTried(c, Snap(), r, d);
    }

    /** if (add_arcs(...)) dead = false. */
    method TryArcs(sIn: nat, sOut: nat, iIn: nat, iOut: nat, r: nat, d: DState, dead: bool, ghost s: Snapshot) returns (dead': bool)
      requires Inv() && Trying(c, s, Snap(), r, d, dead) && Untried(c, Snap(), r, d, sIn, sOut)
      requires sIn != EPSILON ==> d.i < |c.ins| && c.ins[d.i] == sIn
      requires sOut != EPSILON ==> d.o < |c.outs| && c.outs[d.o] == sOut
      requires iIn == (if sIn == EPSILON then d.i else d.i + 1) && iOut == (if sOut == EPSILON then d.o else d.o + 1)
      modifies this
      ensures Inv() && Trying(c, s, Snap(), r, d, dead') && Unexplored() <= old(Unexplored()) && Tried(c, Snap(), r, d, sIn, sOut)
      ensures forall x: nat, y: nat :: Tried(c, old(Snap()), r, d, x, y) ==> Tried(c, Snap(), r, d, x, y)
      ensures forall x: nat, y: nat :: (x, y) != (sIn, sOut) && Untried(c, old(Snap()), r, d, x, y) ==> Untried(c, Snap(), r, d, x, y)
      decreases Unexplored(), 3
    {
      hide Good, Goal, IndexesUpTo, Extends, NothingBelow, Covered, Hope, Proper, Discovered, Timed, Bucket, CanTake, Successor, Tried, Untried, Stored, IsIds, TouchesOpen;
      dead' := dead;
      ghost var e := Snap();
      TryingShape(c, s, e, r, d, dead);
      IndexAt(c, io, d.s, sIn, sOut);
      BucketFits(c, e, r, d, sIn, sOut, iIn, iOut);
      var reached := AddArcs(sIn, sOut, iIn, iOut, io[d.s], r, d);
      TryingSteps(c, s, e, Snap(), r, d, dead, reached);
      NowTried(c, Snap(), r, d, sIn, sOut);
      forall x: nat, y: nat | Tried(c, e, r, d, x, y) ensures Tried(c, Snap(), r, d, x, y) {
        TriedSteps(c, e, Snap(), r, d, x, y);
      }
      forall x: nat, y: nat | (x, y) != (sIn, sOut) && Untried(c, e, r, d, x, y) ensures Untried(c, Snap(), r, d, x, y) {
        UntriedSteps(c, e, Snap(), r, d, sIn, sOut, x, y);
      }
      if reached { dead' := false; }
    }

    method AddArcs(sIn: nat, sOut: nat, iIn: nat, iOut: nat, fs: map<(nat, nat), seq<nat>>, src: nat, ghost d: DState)
      returns (reached: bool)
      requires Inv() && src < |g| == |names| && src !in done && names[src] == d && Within(c, d)
      requires IsIds(c, if (sIn, sOut) in fs then fs[(sIn, sOut)] else [], |c.table|, d.s, sIn, sOut)
      requires forall id: nat :: Bucket(c, d.s, sIn, sOut, id) ==>
        && CanTake(c, d, id) && Successor(c, d, id) == DState(iIn, c.table[id].arc.dest, iOut)
        && !Stored(g[src], id)
      modifies this
      ensures Inv() && Extends(old(Snap()), Snap(), src) && Unexplored() <= old(Unexplored())
      ensures src < |g| == |names| && src !in done && names[src] == d
      ensures forall id: nat :: Bucket(c, d.s, sIn, sOut, id) ==> Covered(c, g[src], removed, idOf, d, id)
      ensures forall id: nat :: Stored(old(g)[src], id) ==> Stored(g[src], id)
      ensures forall id: nat :: Stored(g[src], id) ==> Stored(old(g)[src], id) || Bucket(c, d.s, sIn, sOut, id)
      ensures |g[src]| >= |old(g)[src]| && (reached <==> |g[src]| > |old(g)[src]|)
      ensures Hope(c, old(Snap()), Snap()) ==> reached
      decreases Unexplored(), 2
    {
      reached := false;
      ghost var s := Snap();
      hide Good, Extends, Hope, Covered, Stored, IndexesUpTo, Adding, CanTake, Successor, Timed;
      if (sIn, sOut) in fs {
        var ids := fs[(sIn, sOut)];
        AddingStarts(c, s, src, d, ids);
        for i := 0 to |ids|
          invariant Inv() && Adding(c, s, Snap(), src, d, ids, i, reached)
          invariant Unexplored() <= old(Unexplored())
        {
          assert Bucket(c, d.s, sIn, sOut, ids[i]);
          reached := AddArc(ids, i, iIn, iOut, src, d, s, reached);
        }
        AddingEnds(c, s, Snap(), src, d, ids, reached);
      } else {
        NothingToAdd(c, s);
      }
    }

    method AddArc(ids: seq<nat>, i: nat, iIn: nat, iOut: nat, src: nat, ghost d: DState, ghost s: Snapshot, reached: bool)
      returns (reached': bool)
      requires Inv() && i < |ids| && Adding(c, s, Snap(), src, d, ids, i, reached)
      requires Within(c, d) && CanTake(c, d, ids[i]) && Successor(c, d, ids[i]) == DState(iIn, c.table[ids[i]].arc.dest, iOut)
      modifies this
      ensures Inv() && Adding(c, s, Snap(), src, d, ids, i + 1, reached') && Unexplored() <= old(Unexplored())
      decreases Unexplored(), 1
    {
      hide Good, Extends, Hope, Covered, Stored, IndexesUpTo, NoDuplicates, Timed;
      reached' := reached;
      ghost var e := Snap();
      var id := ids[i];
      assert names[src] == d && FoundFrom(c, names, Successor(c, d, id));
      hide FoundFrom, Discovered;
      var child := Derive(DState(iIn, c.table[id].arc.dest, iOut));
      ghost var f := Snap();
      if !removed[child] {
        AddingStores(c, s, e, f, src, d, ids, i, reached, child);
        g := g[src := [GArc(src, child, id)] + g[src]];
        reached' := true;
      } else {
        AddingSkips(c, s, e, f, src, d, ids, i, reached, child);
      }
    }

    method Enter(d: DState) returns (r: nat)
      requires Inv() && Within(c, d) && d !in idOf && FoundFrom(c, names, d)
      modifies this
      ensures Inv() && r == |old(g)| && Snap() == Entered(old(Snap()), d) && Unexplored() < old(Unexplored())
    {
      hide FoundFrom, Discovered, Good, IndexesUpTo, Proper, UnexploredBy, Within, Timed;
      r := |g|;
      GoodLengths(c, Snap());
      TimedEnters(c, names, removed, idOf, time, d);
      EnterGood(c, Snap(), d);
      FewerUnexplored(c, idOf, d, r);
      idOf := idOf[d := r];
      g, removed := g + [[]], removed + [false];
      names := names + [d];
    }

    /** derivations::compute: search from the start, then prune. */
    method Compute(doPrune: bool) returns (reachable: bool)
      requires Proper(c) && IndexesUpTo(c, io, |c.table|)
      requires g == [] && idOf == map[] && removed == [] && names == [] && done == {} && time == map[]
      modifies this
      ensures reachable <==> exists p :: Reaches(c, START, p)
      ensures reachable ==> Exact(c, Lattice(g, names, fin))
      ensures reachable ==> forall d :: d in names <==> Leads(c, START, d) && (doPrune ==> !Doomed(c, d))
      ensures reachable && doPrune ==> |names| == |g| && forall k :: 0 <= k < |g| && g[k] == [] ==> names[k] == Goal(c)
      ensures !reachable ==> g == []
    {
      hide *;
      reachable := Search();
      if reachable {
        if doPrune { Prune(); }
      } else {
        g, names := [], [];
      }
      idOf := map[];
    }

    /** The search, and whether it met the goal. */
    method Search() returns (reachable: bool)
      requires Proper(c) && IndexesUpTo(c, io, |c.table|)
      requires g == [] && idOf == map[] && removed == [] && names == [] && done == {} && time == map[]
      modifies this
      ensures reachable <==> exists p :: Reaches(c, START, p)
      ensures reachable ==> Finished(c, Snap()) && Goal(c) in idOf && fin == idOf[Goal(c)] && |removed| > 0 && !removed[0]
      ensures reachable ==> Exact(c, Lattice(g, names, fin)) && forall d :: d in names <==> Leads(c, START, d)
    {
      hide Good, Discovered, Exact, Reaches, Leads, Timed, Finished, IndexesUpTo, Hope, Extends;
      var goal := DState(|c.ins|, c.final, |c.outs|);
      ghost var s := Snap();
      SearchStarts(c, s);
      var start := Derive(START);
      ComputeEnds(c, s, Snap(), start, time);
      reachable := goal in idOf;
      if reachable { fin := idOf[goal]; }
    }

    /** derivations::prune */
    method Prune()
      requires Finished(c, Snap()) && Goal(c) in idOf && fin == idOf[Goal(c)] && |removed| > 0 && !removed[0]
      requires Exact(c, Lattice(g, names, fin))
      modifies this`g, this`names, this`removed, this`fin
      ensures Exact(c, Lattice(g, names, fin))
      ensures |names| == |g| && forall k :: 0 <= k < |g| && g[k] == [] ==> names[k] == Goal(c)
      ensures forall d :: d in names <==> d in old(names) && !Doomed(c, d)
    {
      hide Exact, Doomed, Good, Discovered, Timed, ArcsFit;
      FinishedArcs(c, Snap());
      GoalNumbered(c, Snap());
      KeptExactly(c, Snap());
      ghost var l := Lattice(g, names, fin);
      hide Finished;
      var t, kept := NewIndices(removed);
      assert t[fin] == NewIndex(removed, fin);
      fin := t[fin];
      g := ShuffleRemoving(removed, g, t);
      names := KeptNames(names, removed, |removed|);
      PrunedExact(c, l, removed, t, Lattice(g, names, fin));
      PrunedArcs(c, l, removed, t, Lattice(g, names, fin));
      removed := [];
    }
  }

  // ----- what pruning by the marks leaves -----

  /** Pruned, the lattice has only states that reach the goal, exactly if no state that is met and cannot reach it leads to a
    * cycle. */
  lemma TightExactly(c: Instance, names: seq<DState>)
    requires forall d :: d in names <==> Leads(c, START, d) && !Doomed(c, d)
    ensures (forall d :: d in names ==> !Hopeless(c, d)) <==> forall d :: Leads(c, START, d) && Hopeless(c, d) ==> !ToCycle(c, d)
  {
    hide Leads, Hopeless, ToCycle;
    if forall d :: d in names ==> !Hopeless(c, d) {
      forall d | Leads(c, START, d) && Hopeless(c, d) ensures !ToCycle(c, d) { assert d !in names; }
    }
  }

  function EmptyArc(dest: nat): Arc { Arc(EPSILON, EPSILON, dest, 1.0, NO_GROUP, 0) }

  /** State 1 goes round for ever, state 2 is the goal; nothing is read or written. */
  const DEAD_LOOP: Instance :=
    Instance([TableArc(0, EmptyArc(1)), TableArc(1, EmptyArc(1)), TableArc(0, EmptyArc(2))], 3, 2, [], [])

  const LOOPING: DState := DState(0, 1, 0)

  /** compute keeps the loop: its state is on the stack when its arc to itself is tried. */
  method DeadLoopStays() returns (reachable: bool, ghost names: seq<DState>)
    ensures reachable && LOOPING in names && Hopeless(DEAD_LOOP, LOOPING)
  {
    hide Exact, IndexesUpTo, Doomed;
    var io := BuildIndex(DEAD_LOOP);
    var v := new Derivation(DEAD_LOOP, io);
    reachable := v.Compute(true);
    names := v.names;
    LoopingFacts();
  }

  lemma LoopingFacts()
    ensures exists p :: Reaches(DEAD_LOOP, START, p)
    ensures Hopeless(DEAD_LOOP, LOOPING) && Leads(DEAD_LOOP, START, LOOPING) && !Doomed(DEAD_LOOP, LOOPING)
  {
    assert [2][1..] == [] && Successor(DEAD_LOOP, START, 2) == Goal(DEAD_LOOP);
    assert Reaches(DEAD_LOOP, START, [2]);
    forall p ensures !Reaches(DEAD_LOOP, LOOPING, p) { StuckInLoop(p); }
    WalkStep(DEAD_LOOP, START, 0);
    assert Successor(DEAD_LOOP, START, 0) == LOOPING && Successor(DEAD_LOOP, LOOPING, 1) == LOOPING;
    WalkStep(DEAD_LOOP, LOOPING, 1);
    assert WalkTo(DEAD_LOOP, LOOPING, [], LOOPING);
    assert Leads(DEAD_LOOP, LOOPING, LOOPING) && OnCycle(DEAD_LOOP, LOOPING);
  }

  lemma {:induction false} StuckInLoop(p: seq<nat>)
    ensures !Reaches(DEAD_LOOP, LOOPING, p)
    decreases |p|
  {
    if |p| > 0 && CanTake(DEAD_LOOP, LOOPING, p[0]) { StuckInLoop(p[1..]); }
  }
}
