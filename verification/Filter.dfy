/** The graph that composition explores, before any worklist: its states (keys), the moves enabled in each,
  * and what the epsilon filters promise about sequences of moves (runs). */
module Filter {
  import opened Transducer
  import opened Weights

  /** Trio is (state of a, state of b, filter state); Mediate is the state between the two halves of a
    * matched pair of arcs in the -a mode; Sink is the final state that joins several filter finals. */
  datatype Key = Trio(qa: nat, qb: nat, filter: nat) | Mediate(dest: nat, source: nat, letter: nat) | Sink

  /** Take arc i of a's state, arc j of b's state, both, or leave a filter final for the sink. */
  datatype Move = L(i: nat) | R(j: nat) | LR(i: nat, j: nat) | Stop

  /** `groups` chooses the 2-state filter of the -a mode, `merged` says that a sink was added. */
  datatype Problem = Problem(groups: bool, merged: bool, a: Wfst, b: Wfst)

  ghost predicate Ok(c: Problem) {
    Valid(c.a) && Valid(c.b)
  }

  ghost predicate KeyOk(c: Problem, key: Key)
    requires Ok(c)
  {
    match key
    case Trio(qa, qb, f) => qa < |c.a.states| && qb < |c.b.states| && f < (if c.groups then 2 else 3)
    case Mediate(d, s, x) => c.groups && d < |c.a.states| && s < |c.b.states| && 0 < x < |c.a.outs|
    case Sink => c.merged
  }

  /** A's non-empty output symbol x is spelled as b's input symbol y. */
  ghost predicate Same(c: Problem, x: nat, y: nat)
    requires Ok(c)
  {
    0 < x < |c.a.outs| && y < |c.b.ins| && c.a.outs[x] == c.b.ins[y]
  }

  ghost predicate Final(c: Problem, key: Key) {
    key.Trio? && key.qa == c.a.final && key.qb == c.b.final
  }

  ghost predicate Enabled(c: Problem, key: Key, m: Move)
    requires Ok(c) && KeyOk(c, key)
  {
    match key
    case Sink => false
    case Mediate(d, s, x) => m.R? && m.j < |c.b.states[s]| && Same(c, x, c.b.states[s][m.j].inp)
    case Trio(qa, qb, f) =>
      var la, rb := c.a.states[qa], c.b.states[qb];
      match m
      case Stop => c.merged && Final(c, key)
      case L(i) =>
        && i < |la|
        && (la[i].out == EPSILON ==> if c.groups then f == 0 else f != 2)
        && (la[i].out != EPSILON ==> c.groups && exists j :: 0 <= j < |rb| && Same(c, la[i].out, rb[j].inp))
      case R(j) => j < |rb| && rb[j].inp == EPSILON && (c.groups || f != 1)
      case LR(i, j) =>
        && !c.groups && i < |la| && j < |rb|
        && (la[i].out == EPSILON ==> rb[j].inp == EPSILON && f == 0)
        && (la[i].out != EPSILON ==> Same(c, la[i].out, rb[j].inp))
  }

  ghost function Target(c: Problem, key: Key, m: Move): (r: Key)
    requires Ok(c) && KeyOk(c, key) && Enabled(c, key, m)
    ensures KeyOk(c, r)
  {
    match key
    case Mediate(d, s, x) => Trio(d, c.b.states[s][m.j].dest, 0)
    case Trio(qa, qb, f) =>
      match m
      case Stop => Sink
      case L(i) =>
        var la := c.a.states[qa][i];
        if la.out != EPSILON then Mediate(la.dest, qb, la.out)
        else Trio(la.dest, qb, if c.groups then 0 else 1)
      case R(j) => Trio(qa, c.b.states[qb][j].dest, if c.groups then 1 else 2)
      case LR(i, j) => Trio(c.a.states[qa][i].dest, c.b.states[qb][j].dest, 0)
  }

  ghost function QA(c: Problem, key: Key): nat {
    match key case Trio(qa, _, _) => qa case Mediate(d, _, _) => d case Sink => c.a.final
  }

  ghost function QB(c: Problem, key: Key): nat {
    match key case Trio(_, qb, _) => qb case Mediate(_, s, _) => s case Sink => c.b.final
  }

  /** The arc of a, or of b, that a move takes from a key. */
  ghost function ArcA(c: Problem, key: Key, m: Move): Arc
    requires Ok(c) && KeyOk(c, key) && Enabled(c, key, m) && (m.L? || m.LR?)
  {
    c.a.states[QA(c, key)][m.i]
  }

  ghost function ArcB(c: Problem, key: Key, m: Move): Arc
    requires Ok(c) && KeyOk(c, key) && Enabled(c, key, m) && (m.R? || m.LR?)
  {
    c.b.states[QB(c, key)][m.j]
  }

  /** The labels and the weight of the composed arc: what a reads, what b writes, the product. */
  ghost function MoveIn(c: Problem, key: Key, m: Move): (r: nat)
    requires Ok(c) && KeyOk(c, key) && Enabled(c, key, m)
    ensures r < |c.a.ins|
  {
    if m.L? || m.LR? then ArcA(c, key, m).inp else EPSILON
  }

  ghost function MoveOut(c: Problem, key: Key, m: Move): (r: nat)
    requires Ok(c) && KeyOk(c, key) && Enabled(c, key, m)
    ensures r < |c.b.outs|
  {
    if m.R? || m.LR? then ArcB(c, key, m).out else EPSILON
  }

  ghost function MoveWeight(c: Problem, key: Key, m: Move): real
    requires Ok(c) && KeyOk(c, key) && Enabled(c, key, m)
  {
    match m
    case L(_) => ArcA(c, key, m).weight
    case R(_) => ArcB(c, key, m).weight
    case LR(_, _) => Mul(ArcA(c, key, m).weight, ArcB(c, key, m).weight)
    case Stop => 1.0
  }

  // ----- runs -----

  ghost predicate IsRun(c: Problem, key: Key, ms: seq<Move>)
    requires Ok(c) && KeyOk(c, key)
    decreases |ms|
  {
    |ms| == 0 || (Enabled(c, key, ms[0]) && IsRun(c, Target(c, key, ms[0]), ms[1..]))
  }

  ghost function RunEnd(c: Problem, key: Key, ms: seq<Move>): (r: Key)
    requires Ok(c) && KeyOk(c, key) && IsRun(c, key, ms)
    ensures KeyOk(c, r)
    decreases |ms|
  {
    if |ms| == 0 then key else RunEnd(c, Target(c, key, ms[0]), ms[1..])
  }

  ghost function RunIn(c: Problem, key: Key, ms: seq<Move>): seq<string>
    requires Ok(c) && KeyOk(c, key) && IsRun(c, key, ms)
    decreases |ms|
  {
    if |ms| == 0 then [] else
    Emit(c.a.ins, MoveIn(c, key, ms[0])) + RunIn(c, Target(c, key, ms[0]), ms[1..])
  }

  ghost function RunOut(c: Problem, key: Key, ms: seq<Move>): seq<string>
    requires Ok(c) && KeyOk(c, key) && IsRun(c, key, ms)
    decreases |ms|
  {
    if |ms| == 0 then [] else
    Emit(c.b.outs, MoveOut(c, key, ms[0])) + RunOut(c, Target(c, key, ms[0]), ms[1..])
  }

  ghost function RunFactors(c: Problem, key: Key, ms: seq<Move>): seq<real>
    requires Ok(c) && KeyOk(c, key) && IsRun(c, key, ms)
    decreases |ms|
  {
    if |ms| == 0 then [] else
    [MoveWeight(c, key, ms[0])] + RunFactors(c, Target(c, key, ms[0]), ms[1..])
  }

  /** The arcs of a, and of b, taken along a run. */
  ghost function ProjA(ms: seq<Move>): seq<nat> {
    if |ms| == 0 then [] else AddA(ms[0], ProjA(ms[1..]))
  }

  ghost function ProjB(ms: seq<Move>): seq<nat> {
    if |ms| == 0 then [] else AddB(ms[0], ProjB(ms[1..]))
  }

  ghost function AddA(m: Move, pa: seq<nat>): seq<nat> {
    if m.L? || m.LR? then [m.i] + pa else pa
  }

  ghost function AddB(m: Move, pb: seq<nat>): seq<nat> {
    if m.R? || m.LR? then [m.j] + pb else pb
  }

  /** Where an accepting run ends: in the sink if there is one, else in a filter final. */
  ghost predicate Accepts(c: Problem, key: Key) {
    if c.merged then key.Sink? else Final(c, key)
  }

  ghost predicate AcceptingRun(c: Problem, key: Key, ms: seq<Move>)
    requires Ok(c) && KeyOk(c, key)
  {
    IsRun(c, key, ms) && Accepts(c, RunEnd(c, key, ms))
  }

  // ----- a run projects to a matching pair of paths -----

  /** What a has written and b has not read yet. */
  ghost function Pending(c: Problem, key: Key): seq<string>
    requires Ok(c) && KeyOk(c, key)
  {
    if key.Mediate? then [c.a.outs[key.letter]] else []
  }

  /** What a writes, and what b reads, on one move. */
  ghost function WrittenA(c: Problem, key: Key, m: Move): seq<string>
    requires Ok(c) && KeyOk(c, key) && Enabled(c, key, m)
  {
    if m.L? || m.LR? then Emit(c.a.outs, ArcA(c, key, m).out) else []
  }

  ghost function ReadB(c: Problem, key: Key, m: Move): seq<string>
    requires Ok(c) && KeyOk(c, key) && Enabled(c, key, m)
  {
    if m.R? || m.LR? then Emit(c.b.ins, ArcB(c, key, m).inp) else []
  }

  ghost function FactorA(c: Problem, key: Key, m: Move): seq<real>
    requires Ok(c) && KeyOk(c, key) && Enabled(c, key, m)
  {
    if m.L? || m.LR? then [ArcA(c, key, m).weight] else []
  }

  ghost function FactorB(c: Problem, key: Key, m: Move): seq<real>
    requires Ok(c) && KeyOk(c, key) && Enabled(c, key, m)
  {
    if m.R? || m.LR? then [ArcB(c, key, m).weight] else []
  }

  /** One move in front of a path of a. */
  lemma AdvanceA(c: Problem, key: Key, m: Move, pa: seq<nat>)
    requires Ok(c) && KeyOk(c, key) && Enabled(c, key, m)
    requires IsPath(c.a, QA(c, Target(c, key, m)), pa)
    ensures var q, k' := QA(c, key), Target(c, key, m);
      && IsPath(c.a, q, AddA(m, pa))
      && End(c.a, q, AddA(m, pa)) == End(c.a, QA(c, k'), pa)
      && InputOf(c.a, q, AddA(m, pa)) == Emit(c.a.ins, MoveIn(c, key, m)) + InputOf(c.a, QA(c, k'), pa)
      && OutputOf(c.a, q, AddA(m, pa)) == WrittenA(c, key, m) + OutputOf(c.a, QA(c, k'), pa)
      && Factors(c.a, q, AddA(m, pa)) == FactorA(c, key, m) + Factors(c.a, QA(c, k'), pa)
  {
    if m.L? || m.LR? {
      PathCons(c.a, QA(c, key), m.i, pa);
    }
  }

  lemma AdvanceB(c: Problem, key: Key, m: Move, pb: seq<nat>)
    requires Ok(c) && KeyOk(c, key) && Enabled(c, key, m)
    requires IsPath(c.b, QB(c, Target(c, key, m)), pb)
    ensures var q, k' := QB(c, key), Target(c, key, m);
      && IsPath(c.b, q, AddB(m, pb))
      && End(c.b, q, AddB(m, pb)) == End(c.b, QB(c, k'), pb)
      && InputOf(c.b, q, AddB(m, pb)) == ReadB(c, key, m) + InputOf(c.b, QB(c, k'), pb)
      && OutputOf(c.b, q, AddB(m, pb)) == Emit(c.b.outs, MoveOut(c, key, m)) + OutputOf(c.b, QB(c, k'), pb)
      && Factors(c.b, q, AddB(m, pb)) == FactorB(c, key, m) + Factors(c.b, QB(c, k'), pb)
  {
    if m.R? || m.LR? {
      PathCons(c.b, QB(c, key), m.j, pb);
    }
  }

  /** What crosses the interface on one move. */
  lemma InterfaceMove(c: Problem, key: Key, m: Move)
    requires Ok(c) && KeyOk(c, key) && Enabled(c, key, m)
    ensures Pending(c, key) + WrittenA(c, key, m) == ReadB(c, key, m) + Pending(c, Target(c, key, m))
  {}

  lemma WeightMove(c: Problem, key: Key, m: Move)
    requires Ok(c) && KeyOk(c, key) && Enabled(c, key, m)
    ensures MoveWeight(c, key, m) == Mul(Product(FactorA(c, key, m)), Product(FactorB(c, key, m)))
  {
    match m
    case L(_) => ProductOfOne(ArcA(c, key, m).weight);
    case R(_) => ProductOfOne(ArcB(c, key, m).weight);
    case LR(_, _) =>
      ProductOfOne(ArcA(c, key, m).weight);
      ProductOfOne(ArcB(c, key, m).weight);
    case Stop =>
  }

  lemma ProductStep(w: real, ws: seq<real>, fa: seq<real>, fb: seq<real>, sa: seq<real>, sb: seq<real>)
    requires w == Mul(Product(fa), Product(fb)) && Product(ws) == Mul(Product(sa), Product(sb))
    ensures Product([w] + ws) == Mul(Product(fa + sa), Product(fb + sb))
  {
    hide *;
    ProductCons(w, ws);
    ProductConcat(fa, sa);
    ProductConcat(fb, sb);
    MulExchange(Product(fa), Product(fb), Product(sa), Product(sb));
  }

  lemma {:induction false} RunProjects(c: Problem, key: Key, ms: seq<Move>)
    requires Ok(c) && KeyOk(c, key) && IsRun(c, key, ms)
    ensures Paths(c, key, ProjA(ms), ProjB(ms))
    ensures End(c.a, QA(c, key), ProjA(ms)) == QA(c, RunEnd(c, key, ms))
    ensures End(c.b, QB(c, key), ProjB(ms)) == QB(c, RunEnd(c, key, ms))
    ensures RunIn(c, key, ms) == InputOf(c.a, QA(c, key), ProjA(ms))
    ensures RunOut(c, key, ms) == OutputOf(c.b, QB(c, key), ProjB(ms))
    decreases |ms|
  {
    if |ms| > 0 {
      RunProjects(c, Target(c, key, ms[0]), ms[1..]);
      AdvanceA(c, key, ms[0], ProjA(ms[1..]));
      AdvanceB(c, key, ms[0], ProjB(ms[1..]));
    }
  }

  lemma {:induction false} RunWeights(c: Problem, key: Key, ms: seq<Move>)
    requires Ok(c) && KeyOk(c, key) && IsRun(c, key, ms) && Paths(c, key, ProjA(ms), ProjB(ms))
    ensures Product(RunFactors(c, key, ms))
         == Mul(WeightOf(c.a, QA(c, key), ProjA(ms)), WeightOf(c.b, QB(c, key), ProjB(ms)))
    decreases |ms|
  {
    hide Mul, Product;
    if |ms| > 0 {
      var m, k', pa, pb := ms[0], Target(c, key, ms[0]), ProjA(ms[1..]), ProjB(ms[1..]);
      RunProjects(c, k', ms[1..]);
      RunWeights(c, k', ms[1..]);
      AdvanceA(c, key, m, pa);
      AdvanceB(c, key, m, pb);
      WeightMove(c, key, m);
      assert RunFactors(c, key, ms) == [MoveWeight(c, key, m)] + RunFactors(c, k', ms[1..]);
      ProductStep(MoveWeight(c, key, m), RunFactors(c, k', ms[1..]), FactorA(c, key, m), FactorB(c, key, m),
        Factors(c.a, QA(c, k'), pa), Factors(c.b, QB(c, k'), pb));
    } else {
      ProductOfOne(1.0);
      MulUnit(1.0);
    }
  }

  lemma RegroupStrings<T>(p: seq<T>, w: seq<T>, r: seq<T>, p': seq<T>, o: seq<T>, i: seq<T>, e: seq<T>)
    requires p + w == r + p' && p' + o == i + e
    ensures p + (w + o) == (r + i) + e
  {
    calc {
      p + (w + o);
      (p + w) + o;
      (r + p') + o;
      r + (p' + o);
      r + (i + e);
      (r + i) + e;
    }
  }

  /** What a writes along a run is what b reads, up to the symbol pending at either end. */
  lemma {:induction false} RunMatches(c: Problem, key: Key, ms: seq<Move>)
    requires Ok(c) && KeyOk(c, key) && IsRun(c, key, ms) && Paths(c, key, ProjA(ms), ProjB(ms))
    ensures Pending(c, key) + OutputOf(c.a, QA(c, key), ProjA(ms))
         == InputOf(c.b, QB(c, key), ProjB(ms)) + Pending(c, RunEnd(c, key, ms))
    decreases |ms|
  {
    if |ms| > 0 {
      var m, k', pa, pb := ms[0], Target(c, key, ms[0]), ProjA(ms[1..]), ProjB(ms[1..]);
      RunProjects(c, k', ms[1..]);
      RunMatches(c, k', ms[1..]);
      AdvanceA(c, key, m, pa);
      AdvanceB(c, key, m, pb);
      InterfaceMove(c, key, m);
      RegroupStrings(Pending(c, key), WrittenA(c, key, m), ReadB(c, key, m), Pending(c, k'),
        OutputOf(c.a, QA(c, k'), pa), InputOf(c.b, QB(c, k'), pb), Pending(c, RunEnd(c, key, ms)));
    }
  }

  // ----- exactly one run for each matching pair of paths -----

  ghost predicate EpsHeadA(c: Problem, qa: nat, pa: seq<nat>)
    requires Ok(c) && qa < |c.a.states| && IsPath(c.a, qa, pa)
  {
    |pa| > 0 && c.a.states[qa][pa[0]].out == EPSILON
  }

  ghost predicate EpsHeadB(c: Problem, qb: nat, pb: seq<nat>)
    requires Ok(c) && qb < |c.b.states| && IsPath(c.b, qb, pb)
  {
    |pb| > 0 && c.b.states[qb][pb[0]].inp == EPSILON
  }

  ghost predicate Paths(c: Problem, key: Key, pa: seq<nat>, pb: seq<nat>)
    requires Ok(c) && KeyOk(c, key)
  {
    IsPath(c.a, QA(c, key), pa) && IsPath(c.b, QB(c, key), pb)
  }

  /** The order in which the filter makes the two paths advance. */
  ghost function Merge(c: Problem, key: Key, pa: seq<nat>, pb: seq<nat>): seq<Move>
    requires Ok(c) && KeyOk(c, key) && Paths(c, key, pa, pb)
    decreases |pa| + |pb|
  {
    match key
    case Sink => []
    case Mediate(d, s, x) =>
      if |pb| == 0 then [] else
      [R(pb[0])] + Merge(c, Trio(d, c.b.states[s][pb[0]].dest, 0), pa, pb[1..])
    case Trio(qa, qb, f) =>
      var ea, eb := EpsHeadA(c, qa, pa), EpsHeadB(c, qb, pb);
      if ea && eb && f == 0 && !c.groups then
        [LR(pa[0], pb[0])] + Merge(c, Trio(c.a.states[qa][pa[0]].dest, c.b.states[qb][pb[0]].dest, 0), pa[1..], pb[1..])
      else if ea && (if c.groups then f == 0 else f != 2) then
        [L(pa[0])] + Merge(c, Trio(c.a.states[qa][pa[0]].dest, qb, if c.groups then 0 else 1), pa[1..], pb)
      else if eb && (c.groups || f != 1) then
        [R(pb[0])] + Merge(c, Trio(qa, c.b.states[qb][pb[0]].dest, if c.groups then 1 else 2), pa, pb[1..])
      else if |pa| > 0 && |pb| > 0 && !ea then
        var la, rb := c.a.states[qa][pa[0]], c.b.states[qb][pb[0]];
        if c.groups then [L(pa[0])] + Merge(c, Mediate(la.dest, qb, la.out), pa[1..], pb)
        else [LR(pa[0], pb[0])] + Merge(c, Trio(la.dest, rb.dest, 0), pa[1..], pb[1..])
      else if c.merged then [Stop] else []
  }

  /** What the filter state forbids at the head of the remaining paths. */
  ghost predicate Feasible(c: Problem, key: Key, pa: seq<nat>, pb: seq<nat>)
    requires Ok(c) && KeyOk(c, key) && Paths(c, key, pa, pb)
  {
    match key
    case Sink => |pa| == 0 && |pb| == 0
    case Mediate(d, s, x) => |pb| > 0 && c.b.states[s][pb[0]].inp != EPSILON
    case Trio(qa, qb, f) =>
      if c.groups then f == 1 ==> !EpsHeadA(c, qa, pa)
      else (f == 1 ==> !EpsHeadB(c, qb, pb)) && (f == 2 ==> !EpsHeadA(c, qa, pa))
  }

  lemma {:induction false} SinkRunIsEmpty(c: Problem, ms: seq<Move>)
    requires Ok(c) && KeyOk(c, Sink) && IsRun(c, Sink, ms)
    ensures ms == []
  {}

  /** One move in front: the head that the filter made it take is the head that Merge takes. */
  lemma MergeStep(c: Problem, key: Key, m: Move, pa: seq<nat>, pb: seq<nat>)
    requires Ok(c) && KeyOk(c, key) && Enabled(c, key, m)
    requires Paths(c, Target(c, key, m), pa, pb) && Feasible(c, Target(c, key, m), pa, pb)
    requires Paths(c, key, AddA(m, pa), AddB(m, pb))
    ensures Feasible(c, key, AddA(m, pa), AddB(m, pb))
    ensures Merge(c, key, AddA(m, pa), AddB(m, pb)) == [m] + Merge(c, Target(c, key, m), pa, pb)
  {
    assert m.L? || m.LR? ==> AddA(m, pa)[1..] == pa;
    assert m.R? || m.LR? ==> AddB(m, pb)[1..] == pb;
  }

  /** An accepting run is determined by the two paths it projects to. */
  lemma {:induction false} RunIsMerge(c: Problem, key: Key, ms: seq<Move>)
    requires Ok(c) && KeyOk(c, key) && AcceptingRun(c, key, ms) && Paths(c, key, ProjA(ms), ProjB(ms))
    ensures Feasible(c, key, ProjA(ms), ProjB(ms))
    ensures ms == Merge(c, key, ProjA(ms), ProjB(ms))
    decreases |ms|
  {
    if |ms| > 0 {
      hide Enabled, Target, Merge, Feasible, Paths, ProjA, ProjB, AcceptingRun;
      var m := ms[0];
      RunBack(c, key, ms);
      var k' := Target(c, key, m);
      RunProjects(c, k', ms[1..]);
      RunIsMerge(c, k', ms[1..]);
      MergeStep(c, key, m, ProjA(ms[1..]), ProjB(ms[1..]));
      assert ms == [m] + ms[1..];
    }
  }

  /** What is left of a run after its first move. */
  lemma RunBack(c: Problem, key: Key, ms: seq<Move>)
    requires Ok(c) && KeyOk(c, key) && AcceptingRun(c, key, ms) && |ms| > 0
    ensures Enabled(c, key, ms[0]) && IsRun(c, Target(c, key, ms[0]), ms[1..]) && AcceptingRun(c, Target(c, key, ms[0]), ms[1..])
    ensures ProjA(ms) == AddA(ms[0], ProjA(ms[1..])) && ProjB(ms) == AddB(ms[0], ProjB(ms[1..]))
  {
    hide Enabled, Target, Accepts, AddA, AddB;
  }

  /** A move in front of a run. */
  lemma RunFront(c: Problem, key: Key, m: Move, ms: seq<Move>)
    requires Ok(c) && KeyOk(c, key) && Enabled(c, key, m) && AcceptingRun(c, Target(c, key, m), ms)
    ensures AcceptingRun(c, key, [m] + ms)
    ensures ProjA([m] + ms) == AddA(m, ProjA(ms)) && ProjB([m] + ms) == AddB(m, ProjB(ms))
  {
    hide Enabled, Target, Accepts, AddA, AddB;
    assert ([m] + ms)[1..] == ms;
  }

  ghost predicate PairMatches(c: Problem, key: Key, pa: seq<nat>, pb: seq<nat>)
    requires Ok(c) && KeyOk(c, key) && Paths(c, key, pa, pb)
  {
    && End(c.a, QA(c, key), pa) == c.a.final
    && End(c.b, QB(c, key), pb) == c.b.final
    && Pending(c, key) + OutputOf(c.a, QA(c, key), pa) == InputOf(c.b, QB(c, key), pb)
  }

  /** Two strings that agree have the same first symbol and agree on the rest. */
  lemma SameHeads<T>(x: T, xs: seq<T>, y: T, ys: seq<T>)
    requires [x] + xs == [y] + ys
    ensures x == y && xs == ys
  {
    assert ([x] + xs)[0] == x && ([y] + ys)[0] == y;
    assert ([x] + xs)[1..] == xs && ([y] + ys)[1..] == ys;
  }

  /** Both heads non-empty: the next symbol of the interface is written by one and read by the other. */
  lemma InterfaceStep(c: Problem, key: Key, pa: seq<nat>, pb: seq<nat>)
    requires Ok(c) && KeyOk(c, key) && Paths(c, key, pa, pb) && key.Trio? && PairMatches(c, key, pa, pb)
    requires !EpsHeadA(c, key.qa, pa) && !EpsHeadB(c, key.qb, pb)
    ensures |pa| == 0 <==> |pb| == 0
    ensures |pa| > 0 ==> Same(c, c.a.states[key.qa][pa[0]].out, c.b.states[key.qb][pb[0]].inp)
  {
    if |pa| > 0 && |pb| > 0 {
      var la, rb := c.a.states[key.qa][pa[0]], c.b.states[key.qb][pb[0]];
      SameHeads(c.a.outs[la.out], OutputOf(c.a, la.dest, pa[1..]), c.b.ins[rb.inp], InputOf(c.b, rb.dest, pb[1..]));
    }
  }

  lemma FirstMove(c: Problem, key: Key, pa: seq<nat>, pb: seq<nat>) returns (m: Move)
    requires Ok(c) && KeyOk(c, key) && Paths(c, key, pa, pb) && !key.Sink?
    requires PairMatches(c, key, pa, pb) && Feasible(c, key, pa, pb)
    requires |pa| + |pb| > 0
    ensures Enabled(c, key, m) && !m.Stop?
    ensures m.L? || m.LR? ==> |pa| > 0 && m.i == pa[0]
    ensures m.R? || m.LR? ==> |pb| > 0 && m.j == pb[0]
    ensures m.L? && key.Trio? && c.a.states[key.qa][m.i].out != EPSILON ==>
      |pb| > 0 && c.b.states[key.qb][pb[0]].inp != EPSILON
    ensures m.L? && !c.groups ==> !EpsHeadB(c, key.qb, pb)
    ensures m.R? && key.Trio? ==> !EpsHeadA(c, key.qa, pa)
  {
    match key
    case Mediate(d, s, x) =>
      var rb := c.b.states[s][pb[0]];
      SameHeads(c.a.outs[x], OutputOf(c.a, d, pa), c.b.ins[rb.inp], InputOf(c.b, rb.dest, pb[1..]));
      m := R(pb[0]);
    case Trio(qa, qb, f) =>
      if EpsHeadA(c, qa, pa) {
        m := if EpsHeadB(c, qb, pb) && !c.groups then LR(pa[0], pb[0]) else L(pa[0]);
      } else if EpsHeadB(c, qb, pb) {
        m := R(pb[0]);
      } else {
        InterfaceStep(c, key, pa, pb);
        m := if c.groups then L(pa[0]) else LR(pa[0], pb[0]);
      }
  }

  /** The first move of Merge on a matching pair: enabled, and what it leaves is a matching pair again. */
  lemma MergeHead(c: Problem, key: Key, pa: seq<nat>, pb: seq<nat>)
    returns (m: Move, pa': seq<nat>, pb': seq<nat>)
    requires Ok(c) && KeyOk(c, key) && Paths(c, key, pa, pb) && !key.Sink?
    requires PairMatches(c, key, pa, pb) && Feasible(c, key, pa, pb)
    requires |pa| + |pb| > 0
    ensures Enabled(c, key, m) && !m.Stop? && pa == AddA(m, pa') && pb == AddB(m, pb')
    ensures |pa'| + |pb'| < |pa| + |pb|
    ensures Paths(c, Target(c, key, m), pa', pb') && PairMatches(c, Target(c, key, m), pa', pb')
    ensures Feasible(c, Target(c, key, m), pa', pb')
  {
    hide Enabled, Target, Feasible, PairMatches, EpsHeadA, EpsHeadB;
    m := FirstMove(c, key, pa, pb);
    pa' := if m.L? || m.LR? then pa[1..] else pa;
    pb' := if m.R? || m.LR? then pb[1..] else pb;
    assert pa == AddA(m, pa') && pb == AddB(m, pb');
    RestOfPaths(c, key, m, pa', pb');
    FeasibleAfter(c, key, m, pa', pb');
    RestMatches(c, key, m, pa', pb');
  }

  lemma RestOfPaths(c: Problem, key: Key, m: Move, pa: seq<nat>, pb: seq<nat>)
    requires Ok(c) && KeyOk(c, key) && Enabled(c, key, m) && Paths(c, key, AddA(m, pa), AddB(m, pb)) && !key.Sink?
    ensures Paths(c, Target(c, key, m), pa, pb)
  {
    assert m.L? || m.LR? ==> AddA(m, pa)[1..] == pa;
    assert m.R? || m.LR? ==> AddB(m, pb)[1..] == pb;
  }

  lemma RestMatches(c: Problem, key: Key, m: Move, pa: seq<nat>, pb: seq<nat>)
    requires Ok(c) && KeyOk(c, key) && Enabled(c, key, m) && Paths(c, key, AddA(m, pa), AddB(m, pb)) && Paths(c, Target(c, key, m), pa, pb)
    requires PairMatches(c, key, AddA(m, pa), AddB(m, pb))
    ensures PairMatches(c, Target(c, key, m), pa, pb)
  {
    hide Enabled, Target, AddA, AddB, Pending, WrittenA, ReadB, IsPath, End, OutputOf, InputOf, FactorA, FactorB, MoveIn, MoveOut;
    AdvanceA(c, key, m, pa);
    AdvanceB(c, key, m, pb);
    InterfaceMove(c, key, m);
    var k' := Target(c, key, m);
    Cancel(Pending(c, key), WrittenA(c, key, m), ReadB(c, key, m), Pending(c, k'),
      OutputOf(c.a, QA(c, k'), pa), InputOf(c.b, QB(c, k'), pb));
  }

  /** The filter state after the first move forbids nothing that comes next. */
  lemma FeasibleAfter(c: Problem, key: Key, m: Move, pa: seq<nat>, pb: seq<nat>)
    requires Ok(c) && KeyOk(c, key) && Enabled(c, key, m) && !m.Stop? && Paths(c, Target(c, key, m), pa, pb)
    requires m.L? && key.Trio? && c.a.states[key.qa][m.i].out != EPSILON ==>
      |AddB(m, pb)| > 0 && AddB(m, pb)[0] < |c.b.states[key.qb]| && c.b.states[key.qb][AddB(m, pb)[0]].inp != EPSILON
    requires m.L? && !c.groups ==> IsPath(c.b, key.qb, AddB(m, pb)) && !EpsHeadB(c, key.qb, AddB(m, pb))
    requires m.R? && key.Trio? ==> IsPath(c.a, key.qa, AddA(m, pa)) && !EpsHeadA(c, key.qa, AddA(m, pa))
    ensures Feasible(c, Target(c, key, m), pa, pb)
  {}

  lemma Cancel<T>(p: seq<T>, w: seq<T>, r: seq<T>, p': seq<T>, o: seq<T>, i: seq<T>)
    requires p + w == r + p' && p + (w + o) == r + i
    ensures p' + o == i
  {
    assert r + (p' + o) == r + i by {
      assert p + (w + o) == (p + w) + o;
      assert (r + p') + o == r + (p' + o);
    }
    assert (r + (p' + o))[|r|..] == p' + o;
    assert (r + i)[|r|..] == i;
  }

  lemma MergeOfNothing(c: Problem, key: Key)
    requires Ok(c) && KeyOk(c, key) && key.Trio? && PairMatches(c, key, [], [])
    ensures AcceptingRun(c, key, Merge(c, key, [], []))
    ensures ProjA(Merge(c, key, [], [])) == [] && ProjB(Merge(c, key, [], [])) == []
  {
    if c.merged {
      var ms := [Stop];
      assert ms[1..] == [];
      assert IsRun(c, Sink, ms[1..]);
    }
  }

  /** The run for a matching pair exists: Merge makes it. */
  lemma {:induction false} MergeAccepts(c: Problem, key: Key, pa: seq<nat>, pb: seq<nat>)
    requires Ok(c) && KeyOk(c, key) && Paths(c, key, pa, pb) && !key.Sink?
    requires PairMatches(c, key, pa, pb) && Feasible(c, key, pa, pb)
    ensures AcceptingRun(c, key, Merge(c, key, pa, pb))
    ensures ProjA(Merge(c, key, pa, pb)) == pa && ProjB(Merge(c, key, pa, pb)) == pb
    decreases |pa| + |pb|
  {
    hide Enabled, Target, Merge, Paths, PairMatches, ProjA, ProjB, AcceptingRun;
    if |pa| + |pb| == 0 {
      assert pa == [] && pb == [];
      MergeOfNothing(c, key);
    } else {
      hide Feasible;
      var m, pa', pb' := MergeHead(c, key, pa, pb);
      var k' := Target(c, key, m);
      OnlyStopSinks(c, key, m);
      MergeAccepts(c, k', pa', pb');
      MergeStep(c, key, m, pa', pb');
      RunFront(c, key, m, Merge(c, k', pa', pb'));
    }
  }

  lemma OnlyStopSinks(c: Problem, key: Key, m: Move)
    requires Ok(c) && KeyOk(c, key) && Enabled(c, key, m) && !m.Stop?
    ensures !Target(c, key, m).Sink?
  {}
}
