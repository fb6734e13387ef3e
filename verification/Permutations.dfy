/** The permutation lattice of carmel/src/wfstio.cc: a state per subset of the n words of a line, as a bit mask. */
module Permutations {
  import opened Weights
  import opened Transducer
  import opened Numbers

  /** Word l is not yet in mask k. */
  ghost predicate Free(k: nat, l: nat) {
    if l == 0 then k % 2 == 0 else Free(k / 2, l - 1)
  }

  /** The words that are not in mask k. */
  ghost function Untaken(symbols: seq<nat>, k: nat): multiset<nat> {
    if |symbols| == 0 then multiset{} else
    (if k % 2 == 0 then multiset{symbols[0]} else multiset{}) + Untaken(symbols[1..], k / 2)
  }

  /** Bit l, as the program reads it. */
  lemma {:induction false} FreeIsBit(k: nat, l: nat)
    ensures Free(k, l) <==> (k / Pow2(l)) % 2 == 0
  {
    if l > 0 {
      FreeIsBit(k / 2, l - 1);
      HalfFirst(k, Pow2(l - 1));
    }
  }

  lemma HalfFirst(k: nat, t: nat)
    requires t > 0
    ensures k / (2 * t) == (k / 2) / t
  {
    var q, r, s := (k / 2) / t, (k / 2) % t, k % 2;
    assert k / 2 == t * q + r;
    assert k == (2 * t) * q + (2 * r + s);
    QuotientIs(k, 2 * t, q, 2 * r + s);
  }

  lemma QuotientIs(k: nat, d: nat, q: nat, r: nat)
    requires d > 0 && k == d * q + r && r < d
    ensures k / d == q
  {
    var e, m := k / d, k % d;
    assert k == d * e + m;
    if e < q { Steps(d, e, q); }
    if q < e { Steps(d, q, e); }
  }

  lemma {:induction false} Steps(d: nat, a: nat, b: nat)
    requires a < b
    ensures d * b >= d * a + d
    decreases b
  {
    if b > a + 1 { Steps(d, a, b - 1); }
  }

  lemma HalfShift(k: nat, t: nat)
    ensures (k + 2 * t) / 2 == k / 2 + t && (k + 2 * t) % 2 == k % 2
    ensures k % 2 == 0 ==> (k + 1) / 2 == k / 2 && (k + 1) % 2 == 1
  {}

  lemma {:induction false} UntakenHas(symbols: seq<nat>, k: nat, l: nat)
    requires l < |symbols| && Free(k, l)
    ensures symbols[l] in Untaken(symbols, k)
    decreases l
  {
    if l > 0 {
      UntakenHas(symbols[1..], k / 2, l - 1);
    }
  }

  lemma {:induction false} UntakenIsFree(symbols: seq<nat>, k: nat, a: nat) returns (l: nat)
    requires a in Untaken(symbols, k)
    ensures l < |symbols| && Free(k, l) && symbols[l] == a
  {
    if k % 2 == 0 && symbols[0] == a {
      l := 0;
    } else {
      var m := UntakenIsFree(symbols[1..], k / 2, a);
      l := m + 1;
    }
  }

  lemma {:induction false} StaysBelow(k: nat, l: nat, n: nat)
    requires l < n && Free(k, l) && k < Pow2(n)
    ensures k + Pow2(l) < Pow2(n)
    decreases l
  {
    if l == 0 {
      HalfBelow(k, 0, Pow2(n - 1));
    } else {
      StaysBelow(k / 2, l - 1, n - 1);
      HalfBelow(k, Pow2(l - 1), Pow2(n - 1));
    }
  }

  lemma HalfBelow(k: nat, t: nat, p: nat)
    ensures k / 2 + t < p ==> k + 2 * t < 2 * p
    ensures k % 2 == 0 && k < 2 * p ==> k + 1 < 2 * p
  {}

  ghost function FirstUntaken(symbols: seq<nat>, k: nat): multiset<nat>
    requires |symbols| > 0
  {
    if k % 2 == 0 then multiset{symbols[0]} else multiset{}
  }

  lemma UntakenStep(symbols: seq<nat>, k: nat)
    requires |symbols| > 0
    ensures Untaken(symbols, k) == FirstUntaken(symbols, k) + Untaken(symbols[1..], k / 2)
  {}

  lemma {:induction false} TakeOne(symbols: seq<nat>, k: nat, l: nat)
    requires l < |symbols| && Free(k, l)
    ensures Untaken(symbols, k) == Untaken(symbols, k + Pow2(l)) + multiset{symbols[l]}
    decreases l
  {
    hide Untaken, FirstUntaken;
    UntakenStep(symbols, k);
    UntakenStep(symbols, k + Pow2(l));
    if l == 0 {
      TakeFirst(symbols, k, Untaken(symbols[1..], k / 2));
    } else {
      TakeOne(symbols[1..], k / 2, l - 1);
      TakeLater(symbols, k, Pow2(l - 1));
      RegroupWords(FirstUntaken(symbols, k), Untaken(symbols[1..], k / 2 + Pow2(l - 1)), multiset{symbols[l]});
    }
  }

  lemma TakeFirst(symbols: seq<nat>, k: nat, rest: multiset<nat>)
    requires |symbols| > 0 && k % 2 == 0
    ensures (k + 1) / 2 == k / 2 && FirstUntaken(symbols, k) + rest == FirstUntaken(symbols, k + 1) + rest + multiset{symbols[0]}
  {
    HalfShift(k, 0);
    RegroupWords(multiset{}, rest, multiset{symbols[0]});
  }

  lemma TakeLater(symbols: seq<nat>, k: nat, t: nat)
    requires |symbols| > 0
    ensures (k + 2 * t) / 2 == k / 2 + t && FirstUntaken(symbols, k + 2 * t) == FirstUntaken(symbols, k)
  {
    HalfShift(k, t);
  }

  lemma RegroupWords(a: multiset<nat>, b: multiset<nat>, c: multiset<nat>)
    ensures a + (b + c) == (a + b) + c && multiset{} + b == b && b + c == c + b
    ensures (b + c) - c == b
  {}

  lemma {:induction false} UntakenAtEnds(symbols: seq<nat>, k: nat)
    requires k < Pow2(|symbols|)
    ensures Untaken(symbols, k) == multiset{} <==> k == Pow2(|symbols|) - 1
    ensures k == 0 ==> Untaken(symbols, k) == multiset(symbols)
  {
    if |symbols| > 0 {
      UntakenAtEnds(symbols[1..], k / 2);
      assert symbols == [symbols[0]] + symbols[1..];
    }
  }

  // ----- the lattice -----

  ghost predicate ArcTakes(symbols: seq<nat>, k: nat, arc: Arc, l: nat) {
    && l < |symbols| && Free(k, l) && arc.inp == symbols[l] && arc.out == symbols[l]
    && arc.dest == k + Pow2(l) && arc.weight == 1.0
  }

  ghost predicate TakesFree(symbols: seq<nat>, k: nat, arc: Arc) {
    exists l: nat :: ArcTakes(symbols, k, arc, l)
  }

  ghost predicate HasLabel(arcs: seq<Arc>, a: nat) {
    exists j :: 0 <= j < |arcs| && arcs[j].inp == a
  }

  /** The arcs of state k, words before n tried: one for each distinct word not in the mask. */
  ghost predicate ArcsUpTo(symbols: seq<nat>, k: nat, arcs: seq<Arc>, n: nat)
    requires n <= |symbols|
  {
    && (forall j :: 0 <= j < |arcs| ==> TakesFree(symbols, k, arcs[j]))
    && (forall i, j :: 0 <= i < j < |arcs| ==> arcs[i].inp != arcs[j].inp)
    && (forall l :: 0 <= l < n && Free(k, l) ==> HasLabel(arcs, symbols[l]))
  }

  ghost predicate IsLattice(symbols: seq<nat>, w: Wfst) {
    && |w.states| == Pow2(|symbols|) && w.final == Pow2(|symbols|) - 1
    && w.states[w.final] == []
    && forall k :: 0 <= k < w.final ==> ArcsUpTo(symbols, k, w.states[k], |symbols|)
  }

  method PermutationLattice(symbols: seq<nat>, names: seq<string>) returns (w: Wfst)
    requires IsAlphabet(names) && forall l :: 0 <= l < |symbols| ==> symbols[l] < |names|
    ensures Valid(w) && w.ins == w.outs == names && IsLattice(symbols, w)
  {
    var maxSymbol := 0;
    for l := 0 to |symbols|
      invariant forall i :: 0 <= i < l ==> symbols[i] <= maxSymbol
    {
      if maxSymbol < symbols[l] { maxSymbol := symbols[l]; }
    }
    var final := Pow2(|symbols|) - 1;
    var states: seq<seq<Arc>> := [[]];
    for k := 0 to final
      invariant |states| == k + 1 && states[k] == []
      invariant forall i :: 0 <= i < k ==> ArcsUpTo(symbols, i, states[i], |symbols|)
    {
      states := states + [[]];
      var arcs := StateArcs(symbols, k, maxSymbol);
      states := states[k := arcs];
    }
    w := Wfst(states, final, names, names);
    LatticeValid(symbols, w);
  }

  /** The arcs of one state. */
  method StateArcs(symbols: seq<nat>, k: nat, maxSymbol: nat) returns (arcs: seq<Arc>)
    requires forall l :: 0 <= l < |symbols| ==> symbols[l] <= maxSymbol
    ensures ArcsUpTo(symbols, k, arcs, |symbols|)
  {
    arcs := [];
    var taken := new bool[maxSymbol + 1];
    for i := 0 to maxSymbol + 1
      invariant forall a :: 0 <= a < i ==> !taken[a]
    {
      taken[i] := false;
    }
    for l := 0 to |symbols|
      invariant ArcsUpTo(symbols, k, arcs, l)
      invariant forall a :: 0 <= a <= maxSymbol ==> (taken[a] <==> HasLabel(arcs, a))
    {
      var temp := Pow2(l);
      FreeIsBit(k, l);
      if (k / temp) % 2 == 0 && !taken[symbols[l]] {
        var arc := Arc(symbols[l], symbols[l], k + temp, 1.0, NO_GROUP, 0);
        AddLabel(symbols, k, arcs, l, arc);
        arcs := [arc] + arcs;
        taken[symbols[l]] := true;
      }
    }
  }

  lemma AddLabel(symbols: seq<nat>, k: nat, arcs: seq<Arc>, l: nat, arc: Arc)
    requires l < |symbols| && ArcsUpTo(symbols, k, arcs, l) && ArcTakes(symbols, k, arc, l) && !HasLabel(arcs, symbols[l])
    ensures ArcsUpTo(symbols, k, [arc] + arcs, l + 1)
    ensures forall a :: HasLabel([arc] + arcs, a) <==> HasLabel(arcs, a) || a == symbols[l]
  {
    var all := [arc] + arcs;
    forall a ensures HasLabel(all, a) <==> HasLabel(arcs, a) || a == symbols[l] {
      assert all[0] == arc;
      if HasLabel(arcs, a) {
        var j :| 0 <= j < |arcs| && arcs[j].inp == a;
        assert all[j + 1].inp == a;
      }
    }
    forall j | 0 <= j < |all| ensures TakesFree(symbols, k, all[j]) {
      if j > 0 { assert all[j] == arcs[j - 1]; }
    }
  }

  lemma LatticeValid(symbols: seq<nat>, w: Wfst)
    requires IsLattice(symbols, w) && IsAlphabet(w.ins) && w.outs == w.ins
    requires forall l :: 0 <= l < |symbols| ==> symbols[l] < |w.ins|
    ensures Valid(w)
  {
    forall q, j | 0 <= q < |w.states| && 0 <= j < |w.states[q]| ensures ArcOk(w, w.states[q][j]) {
      assert ArcsUpTo(symbols, q, w.states[q], |symbols|);
      assert TakesFree(symbols, q, w.states[q][j]);
      var l: nat :| ArcTakes(symbols, q, w.states[q][j], l);
      StaysBelow(q, l, |symbols|);
    }
  }

  // ----- what the lattice accepts -----

  ghost function Labels(w: Wfst, q: nat, p: seq<nat>): seq<nat>
    requires Valid(w) && q < |w.states| && IsPath(w, q, p)
    decreases |p|
  {
    if |p| == 0 then [] else [w.states[q][p[0]].inp] + Labels(w, w.states[q][p[0]].dest, p[1..])
  }

  /** An arc takes one word that was not in the mask. */
  lemma ArcTakesOne(symbols: seq<nat>, w: Wfst, q: nat, j: nat)
    requires Valid(w) && IsLattice(symbols, w) && q < |w.states| && j < |w.states[q]|
    ensures w.states[q][j].weight == 1.0 && w.states[q][j].dest < |w.states|
    ensures Untaken(symbols, q) == Untaken(symbols, w.states[q][j].dest) + multiset{w.states[q][j].inp}
  {
    hide Free, Untaken, Pow2, HasLabel;
    assert ArcsUpTo(symbols, q, w.states[q], |symbols|);
    assert TakesFree(symbols, q, w.states[q][j]) && ArcOk(w, w.states[q][j]);
    var l: nat :| ArcTakes(symbols, q, w.states[q][j], l);
    TakeOne(symbols, q, l);
  }

  /** A path to the final state takes exactly the words not in the mask. */
  lemma {:induction false} PathTakesRest(symbols: seq<nat>, w: Wfst, q: nat, p: seq<nat>)
    requires Valid(w) && IsLattice(symbols, w) && q < |w.states| && IsPath(w, q, p) && End(w, q, p) == w.final
    ensures multiset(Labels(w, q, p)) == Untaken(symbols, q)
    decreases |p|
  {
    hide Untaken, Pow2, ArcsUpTo;
    if |p| == 0 {
      UntakenAtEnds(symbols, q);
    } else {
      ArcTakesOne(symbols, w, q, p[0]);
      var arc := w.states[q][p[0]];
      PathTakesRest(symbols, w, arc.dest, p[1..]);
      RegroupWords(multiset{}, Untaken(symbols, arc.dest), multiset{arc.inp});
    }
  }

  lemma {:induction false} PathWeighsOne(symbols: seq<nat>, w: Wfst, q: nat, p: seq<nat>)
    requires Valid(w) && IsLattice(symbols, w) && q < |w.states| && IsPath(w, q, p)
    ensures WeightOf(w, q, p) == 1.0
    decreases |p|
  {
    hide Mul, Valid, IsLattice;
    if |p| > 0 {
      ArcTakesOne(symbols, w, q, p[0]);
      var arc := w.states[q][p[0]];
      PathWeighsOne(symbols, w, arc.dest, p[1..]);
      ProductCons(1.0, Factors(w, arc.dest, p[1..]));
      MulUnit(1.0);
    }
  }

  /** A word not in the mask labels an arc, which takes it. */
  lemma ArcFor(symbols: seq<nat>, w: Wfst, q: nat, line: seq<nat>) returns (j: nat)
    requires Valid(w) && IsLattice(symbols, w) && q < w.final && |line| > 0 && multiset(line) == Untaken(symbols, q)
    ensures q < |w.states| && j < |w.states[q]| && w.states[q][j].inp == line[0]
    ensures w.states[q][j].dest < |w.states| && multiset(line[1..]) == Untaken(symbols, w.states[q][j].dest)
  {
    hide Free, Untaken, Pow2, ArcTakes;
    assert line == [line[0]] + line[1..];
    assert ArcsUpTo(symbols, q, w.states[q], |symbols|);
    var l := UntakenIsFree(symbols, q, line[0]);
    assert HasLabel(w.states[q], symbols[l]);
    j :| j < |w.states[q]| && w.states[q][j].inp == line[0];
    ArcTakesOne(symbols, w, q, j);
    RegroupWords(multiset{}, multiset(line[1..]), multiset{line[0]});
    RegroupWords(multiset{}, Untaken(symbols, w.states[q][j].dest), multiset{line[0]});
  }

  lemma AllTaken(symbols: seq<nat>, w: Wfst, q: nat, line: seq<nat>)
    requires Valid(w) && IsLattice(symbols, w) && q < |w.states| && multiset(line) == Untaken(symbols, q)
    ensures if |line| == 0 then q == w.final else q < w.final
  {
    hide Untaken, Valid, Pow2;
    UntakenAtEnds(symbols, q);
    if |line| > 0 { assert line[0] in multiset(line); }
  }

  lemma {:induction false} RestHasPath(symbols: seq<nat>, w: Wfst, q: nat, line: seq<nat>) returns (p: seq<nat>)
    requires Valid(w) && IsLattice(symbols, w) && q < |w.states| && multiset(line) == Untaken(symbols, q)
    ensures IsPath(w, q, p) && End(w, q, p) == w.final && Labels(w, q, p) == line
    decreases |line|
  {
    hide Untaken, IsLattice, Valid, Pow2;
    AllTaken(symbols, w, q, line);
    if |line| == 0 {
      p := [];
    } else {
      var j := ArcFor(symbols, w, q, line);
      var rest := RestHasPath(symbols, w, w.states[q][j].dest, line[1..]);
      p := [j] + rest;
      assert p[1..] == rest && line == [line[0]] + line[1..];
    }
  }

  lemma {:induction false} LabelsDetermine(symbols: seq<nat>, w: Wfst, q: nat, p: seq<nat>, p': seq<nat>)
    requires Valid(w) && IsLattice(symbols, w) && q < |w.states| && IsPath(w, q, p) && IsPath(w, q, p')
    requires Labels(w, q, p) == Labels(w, q, p')
    ensures p == p'
    decreases |p|
  {
    if |p| > 0 && |p'| > 0 {
      var x, x' := Labels(w, q, p), Labels(w, q, p');
      assert x[0] == w.states[q][p[0]].inp && x'[0] == w.states[q][p'[0]].inp;
      assert ArcsUpTo(symbols, q, w.states[q], |symbols|);
      assert p[0] == p'[0];
      var dest := w.states[q][p[0]].dest;
      assert x[1..] == Labels(w, dest, p[1..]) && x'[1..] == Labels(w, dest, p'[1..]);
      LabelsDetermine(symbols, w, dest, p[1..], p'[1..]);
      assert p == [p[0]] + p[1..] && p' == [p'[0]] + p'[1..];
    }
  }

  /** The lattice accepts exactly the reorderings of the line, repeats allowed, each by exactly one path, with weight 1. */
  lemma AcceptsReorderingsOnce(symbols: seq<nat>, w: Wfst, line: seq<nat>)
    requires Valid(w) && IsLattice(symbols, w)
    ensures (exists p :: Accepting(w, p) && Labels(w, 0, p) == line) <==> multiset(line) == multiset(symbols)
    ensures forall p, p' :: Accepting(w, p) && Accepting(w, p') && Labels(w, 0, p) == Labels(w, 0, p') ==> p == p'
    ensures forall p :: Accepting(w, p) ==> WeightOf(w, 0, p) == 1.0
  {
    UntakenAtEnds(symbols, 0);
    forall p | Accepting(w, p) ensures multiset(Labels(w, 0, p)) == multiset(symbols) && WeightOf(w, 0, p) == 1.0 {
      PathTakesRest(symbols, w, 0, p);
      PathWeighsOne(symbols, w, 0, p);
    }
    if multiset(line) == multiset(symbols) {
      var p := RestHasPath(symbols, w, 0, line);
      assert Accepting(w, p);
    }
    forall p, p' | Accepting(w, p) && Accepting(w, p') && Labels(w, 0, p) == Labels(w, 0, p') ensures p == p' {
      LabelsDetermine(symbols, w, 0, p, p');
    }
  }
}
