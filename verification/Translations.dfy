/** set_spans, find_frontier and ghkm of gextract/gextract.py, which write the fields of the tree's nodes in place. */
module Translations {
  import opened Frontier
  import opened Numbers

  /** g is f on p and below. */
  ghost predicate SameBelow(f: map<Path, Span>, g: map<Path, Span>, p: Path) {
    forall q: Path :: p <= q ==> (q in f <==> q in g) && (q in f ==> f[q] == g[q])
  }

  ghost predicate SameOutside(f: map<Path, Span>, g: map<Path, Span>, p: Path) {
    forall q: Path :: !(p <= q) ==> (q in f <==> q in g) && (q in f ==> f[q] == g[q])
  }

  lemma {:induction false} CoverChildrenSame(f: map<Path, Span>, g: map<Path, Span>, p: Path, n: nat)
    requires forall k :: 0 <= k < n ==> SameBelow(f, g, p + [k])
    ensures CoverChildren(f, p, n) == CoverChildren(g, p, n)
  {
    if n > 0 {
      assert SameBelow(f, g, p + [n - 1]);
      CoverChildrenSame(f, g, p, n - 1);
    }
  }

  ghost predicate SpansOkBelow(t: Tree, f: map<Path, Span>, words: seq<Span>, p: Path) {
    forall q: Path :: p <= q && InTree(t, q) ==> SpanOk(t, f, words, q)
  }

  lemma SpansOkSame(t: Tree, f: map<Path, Span>, g: map<Path, Span>, words: seq<Span>, p: Path)
    requires SpansOkBelow(t, f, words, p) && SameBelow(f, g, p)
    ensures SpansOkBelow(t, g, words, p)
  {
    forall q: Path | p <= q && InTree(t, q) ensures SpanOk(t, g, words, q) {
      assert SpanOk(t, f, words, q);
      forall k | 0 <= k < |At(t, q).children| ensures SameBelow(f, g, q + [k]) {}
      CoverChildrenSame(f, g, q, |At(t, q).children|);
    }
  }

  lemma OutsideIsBelow(f: map<Path, Span>, g: map<Path, Span>, p: Path, j: nat, k: nat)
    requires SameOutside(f, g, p + [k]) && j != k
    ensures SameBelow(f, g, p + [j])
  {
    forall q: Path | p + [j] <= q ensures (q in f <==> q in g) && (q in f ==> f[q] == g[q]) {
      assert q[|p|] == j;
    }
  }

  lemma OutsideSteps(f: map<Path, Span>, g: map<Path, Span>, h: map<Path, Span>, p: Path, k: nat)
    requires SameOutside(f, g, p) && SameOutside(g, h, p + [k])
    ensures SameOutside(f, h, p)
  {
    forall q: Path | !(p <= q) ensures (q in f <==> q in h) && (q in f ==> f[q] == h[q]) {
      assert p <= p + [k];
    }
  }

  /** Below p is p itself and what is below its children. */
  lemma BelowIsChildren(t: Tree, p: Path, q: Path)
    requires InTree(t, p) && InTree(t, q) && p <= q && p != q
    ensures q[|p|] < |At(t, p).children| && p + [q[|p|]] <= q
  {
    var c := p + [q[|p|]];
    assert c == q[..|p| + 1];
    PrefixInTree(t, c, q);
    ChildAt(t, p, q[|p|]);
  }

  class Translation {
    const etree: Tree
    const nf: nat
    var fspan: map<Path, Span>
    var span: map<Path, Span>

    constructor (etree: Tree, nf: nat, words: seq<Span>)
      requires |words| == Yield(etree)
      ensures this.etree == etree && this.nf == nf && SpansOkBelow(etree, fspan, words, [])
    {
      this.etree, this.nf := etree, nf;
      fspan, span := map[], map[];
      new;
      var end := SetSpans(etree, [], words, 0);
    }

    /** set_spans: returns the English position after the node. */
    method SetSpans(t: Tree, p: Path, words: seq<Span>, epos: nat) returns (end: nat)
      requires InTree(etree, p) && t == At(etree, p) && epos == Start(etree, p) && epos + Yield(t) <= |words|
      modifies this`fspan
      ensures end == epos + Yield(t)
      ensures SpansOkBelow(etree, fspan, words, p) && SameOutside(old(fspan), fspan, p)
      decreases t
    {
      hide SpansOkBelow, SpanOk, SameOutside, InTree, At, Start;
      SameOutsideSelf(fspan, p);
      if |t.children| == 0 {
        SetsOne(fspan, p, words[epos]);
        fspan := fspan[p := words[epos]];
        LeafOk(etree, fspan, words, p);
        return epos + 1;
      }
      var s := NoSpan;
      end := epos;
      for k := 0 to |t.children|
        invariant end == epos + YieldOf(t.children[..k]) && s == CoverChildren(fspan, p, k)
        invariant SameOutside(old(fspan), fspan, p)
        invariant forall j :: 0 <= j < k ==> SpansOkBelow(etree, fspan, words, p + [j])
      {
        ghost var f := fspan;
        ChildYield(etree, p, k);
        end := SetSpans(t.children[k], p + [k], words, end);
        ChildSet(etree, f, fspan, words, p, k);
        OutsideSteps(old(fspan), f, fspan, p, k);
        s := SpanCover(s, fspan[p + [k]]);
      }
      assert t.children[..|t.children|] == t.children;
      ParentSet(etree, fspan, words, p, s);
      SetsOne(fspan, p, s);
      OutsideStepsSame(old(fspan), fspan, fspan[p := s], p);
      fspan := fspan[p := s];
    }

    /** find_frontier, once its array is there: on entry the array counts, for each foreign position, p and the siblings
      * of p and of its ancestors that cover it; on return it is as it was. */
    method FindFrontier(t: Tree, p: Path, allowEpsilonRhs: bool, cspan: array<int>)
      requires InTree(etree, p) && t == At(etree, p) && cspan.Length == nf && SpansFit(etree, fspan, nf)
      requires forall i :: 0 <= i < nf ==> cspan[i] == Load(etree, fspan, p, i) + One(Covers(fspan, p, i))
      modifies cspan, this`span
      ensures cspan[..] == old(cspan[..])
      ensures KeptBelow(etree, fspan, span, p) && SameOutside(old(span), span, p)
      decreases t, 1
    {
      hide Load, KeptBelow, SameOutside, CoverCount, InTree, At;
      var own := fspan[p];
      var fr := allowEpsilonRhs;
      if own.Span? {
        fr := TakeOut(cspan, own);
        ClearByLoad(etree, fspan, p, cspan[..], fr);
      }
      span := span[p := if fr then own else NoSpan];
      ghost var span0 := span;
      assert SameOutside(old(span), span, p) by { SetsOne(old(span), p, span[p]); }
      FindBelow(t, p, allowEpsilonRhs, cspan);
      OutsideStepsSame(old(span), span0, span, p);
      if own.Span? {
        Shift(cspan, own, 1);
      }
      assert cspan[..] == old(cspan[..]);
    }

    method FindBelow(t: Tree, p: Path, allowEpsilonRhs: bool, cspan: array<int>)
      requires InTree(etree, p) && t == At(etree, p) && cspan.Length == nf && SpansFit(etree, fspan, nf)
      requires forall i :: 0 <= i < nf ==> cspan[i] == Load(etree, fspan, p, i)
      requires p in span && KeptOk(etree, fspan, span, p)
      modifies cspan, this`span
      ensures cspan[..] == old(cspan[..])
      ensures KeptBelow(etree, fspan, span, p) && SameOutside(old(span), span, p)
      decreases t, 0
    {
      hide Load, KeptBelow, SameOutside, InTree, At, CoverCount, Covers;
      var n := |t.children|;
      NothingCovered(fspan, p);
      ShiftChildren(t, p, cspan, 1);
      SameOutsideSelf(span, p);
      for k := 0 to n
        invariant forall i :: 0 <= i < nf ==> cspan[i] == Load(etree, fspan, p, i) + CoverCount(fspan, p, n, i)
        invariant SameOutside(old(span), span, p) && p in span && span[p] == old(span)[p]
        invariant forall j :: 0 <= j < k ==> KeptBelow(etree, fspan, span, p + [j])
      {
        ghost var before, c := span, cspan[..];
        ChildAt(etree, p, k);
        forall i | 0 <= i < nf ensures cspan[i] == Load(etree, fspan, p + [k], i) + One(Covers(fspan, p + [k], i)) {
          ChildLoad(etree, fspan, p, k, i);
        }
        FindFrontier(t.children[k], p + [k], allowEpsilonRhs, cspan);
        assert forall i :: 0 <= i < nf ==> cspan[..][i] == c[i];
        ChildKept(etree, fspan, before, span, p, k);
        OutsideSteps(old(span), before, span, p, k);
      }
      ShiftChildren(t, p, cspan, -1);
      ParentKept(etree, fspan, span, p);
      assert cspan[..] == old(cspan[..]);
    }

    lemma NothingCovered(f: map<Path, Span>, p: Path)
      ensures forall i :: CoverCount(f, p, 0, i) == 0
    {}

    /** for c in enode.children: for i in its span: cspan[i] += delta */
    method ShiftChildren(t: Tree, p: Path, cspan: array<int>, delta: int)
      requires InTree(etree, p) && t == At(etree, p) && cspan.Length == nf && SpansFit(etree, fspan, nf) && (delta == 1 || delta == -1)
      modifies cspan
      ensures delta == 1 ==> forall i :: 0 <= i < nf ==> cspan[i] == old(cspan[i]) + CoverCount(fspan, p, |t.children|, i)
      ensures delta == -1 ==> forall i :: 0 <= i < nf ==> cspan[i] == old(cspan[i]) - CoverCount(fspan, p, |t.children|, i)
    {
      hide InTree, At;
      for k := 0 to |t.children|
        invariant delta == 1 ==> forall i :: 0 <= i < nf ==> cspan[i] == old(cspan[i]) + CoverCount(fspan, p, k, i)
        invariant delta == -1 ==> forall i :: 0 <= i < nf ==> cspan[i] == old(cspan[i]) - CoverCount(fspan, p, k, i)
      {
        ChildAt(etree, p, k);
        if fspan[p + [k]].Span? { Shift(cspan, fspan[p + [k]], delta); }
      }
    }

    /** ghkm: afterwards a node has its span if no node that is neither its ancestor nor its descendant covers any
      * position of it, and no span otherwise; and leaves have one only if they may. */
    method Ghkm(leavesAreFrontier: bool, allowEpsilonRhs: bool, ghost words: seq<Span>)
      requires SpansOkBelow(etree, fspan, words, []) && forall w :: w in words ==> Fits(w, nf)
      modifies this`fspan, this`span
      ensures fspan == old(fspan)[[] := Span(0, nf)]
      ensures forall p: Path :: InTree(etree, p) ==> IsFrontier(etree, fspan, span, leavesAreFrontier, p)
    {
      fspan := fspan[[] := Span(0, nf)];
      GhkmStarts(etree, old(fspan), fspan, words, nf);
      var cspan := new int[nf](_ => 1);
      FindFrontier(etree, [], allowEpsilonRhs, cspan);
      ghost var kept := span;
      if !leavesAreFrontier {
        ClearLeaves(etree, []);
      }
      forall p: Path | InTree(etree, p) ensures IsFrontier(etree, fspan, span, leavesAreFrontier, p) {
        assert KeptOk(etree, fspan, kept, p);
        ClearIsUncrossed(etree, fspan, p);
      }
    }

    /** for c in etree.frontier(): c.span = None */
    method ClearLeaves(t: Tree, p: Path)
      requires InTree(etree, p) && t == At(etree, p)
      modifies this`span
      ensures SameOutside(old(span), span, p)
      ensures forall q: Path :: p <= q && InTree(etree, q) && |At(etree, q).children| == 0 ==> q in span && span[q] == NoSpan
      ensures forall q: Path :: InTree(etree, q) && |At(etree, q).children| > 0 && q in old(span) ==> q in span && span[q] == old(span)[q]
      decreases t
    {
      if |t.children| == 0 {
        span := span[p := NoSpan];
        forall q: Path | p <= q && InTree(etree, q) ensures q == p {
          if p != q { BelowIsChildren(etree, p, q); }
        }
      } else {
        for k := 0 to |t.children|
          invariant SameOutside(old(span), span, p)
          invariant forall q: Path :: InTree(etree, q) && |At(etree, q).children| > 0 && q in old(span) ==> q in span && span[q] == old(span)[q]
          invariant forall j: nat, q: Path :: j < k && p + [j] <= q && InTree(etree, q) && |At(etree, q).children| == 0 ==>
            q in span && span[q] == NoSpan
        {
          ghost var before := span;
          ChildAt(etree, p, k);
          ClearLeaves(t.children[k], p + [k]);
          OutsideSteps(old(span), before, span, p, k);
        }
        forall q: Path | p <= q && InTree(etree, q) && |At(etree, q).children| == 0 ensures q in span && span[q] == NoSpan {
          BelowIsChildren(etree, p, q);
        }
      }
    }
  }

  /** for i in the span: cspan[i] += delta */
  method Shift(cspan: array<int>, s: Span, delta: int)
    requires s.Span? && s.lo <= s.hi <= cspan.Length
    modifies cspan
    ensures forall i :: 0 <= i < cspan.Length ==> cspan[i] == old(cspan[i]) + if Within(s, i) then delta else 0
  {
    for i := s.lo to s.hi
      invariant forall j :: 0 <= j < cspan.Length ==> cspan[j] == old(cspan[j]) + if Within(s, j) && j < i then delta else 0
    {
      cspan[i] := cspan[i] + delta;
    }
  }

  /** Takes a node's own span out of the counts; is nothing else left on it? */
  method TakeOut(cspan: array<int>, s: Span) returns (fr: bool)
    requires s.Span? && s.lo <= s.hi <= cspan.Length
    modifies cspan
    ensures forall i :: 0 <= i < cspan.Length ==> cspan[i] == old(cspan[i]) - if Within(s, i) then 1 else 0
    ensures fr <==> forall i :: 0 <= i < cspan.Length && Within(s, i) ==> cspan[i] <= 0
  {
    fr := true;
    for i := s.lo to s.hi
      invariant forall j :: 0 <= j < cspan.Length ==> cspan[j] == old(cspan[j]) - if Within(s, j) && j < i then 1 else 0
      invariant fr <==> forall j :: 0 <= j < i && Within(s, j) ==> cspan[j] <= 0
    {
      cspan[i] := cspan[i] - 1;
      if cspan[i] > 0 { fr := false; }
    }
  }

  /** Every node has its span, inside the sentence. */
  ghost predicate SpansFit(t: Tree, f: map<Path, Span>, nf: nat) {
    forall p: Path :: InTree(t, p) ==> p in f && (f[p].Span? ==> f[p].lo <= f[p].hi <= nf)
  }

  ghost predicate KeptOk(t: Tree, f: map<Path, Span>, span: map<Path, Span>, p: Path)
    requires InTree(t, p)
  {
    p in f && p in span && span[p] == if f[p].Span? && Clear(t, f, p) then f[p] else NoSpan
  }

  ghost predicate KeptBelow(t: Tree, f: map<Path, Span>, span: map<Path, Span>, p: Path) {
    forall q: Path :: p <= q && InTree(t, q) ==> KeptOk(t, f, span, q)
  }

  /** A node has its span if nothing but its ancestors and descendants covers any position of it, and no span otherwise;
    * a leaf has one only if leaves may. */
  ghost predicate IsFrontier(t: Tree, f: map<Path, Span>, span: map<Path, Span>, leaves: bool, p: Path)
    requires InTree(t, p)
  {
    && p in f && p in span
    && span[p] == if f[p].Span? && !Crossed(t, f, p) && (leaves || |At(t, p).children| > 0) then f[p] else NoSpan
  }

  ghost predicate Fits(s: Span, nf: nat) {
    s.Span? ==> s.lo < s.hi <= nf
  }

  lemma {:induction false} SpanFits(t: Tree, f: map<Path, Span>, words: seq<Span>, nf: nat, p: Path)
    requires InTree(t, p) && SpansOkBelow(t, f, words, []) && forall w :: w in words ==> Fits(w, nf)
    ensures p in f && Fits(f[p], nf)
    decreases At(t, p), 0
  {
    assert [] <= p && SpanOk(t, f, words, p);
    var n := |At(t, p).children|;
    if n > 0 {
      forall k | 0 <= k < n ensures p + [k] in f && Fits(f[p + [k]], nf) {
        ChildAt(t, p, k);
        SpanFits(t, f, words, nf, p + [k]);
      }
      CoverFits(f, p, n, nf);
    }
  }

  lemma {:induction false} CoverFits(f: map<Path, Span>, p: Path, n: nat, nf: nat)
    requires forall k :: 0 <= k < n ==> p + [k] in f && Fits(f[p + [k]], nf)
    ensures Fits(CoverChildren(f, p, n), nf)
  {
    if n > 0 { CoverFits(f, p, n - 1, nf); }
  }

  /** The root is given the whole sentence: the spans still nest, and the array of ones is right for the root. */
  lemma GhkmStarts(t: Tree, f: map<Path, Span>, g: map<Path, Span>, words: seq<Span>, nf: nat)
    requires SpansOkBelow(t, f, words, []) && forall w :: w in words ==> Fits(w, nf)
    requires g == f[[] := Span(0, nf)]
    ensures SpansFit(t, g, nf) && Nested(t, g)
    ensures forall i :: 0 <= i < nf ==> Load(t, g, [], i) + One(Covers(g, [], i)) == 1
  {
    forall p: Path | InTree(t, p) ensures p in f && Fits(f[p], nf) { SpanFits(t, f, words, nf, p); }
    forall p: Path | InTree(t, p) ensures SpanOk(t, f, words, p) { assert [] <= p; }
    SpansNest(t, f, words);
    forall p: Path, k: nat, i: nat | InTree(t, p + [k]) && Covers(g, p + [k], i) ensures Covers(g, p, i) {
      assert Covers(f, p + [k], i);
    }
  }

  lemma ClearByLoad(t: Tree, f: map<Path, Span>, p: Path, c: seq<int>, fr: bool)
    requires InTree(t, p) && p in f && f[p].Span? && f[p].hi <= |c|
    requires forall i :: 0 <= i < |c| ==> c[i] == Load(t, f, p, i)
    requires fr <==> forall i :: 0 <= i < |c| && Within(f[p], i) ==> c[i] <= 0
    ensures fr <==> Clear(t, f, p)
  {
    hide Load;
    forall i: nat | i < |c| ensures c[i] >= 0 { LoadNonNegative(t, f, p, i); }
  }

  lemma SetsOne(f: map<Path, Span>, p: Path, s: Span)
    ensures SameOutside(f, f[p := s], p)
  {}

  lemma SameOutsideSelf(f: map<Path, Span>, p: Path)
    ensures SameOutside(f, f, p)
  {}

  lemma OutsideStepsSame(f: map<Path, Span>, g: map<Path, Span>, h: map<Path, Span>, p: Path)
    requires SameOutside(f, g, p) && SameOutside(g, h, p)
    ensures SameOutside(f, h, p)
  {}

  lemma ChildLoad(t: Tree, f: map<Path, Span>, p: Path, k: nat, i: nat)
    requires InTree(t, p) && InTree(t, p + [k])
    ensures Load(t, f, p + [k], i) + One(Covers(f, p + [k], i)) == Load(t, f, p, i) + CoverCount(f, p, |At(t, p).children|, i)
  {
    assert (p + [k])[..|p + [k]| - 1] == p;
  }

  lemma ChildKept(t: Tree, f: map<Path, Span>, before: map<Path, Span>, span: map<Path, Span>, p: Path, k: nat)
    requires SameOutside(before, span, p + [k]) && KeptBelow(t, f, span, p + [k])
    requires forall j :: 0 <= j < k ==> KeptBelow(t, f, before, p + [j])
    ensures forall j :: 0 <= j <= k ==> KeptBelow(t, f, span, p + [j])
    ensures p in before ==> p in span && span[p] == before[p]
  {
    forall j | 0 <= j < k ensures KeptBelow(t, f, span, p + [j]) {
      OutsideIsBelow(before, span, p, j, k);
      forall q: Path | p + [j] <= q && InTree(t, q) ensures KeptOk(t, f, span, q) {
        assert KeptOk(t, f, before, q);
      }
    }
  }

  lemma ParentKept(t: Tree, f: map<Path, Span>, span: map<Path, Span>, p: Path)
    requires InTree(t, p) && KeptOk(t, f, span, p)
    requires forall j :: 0 <= j < |At(t, p).children| ==> KeptBelow(t, f, span, p + [j])
    ensures KeptBelow(t, f, span, p)
  {
    forall q: Path | p <= q && InTree(t, q) ensures KeptOk(t, f, span, q) {
      if q != p {
        BelowIsChildren(t, p, q);
        assert KeptBelow(t, f, span, p + [q[|p|]]);
      }
    }
  }

  lemma LeafOk(t: Tree, f: map<Path, Span>, words: seq<Span>, p: Path)
    requires InTree(t, p) && |At(t, p).children| == 0 && Start(t, p) < |words| && p in f && f[p] == words[Start(t, p)]
    ensures SpansOkBelow(t, f, words, p)
  {
    forall q: Path | p <= q && InTree(t, q) ensures q == p {
      if p != q { BelowIsChildren(t, p, q); }
    }
  }

  lemma ChildYield(t: Tree, p: Path, k: nat)
    requires InTree(t, p) && k < |At(t, p).children|
    ensures InTree(t, p + [k]) && At(t, p + [k]) == At(t, p).children[k]
    ensures Start(t, p + [k]) == Start(t, p) + YieldOf(At(t, p).children[..k])
    ensures YieldOf(At(t, p).children[..k]) + Yield(At(t, p).children[k]) == YieldOf(At(t, p).children[..k + 1]) <= Yield(At(t, p))
  {
    var ts := At(t, p).children;
    ChildAt(t, p, k);
    assert (p + [k])[..|p + [k]| - 1] == p;
    assert ts[..k + 1][..k] == ts[..k];
    YieldGrows(ts, k + 1);
  }

  lemma {:induction false} YieldGrows(ts: seq<Tree>, k: nat)
    requires k <= |ts|
    ensures YieldOf(ts[..k]) <= YieldOf(ts)
  {
    if k == |ts| {
      assert ts[..k] == ts;
    } else {
      YieldGrows(ts[..|ts| - 1], k);
      assert ts[..|ts| - 1][..k] == ts[..k];
    }
  }

  lemma ChildSet(t: Tree, f: map<Path, Span>, g: map<Path, Span>, words: seq<Span>, p: Path, k: nat)
    requires InTree(t, p + [k]) && SpansOkBelow(t, g, words, p + [k]) && SameOutside(f, g, p + [k])
    requires forall j :: 0 <= j < k ==> SpansOkBelow(t, f, words, p + [j])
    ensures forall j :: 0 <= j <= k ==> SpansOkBelow(t, g, words, p + [j])
    ensures p + [k] in g && CoverChildren(g, p, k) == CoverChildren(f, p, k)
  {
    forall j | 0 <= j < k ensures SpansOkBelow(t, g, words, p + [j]) && SameBelow(f, g, p + [j]) {
      OutsideIsBelow(f, g, p, j, k);
      SpansOkSame(t, f, g, words, p + [j]);
    }
    CoverChildrenSame(f, g, p, k);
    assert SpanOk(t, g, words, p + [k]);
  }

  lemma ParentSet(t: Tree, f: map<Path, Span>, words: seq<Span>, p: Path, s: Span)
    requires InTree(t, p) && s == CoverChildren(f, p, |At(t, p).children|) && |At(t, p).children| > 0
    requires forall j :: 0 <= j < |At(t, p).children| ==> SpansOkBelow(t, f, words, p + [j])
    ensures SpansOkBelow(t, f[p := s], words, p)
  {
    var g, n := f[p := s], |At(t, p).children|;
    forall j | 0 <= j < n ensures SameBelow(f, g, p + [j]) && SpansOkBelow(t, g, words, p + [j]) {
      assert SameBelow(f, g, p + [j]);
      SpansOkSame(t, f, g, words, p + [j]);
    }
    CoverChildrenSame(f, g, p, n);
    forall q: Path | p <= q && InTree(t, q) ensures SpanOk(t, g, words, q) {
      if q != p {
        BelowIsChildren(t, p, q);
        assert SpansOkBelow(t, g, words, p + [q[|p|]]);
      }
    }
  }
}
