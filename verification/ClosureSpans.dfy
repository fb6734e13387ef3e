/** Closure spans (gextract/gextract.py): the span that covers what is under a node, kept up to date while the spans of
  * nodes change. */
module ClosureSpans {
  import opened Frontier
  import opened Translations

  /** The fields span and closure_span of the nodes. */
  datatype Fields = Fields(span: map<Path, Span>, closure: map<Path, Span>)

  ghost predicate Defined(t: Tree, x: Fields) {
    forall p: Path :: InTree(t, p) ==> p in x.span && p in x.closure
  }

  /** y.span or y.closure_span */
  function Shown(x: Fields, p: Path): Span {
    if p in x.span && x.span[p].Span? then x.span[p] else if p in x.closure then x.closure[p] else NoSpan
  }

  /** reduce(span_cover, ...) over the first n children. */
  function Cover(x: Fields, p: Path, n: nat): Span {
    if n == 0 then NoSpan else SpanCover(Cover(x, p, n - 1), Shown(x, p + [n - 1]))
  }

  ghost function AllShown(x: Fields, p: Path, n: nat): seq<Span> {
    seq(n, (k: nat) requires k < n => Shown(x, p + [k]))
  }

  /** From the least start to the greatest end of what the children show. */
  lemma {:induction false} CoverIsHull(x: Fields, p: Path, n: nat)
    ensures IsHull(AllShown(x, p, n), Cover(x, p, n))
  {
    if n > 0 {
      CoverIsHull(x, p, n - 1);
      assert AllShown(x, p, n) == AllShown(x, p, n - 1) + [Shown(x, p + [n - 1])];
      hide IsHull, SpanCover;
      HullOfMore(AllShown(x, p, n - 1), Cover(x, p, n - 1), Shown(x, p + [n - 1]));
    }
  }

  /** The closure span of p is what covers its children. */
  ghost predicate Current(t: Tree, x: Fields, p: Path)
    requires InTree(t, p)
  {
    p in x.closure && x.closure[p] == Cover(x, p, |At(t, p).children|)
  }

  ghost predicate AllCurrent(t: Tree, x: Fields) {
    forall p: Path :: InTree(t, p) ==> Current(t, x, p)
  }

  /** All but those in `stale` are current. */
  ghost predicate CurrentBut(t: Tree, x: Fields, stale: set<Path>) {
    forall p: Path :: InTree(t, p) && p !in stale ==> Current(t, x, p)
  }

  function Parent(p: Path): Path
    requires |p| > 0
  {
    p[..|p| - 1]
  }

  lemma {:induction false} CoverSame(x: Fields, y: Fields, p: Path, n: nat)
    requires forall k :: 0 <= k < n ==> Shown(x, p + [k]) == Shown(y, p + [k])
    ensures Cover(x, p, n) == Cover(y, p, n)
  {
    if n > 0 { CoverSame(x, y, p, n - 1); }
  }

  /** A change in what one node shows matters to its parent only. */
  lemma OnlyParentStale(t: Tree, x: Fields, y: Fields, q: Path, p: Path)
    requires InTree(t, p) && Current(t, x, p)
    requires forall r: Path :: r != q ==> Shown(x, r) == Shown(y, r)
    requires p in y.closure && y.closure[p] == x.closure[p]
    requires |q| > 0 && Parent(q) == p ==> Shown(x, q) == Shown(y, q)
    ensures Current(t, y, p)
  {
    var n := |At(t, p).children|;
    forall k | 0 <= k < n ensures Shown(x, p + [k]) == Shown(y, p + [k]) {
      if p + [k] == q { assert q[..|q| - 1] == p; }
    }
    CoverSame(x, y, p, n);
  }

  /** All spans and closure spans being given, the closure spans that are current everywhere are unique. */
  lemma {:induction false} CurrentIsUnique(t: Tree, x: Fields, y: Fields, p: Path)
    requires InTree(t, p) && AllCurrent(t, x) && AllCurrent(t, y) && x.span == y.span
    ensures x.closure[p] == y.closure[p]
    decreases At(t, p)
  {
    var n := |At(t, p).children|;
    forall k | 0 <= k < n ensures Shown(x, p + [k]) == Shown(y, p + [k]) {
      ChildAt(t, p, k);
      CurrentIsUnique(t, x, y, p + [k]);
      assert Current(t, x, p + [k]) && Current(t, y, p + [k]);
    }
    CoverSame(x, y, p, n);
    assert Current(t, x, p) && Current(t, y, p);
  }

  // ----- closure spans from the spans alone -----

  ghost predicate Between(p: Path, r: Path, q: Path) {
    p <= r <= q && r != p && r != q
  }

  /** q is below p and has a span, and nothing between them has one. */
  ghost predicate NextBelow(t: Tree, x: Fields, p: Path, q: Path) {
    && p <= q && p != q && InTree(t, q) && q in x.span && x.span[q].Span?
    && forall r: Path :: Between(p, r, q) ==> r in x.span && x.span[r].NoSpan?
  }

  /** s reaches from the least start to the greatest end of the spans next below p; it is none if there are none. */
  ghost predicate Encloses(t: Tree, x: Fields, p: Path, s: Span) {
    && (forall q: Path :: NextBelow(t, x, p, q) ==> q in x.span && Contains(s, x.span[q]))
    && (s.Span? ==> exists q: Path :: NextBelow(t, x, p, q) && q in x.span && x.span[q].Span? && x.span[q].lo == s.lo)
    && (s.Span? ==> exists q: Path :: NextBelow(t, x, p, q) && q in x.span && x.span[q].Span? && x.span[q].hi == s.hi)
  }

  predicate Contains(s: Span, u: Span) {
    s.Span? && u.Span? && s.lo <= u.lo && u.hi <= s.hi
  }

  /** Closure spans that are right are the smallest that enclose the spans next below. */
  lemma {:induction false} ClosureEncloses(t: Tree, x: Fields, p: Path)
    requires InTree(t, p) && Defined(t, x) && AllCurrent(t, x)
    ensures p in x.closure && Encloses(t, x, p, x.closure[p])
    decreases At(t, p)
  {
    var n := |At(t, p).children|;
    assert Current(t, x, p);
    hide Encloses, AllCurrent, IsHull;
    CoverIsHull(x, p, n);
    forall k: nat | k < n ensures ShownNext(t, x, p, p + [k]) {
      ChildAt(t, p, k);
      if x.span[p + [k]].NoSpan? { ClosureEncloses(t, x, p + [k]); }
      ChildShows(t, x, p, k);
    }
    HullEncloses(t, x, p, x.closure[p]);
  }

  /** What a child c of p shows encloses the spans next below p that are at c or below it. */
  ghost predicate ShownNext(t: Tree, x: Fields, p: Path, c: Path) {
    var s := Shown(x, c);
    && (forall q: Path :: NextBelow(t, x, p, q) && c <= q ==> q in x.span && Contains(s, x.span[q]))
    && (s.Span? ==> exists q: Path :: NextBelow(t, x, p, q) && q in x.span && x.span[q].Span? && x.span[q].lo == s.lo)
    && (s.Span? ==> exists q: Path :: NextBelow(t, x, p, q) && q in x.span && x.span[q].Span? && x.span[q].hi == s.hi)
  }

  /** Children that show the ends of a hull. */
  lemma ShownParts(x: Fields, p: Path, n: nat, s: Span) returns (k: nat, l: nat)
    requires IsHull(AllShown(x, p, n), s) && s.Span?
    ensures k < n && Shown(x, p + [k]).Span? && Shown(x, p + [k]).lo == s.lo
    ensures l < n && Shown(x, p + [l]).Span? && Shown(x, p + [l]).hi == s.hi
  {
    var parts := AllShown(x, p, n);
    hide Shown;
    k :| 0 <= k < n && parts[k].Span? && parts[k].lo == s.lo;
    l :| 0 <= l < n && parts[l].Span? && parts[l].hi == s.hi;
    assert Shown(x, p + [k]) == parts[k] && Shown(x, p + [l]) == parts[l];
  }

  lemma ShownWithin(x: Fields, p: Path, n: nat, s: Span, k: nat)
    requires IsHull(AllShown(x, p, n), s) && k < n && Shown(x, p + [k]).Span?
    ensures Contains(s, Shown(x, p + [k]))
  {
    hide Shown;
    assert AllShown(x, p, n)[k] == Shown(x, p + [k]);
  }

  /** Every child of p shows what encloses the spans next below p on its side. */
  ghost predicate AllShownNext(t: Tree, x: Fields, p: Path)
    requires InTree(t, p)
  {
    forall k: nat :: k < |At(t, p).children| ==> ShownNext(t, x, p, p + [k])
  }

  lemma HullEncloses(t: Tree, x: Fields, p: Path, s: Span)
    requires InTree(t, p) && IsHull(AllShown(x, p, |At(t, p).children|), s) && AllShownNext(t, x, p)
    ensures Encloses(t, x, p, s)
  {
    hide NextBelow, Shown, AllShown, IsHull, ShownNext, Contains, InTree, At;
    forall q: Path | NextBelow(t, x, p, q) ensures q in x.span && Contains(s, x.span[q]) {
      HullHas(t, x, p, s, q);
    }
    if s.Span? {
      var k, l := ShownParts(x, p, |At(t, p).children|, s);
      ShownEnds(t, x, p, p + [k]);
      ShownEnds(t, x, p, p + [l]);
    }
  }

  lemma HullHas(t: Tree, x: Fields, p: Path, s: Span, q: Path)
    requires InTree(t, p) && IsHull(AllShown(x, p, |At(t, p).children|), s) && AllShownNext(t, x, p) && NextBelow(t, x, p, q)
    ensures q in x.span && Contains(s, x.span[q])
  {
    hide NextBelow, Shown, AllShown, IsHull, ShownNext, InTree, At;
    var k := Toward(t, x, p, q);
    ShownHas(t, x, p, p + [k], q);
    ShownWithin(x, p, |At(t, p).children|, s, k);
  }

  lemma ShownHas(t: Tree, x: Fields, p: Path, c: Path, q: Path)
    requires ShownNext(t, x, p, c) && NextBelow(t, x, p, q) && c <= q
    ensures q in x.span && Contains(Shown(x, c), x.span[q])
  {
    hide NextBelow;
  }

  lemma ShownEnds(t: Tree, x: Fields, p: Path, c: Path)
    requires ShownNext(t, x, p, c) && Shown(x, c).Span?
    ensures exists q: Path :: NextBelow(t, x, p, q) && q in x.span && x.span[q].Span? && x.span[q].lo == Shown(x, c).lo
    ensures exists q: Path :: NextBelow(t, x, p, q) && q in x.span && x.span[q].Span? && x.span[q].hi == Shown(x, c).hi
  {
    hide NextBelow;
  }

  lemma Toward(t: Tree, x: Fields, p: Path, q: Path) returns (k: nat)
    requires InTree(t, p) && NextBelow(t, x, p, q)
    ensures k < |At(t, p).children| && p + [k] <= q
  {
    k := q[|p|];
    assert p + [k] == q[..|p| + 1];
    PrefixInTree(t, p + [k], q);
    ChildAt(t, p, k);
  }

  lemma ChildShows(t: Tree, x: Fields, p: Path, k: nat)
    requires InTree(t, p) && InTree(t, p + [k]) && Defined(t, x)
    requires x.span[p + [k]].NoSpan? ==> Encloses(t, x, p + [k], x.closure[p + [k]])
    ensures ShownNext(t, x, p, p + [k])
  {
    var c := p + [k];
    hide NextBelow;
    if x.span[c].Span? {
      ChildIsNext(t, x, p, k);
      assert Contains(x.span[c], x.span[c]);
    } else {
      forall q: Path ensures NextBelow(t, x, p, q) && c <= q <==> NextBelow(t, x, c, q) {
        NextThrough(t, x, p, k, q);
      }
    }
  }

  /** A child with a span hides what is below it. */
  lemma ChildIsNext(t: Tree, x: Fields, p: Path, k: nat)
    requires InTree(t, p + [k]) && p + [k] in x.span && x.span[p + [k]].Span?
    ensures NextBelow(t, x, p, p + [k])
    ensures forall q: Path :: NextBelow(t, x, p, q) && p + [k] <= q ==> q == p + [k]
  {
    var c := p + [k];
    forall r: Path ensures !Between(p, r, c) {
      if p <= r <= c { assert r == c[..|r|]; }
    }
    forall q: Path | NextBelow(t, x, p, q) && c <= q ensures q == c {
      assert Between(p, c, q) || q == c;
    }
  }

  /** Past a child without a span. */
  lemma NextThrough(t: Tree, x: Fields, p: Path, k: nat, q: Path)
    requires p + [k] in x.span && x.span[p + [k]].NoSpan?
    ensures NextBelow(t, x, p, q) && p + [k] <= q <==> NextBelow(t, x, p + [k], q)
  {
    var c := p + [k];
    if NextBelow(t, x, p, q) && c <= q {
      forall r: Path | Between(c, r, q) ensures r in x.span && x.span[r].NoSpan? {
        assert Between(p, r, q);
      }
    }
    if NextBelow(t, x, c, q) {
      forall r: Path | Between(p, r, q) ensures r in x.span && x.span[r].NoSpan? {
        assert r[..|p| + 1] == q[..|p| + 1] == c;
        assert r == c || Between(c, r, q);
      }
    }
  }

  class Spans {
    const etree: Tree
    var x: Fields

    constructor (etree: Tree, span: map<Path, Span>)
      requires forall p: Path :: InTree(etree, p) ==> p in span
      ensures this.etree == etree && x.span == span && AllCurrent(etree, x)
    {
      this.etree := etree;
      x := Fields(span, map[]);
      new;
      SetClosureSpans(etree, []);
    }

    /** set_closure_spans: children before their parent. */
    method SetClosureSpans(t: Tree, p: Path)
      requires InTree(etree, p) && t == At(etree, p)
      modifies this
      ensures x.span == old(x.span) && SameOutside(old(x.closure), x.closure, p) && CurrentBelow(etree, x, p)
      decreases t
    {
      SameOutsideSelf(x.closure, p);
      for k := 0 to |t.children|
        invariant x.span == old(x.span) && SameOutside(old(x.closure), x.closure, p)
        invariant forall j :: 0 <= j < k ==> CurrentBelow(etree, x, p + [j])
      {
        ghost var before := x;
        ChildAt(etree, p, k);
        SetClosureSpans(t.children[k], p + [k]);
        OutsideSteps(old(x.closure), before.closure, x.closure, p, k);
        forall j | 0 <= j < k ensures CurrentBelow(etree, x, p + [j]) {
          OutsideIsBelow(before.closure, x.closure, p, j, k);
          CurrentBelowSame(etree, before, x, p + [j]);
        }
      }
      ghost var before := x;
      SetsOne(x.closure, p, Cover(x, p, |t.children|));
      OutsideStepsSame(old(x.closure), x.closure, x.closure[p := Cover(x, p, |t.children|)], p);
      x := x.(closure := x.closure[p := Cover(x, p, |t.children|)]);
      NodeCurrent(etree, before, x, p);
    }

    /** When all closure spans are current, computing them all afresh changes none. */
    method RecomputeAll()
      requires Defined(etree, x) && AllCurrent(etree, x)
      modifies this
      ensures x.span == old(x.span) && AllCurrent(etree, x)
      ensures forall p: Path :: InTree(etree, p) ==> p in old(x.closure) && x.closure[p] == old(x.closure)[p]
    {
      ghost var before := x;
      SetClosureSpans(etree, []);
      forall p: Path | InTree(etree, p) ensures Current(etree, x, p) {
        assert [] <= p;
      }
      forall p: Path | InTree(etree, p) ensures p in before.closure && x.closure[p] == before.closure[p] {
        CurrentIsUnique(etree, before, x, p);
        assert Current(etree, before, p);
      }
    }

    /** update_span: the node's span becomes `now`; closure spans above are recomputed as far as they change. */
    method UpdateSpan(p: Path, now: Span, was: Span, ghost stale: set<Path>)
      requires Defined(etree, x) && InTree(etree, p) && Anchored(x, p)
      requires now == x.span[p]
      requires CurrentBut(etree, x, stale + {Parent(p)})
      requires (if was.Span? then was else x.closure[p]) == (if now.Span? then now else x.closure[p]) ==> CurrentBut(etree, x, stale)
      modifies this
      ensures Defined(etree, x) && x.span == old(x.span)
      ensures CurrentBut(etree, x, stale)
      ensures forall q: Path :: q in old(x.closure) && !(q <= p && q != p) ==> q in x.closure && x.closure[q] == old(x.closure)[q]
    {
      var oldSpan := if was.Span? then was else x.closure[p];
      x := x.(span := x.span[p := now]);
      var newSpan := if now.Span? then now else x.closure[p];
      if oldSpan == newSpan { return; }
      var q := Parent(p);
      ParentInTree(etree, p);
      while true
        invariant InTree(etree, q) && q <= p && q != p && Defined(etree, x) && x.span == old(x.span)
        invariant SpanAtOrAbove(x, q)
        invariant CurrentBut(etree, x, stale + {q})
        invariant forall r: Path :: r in old(x.closure) && !(r <= p && r != p) ==> r in x.closure && x.closure[r] == old(x.closure)[r]
        decreases |q|
      {
        newSpan := Cover(x, q, |At(etree, q).children|);
        oldSpan := x.closure[q];
        if newSpan == oldSpan { break; }
        ghost var before := x;
        x := x.(closure := x.closure[q := newSpan]);
        ClosureSet(etree, before, x, q, stale);
        if x.span[q].Span? { break; }
        SpanAbove(x, q);
        ParentInTree(etree, q);
        q := Parent(q);
      }
    }

    /** The end of expand: the node gets the span that was chosen. */
    method SetSpan(p: Path, newSpan: Span)
      requires Defined(etree, x) && AllCurrent(etree, x) && InTree(etree, p) && Anchored(x, p)
      modifies this
      ensures Defined(etree, x) && AllCurrent(etree, x) && x.span == old(x.span)[p := newSpan]
    {
      var oldSpan := x.span[p];
      ghost var before := x;
      x := x.(span := x.span[p := newSpan]);
      assert x.span == old(x.span)[p := newSpan];
      AnchoredSame(before, x, p);
      OneSpanSet(etree, before, x, p);
      if newSpan != oldSpan {
        UpdateSpan(p, newSpan, oldSpan, {});
      }
    }

    /** swap: two nodes, neither above the other, exchange their spans, or the exchange is undone. */
    method SwapSpans(p1: Path, p2: Path, useNew: bool)
      requires Defined(etree, x) && AllCurrent(etree, x) && InTree(etree, p1) && InTree(etree, p2) && Unrelated(p1, p2)
      requires Anchored(x, p1) && Anchored(x, p2)
      modifies this
      ensures Defined(etree, x) && AllCurrent(etree, x)
      ensures x.span == if useNew then old(x.span)[p1 := old(x.span)[p2]][p2 := old(x.span)[p1]] else old(x.span)
    {
      ghost var before := x;
      assert p1 in x.span && p2 in x.span;
      hide Defined, AllCurrent, CurrentBut, Anchored;
      var s1 := x.span[p1];
      x := x.(span := x.span[p1 := x.span[p2]]);
      x := x.(span := x.span[p2 := s1]);
      if !useNew {
        s1 := x.span[p1];
        x := x.(span := x.span[p1 := x.span[p2]]);
        x := x.(span := x.span[p2 := s1]);
        assert x == before;
        return;
      }
      UpdateBoth(p1, p2, before);
    }

    /** The spans are exchanged already: two closure spans may be stale, one of which the first update may leave so. */
    method UpdateBoth(p1: Path, p2: Path, ghost before: Fields)
      requires Defined(etree, before) && AllCurrent(etree, before) && InTree(etree, p1) && InTree(etree, p2) && Unrelated(p1, p2)
      requires Anchored(before, p1) && Anchored(before, p2) && p1 in before.span && p2 in before.span
      requires x == before.(span := before.span[p1 := before.span[p2]][p2 := before.span[p1]])
      modifies this
      ensures Defined(etree, x) && AllCurrent(etree, x) && x.span == old(x.span)
    {
      AnchoredSame(before, x, p1);
      AnchoredSame(before, x, p2);
      ghost var stale := if Shown(before, p2) != Shown(x, p2) then {Parent(p2)} else {};
      TwoSpansSet(etree, before, x, p1, p2, stale);
      ghost var swapped := x;
      UpdateSpan(p1, x.span[p1], x.span[p2], stale);
      AnchoredSame(swapped, x, p2);
      UpdateSpan(p2, x.span[p2], x.span[p1], {});
    }
  }

  /** One node shows another span: its parent may be stale, and is not if it shows the same. */
  lemma OneSpanSet(t: Tree, x: Fields, y: Fields, p: Path)
    requires Defined(t, x) && AllCurrent(t, x) && InTree(t, p) && |p| > 0
    requires y.closure == x.closure && forall q: Path :: q != p ==> Shown(x, q) == Shown(y, q)
    ensures CurrentBut(t, y, {Parent(p)})
    ensures Shown(x, p) == Shown(y, p) ==> AllCurrent(t, y)
  {
    forall q: Path | InTree(t, q) && (q != Parent(p) || Shown(x, p) == Shown(y, p)) ensures Current(t, y, q) {
      assert Current(t, x, q);
      OnlyParentStale(t, x, y, p, q);
    }
  }

  lemma TwoSpansSet(t: Tree, x: Fields, y: Fields, p1: Path, p2: Path, stale: set<Path>)
    requires Defined(t, x) && AllCurrent(t, x) && |p1| > 0 && |p2| > 0 && y.closure == x.closure
    requires forall q: Path :: q != p1 && q != p2 ==> Shown(x, q) == Shown(y, q)
    requires Shown(x, p2) == Shown(y, p2) || Parent(p2) in stale
    ensures CurrentBut(t, y, stale + {Parent(p1)})
    ensures Shown(x, p1) == Shown(y, p1) ==> CurrentBut(t, y, stale)
  {
    forall q: Path | InTree(t, q) && q !in stale && (q != Parent(p1) || Shown(x, p1) == Shown(y, p1)) ensures Current(t, y, q) {
      assert Current(t, x, q);
      var n := |At(t, q).children|;
      forall k | 0 <= k < n ensures Shown(x, q + [k]) == Shown(y, q + [k]) {
        assert Parent(q + [k]) == q;
      }
      CoverSame(x, y, q, n);
    }
  }

  /** Some node above p has a span. */
  ghost predicate Anchored(x: Fields, p: Path) {
    |p| > 0 && SpanAtOrAbove(x, Parent(p))
  }

  ghost predicate SpanAtOrAbove(x: Fields, q: Path) {
    exists a: Path :: a <= q && a in x.span && x.span[a].Span?
  }

  lemma SpanAbove(x: Fields, q: Path)
    requires SpanAtOrAbove(x, q) && q in x.span && x.span[q].NoSpan?
    ensures |q| > 0 && SpanAtOrAbove(x, Parent(q))
  {
    var a: Path :| a <= q && a in x.span && x.span[a].Span?;
    assert |a| == |q| ==> a == q;
    assert a <= Parent(q);
  }

  lemma AnchoredSame(x: Fields, y: Fields, p: Path)
    requires Anchored(x, p) && forall a: Path :: a <= p && a != p && a in x.span ==> a in y.span && y.span[a] == x.span[a]
    ensures Anchored(y, p)
  {
    var a: Path :| a <= Parent(p) && a in x.span && x.span[a].Span?;
    assert a <= p && a != p;
  }

  lemma ClosureSet(t: Tree, x: Fields, y: Fields, q: Path, stale: set<Path>)
    requires InTree(t, q) && Defined(t, x) && y == x.(closure := x.closure[q := Cover(x, q, |At(t, q).children|)])
    requires CurrentBut(t, x, stale + {q})
    ensures Defined(t, y)
    ensures CurrentBut(t, y, if |q| > 0 && !x.span[q].Span? then stale + {Parent(q)} else stale)
  {
    forall p: Path | InTree(t, p) && p !in stale && (|q| > 0 && !x.span[q].Span? ==> p != Parent(q)) ensures Current(t, y, p) {
      if p == q {
        CoverSame(x, y, q, |At(t, q).children|);
      } else {
        assert Current(t, x, p);
        OnlyParentStale(t, x, y, q, p);
      }
    }
  }

  ghost predicate CurrentBelow(t: Tree, x: Fields, p: Path) {
    forall q: Path :: p <= q && InTree(t, q) ==> Current(t, x, q)
  }

  lemma CurrentBelowSame(t: Tree, x: Fields, y: Fields, p: Path)
    requires CurrentBelow(t, x, p) && x.span == y.span && SameBelow(x.closure, y.closure, p)
    ensures CurrentBelow(t, y, p)
  {
    forall q: Path | p <= q && InTree(t, q) ensures Current(t, y, q) {
      assert Current(t, x, q);
      CoverSame(x, y, q, |At(t, q).children|);
    }
  }

  lemma NodeCurrent(t: Tree, x: Fields, y: Fields, p: Path)
    requires InTree(t, p) && y == x.(closure := x.closure[p := Cover(x, p, |At(t, p).children|)])
    requires forall j :: 0 <= j < |At(t, p).children| ==> CurrentBelow(t, x, p + [j])
    ensures CurrentBelow(t, y, p)
  {
    CoverSame(x, y, p, |At(t, p).children|);
    forall q: Path | p <= q && InTree(t, q) ensures Current(t, y, q) {
      if q != p {
        BelowIsChildren(t, p, q);
        var j := q[|p|];
        assert SameBelow(x.closure, y.closure, p + [j]);
        CurrentBelowSame(t, x, y, p + [j]);
      }
    }
  }
}
