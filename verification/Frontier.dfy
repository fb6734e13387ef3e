/** GHKM frontier nodes (gextract/gextract.py, class Translation).  A node of the English tree is known by its path from
  * the root; the fields that the program keeps in the nodes are maps from paths. */
module Frontier {
  import opened Numbers

  datatype Tree = Tree(children: seq<Tree>)

  /** A span of the foreign sentence: positions lo up to, not including, hi. */
  datatype Span = NoSpan | Span(lo: nat, hi: nat)

  type Path = seq<nat>

  predicate InTree(t: Tree, p: Path)
    decreases |p|
  {
    |p| == 0 || (p[0] < |t.children| && InTree(t.children[p[0]], p[1..]))
  }

  function At(t: Tree, p: Path): Tree
    requires InTree(t, p)
    decreases |p|
  {
    if |p| == 0 then t else At(t.children[p[0]], p[1..])
  }

  lemma {:induction false} ChildAt(t: Tree, p: Path, k: nat)
    requires InTree(t, p)
    ensures InTree(t, p + [k]) <==> k < |At(t, p).children|
    ensures k < |At(t, p).children| ==> At(t, p + [k]) == At(t, p).children[k]
    decreases |p|
  {
    if |p| > 0 {
      assert (p + [k])[1..] == p[1..] + [k];
      ChildAt(t.children[p[0]], p[1..], k);
    } else {
      assert (p + [k])[1..] == [];
    }
  }

  lemma {:induction false} PrefixInTree(t: Tree, p: Path, q: Path)
    requires InTree(t, q) && p <= q
    ensures InTree(t, p)
    decreases |p|
  {
    if |p| > 0 { PrefixInTree(t.children[p[0]], p[1..], q[1..]); }
  }

  /** A node and its parent's node. */
  lemma ParentInTree(t: Tree, p: Path)
    requires InTree(t, p) && |p| > 0
    ensures InTree(t, p[..|p| - 1]) && p[|p| - 1] < |At(t, p[..|p| - 1]).children|
    ensures At(t, p) == At(t, p[..|p| - 1]).children[p[|p| - 1]]
  {
    var par := p[..|p| - 1];
    PrefixInTree(t, par, p);
    assert par + [p[|p| - 1]] == p;
    ChildAt(t, par, p[|p| - 1]);
  }

  /** Neither is an ancestor of the other. */
  ghost predicate Unrelated(p: Path, q: Path) {
    !(p <= q) && !(q <= p)
  }

  // ----- spans -----

  predicate Within(s: Span, i: nat) {
    s.Span? && s.lo <= i < s.hi
  }

  ghost predicate Covers(f: map<Path, Span>, p: Path, i: nat) {
    p in f && Within(f[p], i)
  }

  function SpanCover(a: Span, b: Span): (c: Span)
    ensures forall i :: Within(a, i) || Within(b, i) ==> Within(c, i)
  {
    if a.NoSpan? then b else if b.NoSpan? then a
    else Span(if a.lo <= b.lo then a.lo else b.lo, if a.hi >= b.hi then a.hi else b.hi)
  }

  /** ... and no more: spans of no length do not occur. */
  lemma CoverIsLeast(a: Span, b: Span, s: Span)
    requires (a.Span? ==> a.lo < a.hi) && (b.Span? ==> b.lo < b.hi)
    requires forall i :: Within(a, i) || Within(b, i) ==> Within(s, i)
    ensures forall i :: Within(SpanCover(a, b), i) ==> Within(s, i)
  {
    if a.Span? { assert Within(a, a.lo) && Within(a, a.hi - 1); }
    if b.Span? { assert Within(b, b.lo) && Within(b, b.hi - 1); }
  }

  /** s reaches from the least start of the spans in the list to their greatest end; it is none if they all are. */
  ghost predicate IsHull(parts: seq<Span>, s: Span) {
    && (s.Span? <==> exists k :: 0 <= k < |parts| && parts[k].Span?)
    && (forall k :: 0 <= k < |parts| && parts[k].Span? ==> s.Span? && s.lo <= parts[k].lo && parts[k].hi <= s.hi)
    && (s.Span? ==> exists k :: 0 <= k < |parts| && parts[k].Span? && parts[k].lo == s.lo)
    && (s.Span? ==> exists k :: 0 <= k < |parts| && parts[k].Span? && parts[k].hi == s.hi)
  }

  lemma HullOfMore(parts: seq<Span>, s: Span, b: Span)
    requires IsHull(parts, s)
    ensures IsHull(parts + [b], SpanCover(s, b))
  {
    var more := parts + [b];
    assert more[|parts|] == b;
    if s.Span? {
      var k :| 0 <= k < |parts| && parts[k].Span? && parts[k].lo == s.lo;
      var l :| 0 <= l < |parts| && parts[l].Span? && parts[l].hi == s.hi;
      assert more[k] == parts[k] && more[l] == parts[l];
    }
  }

  /** Such a span covers each of the spans, and lies within every span that does. */
  lemma HullIsLeast(parts: seq<Span>, s: Span, u: Span)
    requires IsHull(parts, s) && forall k :: 0 <= k < |parts| && parts[k].Span? ==> parts[k].lo < parts[k].hi
    ensures forall k, i :: 0 <= k < |parts| && Within(parts[k], i) ==> Within(s, i)
    ensures (forall k, i :: 0 <= k < |parts| && Within(parts[k], i) ==> Within(u, i)) ==> forall i :: Within(s, i) ==> Within(u, i)
  {
    if s.Span? {
      var k :| 0 <= k < |parts| && parts[k].Span? && parts[k].lo == s.lo;
      var l :| 0 <= l < |parts| && parts[l].Span? && parts[l].hi == s.hi;
      assert Within(parts[k], s.lo) && Within(parts[l], s.hi - 1);
      if forall k, i :: 0 <= k < |parts| && Within(parts[k], i) ==> Within(u, i) {
        assert Within(u, s.lo) && Within(u, s.hi - 1);
      }
    }
  }

  /** A child's span lies within its parent's. */
  ghost predicate Nested(t: Tree, f: map<Path, Span>) {
    forall p: Path, k: nat, i: nat :: InTree(t, p + [k]) && Covers(f, p + [k], i) ==> Covers(f, p, i)
  }

  lemma {:induction false} AncestorCovers(t: Tree, f: map<Path, Span>, p: Path, q: Path, i: nat)
    requires Nested(t, f) && InTree(t, q) && p <= q && Covers(f, q, i)
    ensures Covers(f, p, i)
    decreases |q|
  {
    if p != q {
      var par := q[..|q| - 1];
      PrefixInTree(t, par, q);
      assert p <= par && q == par + [q[|q| - 1]];
      AncestorCovers(t, f, p, par, i);
    }
  }

  // ----- how often a position is covered outside -----

  ghost function CoverCount(f: map<Path, Span>, p: Path, n: nat, i: nat): nat {
    if n == 0 then 0 else CoverCount(f, p, n - 1, i) + One(Covers(f, p + [n - 1], i))
  }

  /** The siblings of p and of its ancestors that cover i. */
  ghost function Load(t: Tree, f: map<Path, Span>, p: Path, i: nat): int
    requires InTree(t, p)
    decreases |p|
  {
    if |p| == 0 then 0 else
    ParentInTree(t, p);
    var par := p[..|p| - 1];
    Load(t, f, par, i) + CoverCount(f, par, |At(t, par).children|, i) - One(Covers(f, p, i))
  }

  lemma {:induction false} CountOthers(f: map<Path, Span>, p: Path, n: nat, i: nat, k: nat)
    requires k < n
    ensures CoverCount(f, p, n, i) >= One(Covers(f, p + [k], i))
    ensures CoverCount(f, p, n, i) > One(Covers(f, p + [k], i)) <==> exists j :: 0 <= j < n && j != k && Covers(f, p + [j], i)
    decreases n
  {
    if k < n - 1 {
      CountOthers(f, p, n - 1, i, k);
    } else {
      CountAny(f, p, n - 1, i);
    }
  }

  lemma {:induction false} CountAny(f: map<Path, Span>, p: Path, n: nat, i: nat)
    ensures CoverCount(f, p, n, i) > 0 <==> exists j :: 0 <= j < n && Covers(f, p + [j], i)
  {
    if n > 0 { CountAny(f, p, n - 1, i); }
  }

  lemma {:induction false} UnrelatedLoads(t: Tree, f: map<Path, Span>, p: Path, q: Path, i: nat)
    requires Nested(t, f) && InTree(t, p) && InTree(t, q) && Covers(f, q, i) && Unrelated(p, q)
    ensures Load(t, f, p, i) > 0
    decreases |p|
  {
    var par, last := p[..|p| - 1], p[|p| - 1];
    ParentInTree(t, p);
    var n := |At(t, par).children|;
    assert p == par + [last];
    CountOthers(f, par, n, i, last);
    if Unrelated(par, q) {
      UnrelatedLoads(t, f, par, q, i);
    } else {
      assert par <= q && par != q;
      var k := q[|par|];
      assert par + [k] <= q;
      AncestorCovers(t, f, par + [k], q, i);
      PrefixInTree(t, par + [k], q);
      ChildAt(t, par, k);
      LoadNonNegative(t, f, par, i);
    }
  }

  lemma {:induction false} LoadNonNegative(t: Tree, f: map<Path, Span>, p: Path, i: nat)
    requires InTree(t, p)
    ensures Load(t, f, p, i) >= 0
    decreases |p|
  {
    if |p| > 0 {
      ParentInTree(t, p);
      var par, last := p[..|p| - 1], p[|p| - 1];
      LoadNonNegative(t, f, par, i);
      assert p == par + [last];
      CountOthers(f, par, |At(t, par).children|, i, last);
    }
  }

  lemma {:induction false} LoadIsUnrelated(t: Tree, f: map<Path, Span>, p: Path, i: nat) returns (q: Path)
    requires InTree(t, p) && Load(t, f, p, i) > 0
    ensures InTree(t, q) && Unrelated(p, q) && Covers(f, q, i)
    decreases |p|
  {
    ParentInTree(t, p);
    var par, last := p[..|p| - 1], p[|p| - 1];
    var n := |At(t, par).children|;
    assert p == par + [last];
    if Load(t, f, par, i) > 0 {
      q := LoadIsUnrelated(t, f, par, i);
      assert p <= q ==> par <= q;
    } else {
      CountOthers(f, par, n, i, last);
      var j :| 0 <= j < n && j != last && Covers(f, par + [j], i);
      q := par + [j];
      ChildAt(t, par, j);
      assert q[|par|] != p[|par|];
    }
  }

  /** Some position of p's span is covered by a node that is neither an ancestor nor a descendant of p. */
  ghost predicate Crossed(t: Tree, f: map<Path, Span>, p: Path) {
    exists i: nat, q: Path :: Covers(f, p, i) && Covers(f, q, i) && InTree(t, q) && Unrelated(p, q)
  }

  ghost predicate Clear(t: Tree, f: map<Path, Span>, p: Path)
    requires InTree(t, p)
  {
    forall i: nat :: Covers(f, p, i) ==> Load(t, f, p, i) == 0
  }

  /** Counting siblings of ancestors is enough to tell. */
  lemma ClearIsUncrossed(t: Tree, f: map<Path, Span>, p: Path)
    requires Nested(t, f) && InTree(t, p)
    ensures Clear(t, f, p) <==> !Crossed(t, f, p)
  {
    if Crossed(t, f, p) {
      var i: nat, q: Path :| Covers(f, p, i) && Covers(f, q, i) && InTree(t, q) && Unrelated(p, q);
      UnrelatedLoads(t, f, p, q, i);
    }
    if !Clear(t, f, p) {
      var i: nat :| Covers(f, p, i) && Load(t, f, p, i) != 0;
      LoadNonNegative(t, f, p, i);
      var q := LoadIsUnrelated(t, f, p, i);
    }
  }

  // ----- the spans of the nodes -----

  /** The English words under a node. */
  function Yield(t: Tree): (n: nat)
    ensures n > 0
  {
    if |t.children| == 0 then 1 else YieldOf(t.children)
  }

  function YieldOf(ts: seq<Tree>): (n: nat)
    ensures |ts| > 0 ==> n > 0
  {
    if |ts| == 0 then 0 else YieldOf(ts[..|ts| - 1]) + Yield(ts[|ts| - 1])
  }

  /** The English word at which the words under a node start. */
  ghost function Start(t: Tree, p: Path): nat
    requires InTree(t, p)
    decreases |p|
  {
    if |p| == 0 then 0 else
    ParentInTree(t, p);
    var par := p[..|p| - 1];
    Start(t, par) + YieldOf(At(t, par).children[..p[|p| - 1]])
  }

  lemma {:induction false} StartDown(t: Tree, p: Path)
    requires InTree(t, p) && |p| > 0
    ensures Start(t, p) == YieldOf(t.children[..p[0]]) + Start(t.children[p[0]], p[1..])
    decreases |p|
  {
    var par, k := p[..|p| - 1], p[|p| - 1];
    ParentInTree(t, p);
    if |p| == 1 {
      assert p[1..] == [];
    } else {
      StartDown(t, par);
      ParentInTree(t.children[p[0]], p[1..]);
      assert p[1..][..|p| - 2] == par[1..];
    }
  }

  lemma {:induction false} YieldMore(ts: seq<Tree>, j: nat, k: nat)
    requires j < k <= |ts|
    ensures YieldOf(ts[..j]) + Yield(ts[j]) <= YieldOf(ts[..k])
    decreases k
  {
    assert ts[..k][..k - 1] == ts[..k - 1];
    if j < k - 1 { YieldMore(ts, j, k - 1); }
  }

  /** The words under a node are among those of the tree. */
  lemma {:induction false} WordsWithin(t: Tree, p: Path)
    requires InTree(t, p)
    ensures Start(t, p) + Yield(At(t, p)) <= Yield(t)
    decreases |p|
  {
    if |p| > 0 {
      StartDown(t, p);
      WordsWithin(t.children[p[0]], p[1..]);
      YieldMore(t.children, p[0], |t.children|);
      assert t.children[..|t.children|] == t.children;
    }
  }

  ghost predicate IsLeaf(t: Tree, p: Path) {
    InTree(t, p) && |At(t, p).children| == 0
  }

  /** p lies to the left of q. */
  ghost predicate LeftOf(p: Path, q: Path) {
    |p| > 0 && |q| > 0 && (p[0] < q[0] || (p[0] == q[0] && LeftOf(p[1..], q[1..])))
  }

  /** Words go to the leaves from left to right ... */
  lemma {:induction false} WordsInOrder(t: Tree, p: Path, q: Path)
    requires IsLeaf(t, p) && IsLeaf(t, q) && LeftOf(p, q)
    ensures Start(t, p) < Start(t, q) < Yield(t)
    decreases |p|
  {
    WordsWithin(t, q);
    StartDown(t, p);
    StartDown(t, q);
    if p[0] == q[0] {
      WordsInOrder(t.children[p[0]], p[1..], q[1..]);
    } else {
      WordsWithin(t.children[p[0]], p[1..]);
      YieldMore(t.children, p[0], q[0]);
    }
  }

  /** ... and each word to one. */
  lemma {:induction false} WordHasLeaf(t: Tree, i: nat) returns (p: Path)
    requires i < Yield(t)
    ensures IsLeaf(t, p) && Start(t, p) == i
    decreases t, 1
  {
    if |t.children| == 0 {
      p := [];
    } else {
      assert t.children[..|t.children|] == t.children;
      p := WordAmong(t, |t.children|, i);
    }
  }

  lemma {:induction false} WordAmong(t: Tree, n: nat, i: nat) returns (p: Path)
    requires n <= |t.children| && i < YieldOf(t.children[..n])
    ensures IsLeaf(t, p) && |p| > 0 && Start(t, p) == i
    decreases t, 0, n
  {
    assert t.children[..n][..n - 1] == t.children[..n - 1];
    var before := YieldOf(t.children[..n - 1]);
    if i < before {
      p := WordAmong(t, n - 1, i);
    } else {
      var r := WordHasLeaf(t.children[n - 1], i - before);
      p := [n - 1] + r;
      assert p[1..] == r;
      StartDown(t, p);
    }
  }

  ghost function CoverChildren(f: map<Path, Span>, p: Path, n: nat): Span {
    if n == 0 then NoSpan else
    SpanCover(CoverChildren(f, p, n - 1), if p + [n - 1] in f then f[p + [n - 1]] else NoSpan)
  }

  ghost function ChildSpans(f: map<Path, Span>, p: Path, n: nat): seq<Span> {
    seq(n, (k: nat) requires k < n => if p + [k] in f then f[p + [k]] else NoSpan)
  }

  lemma {:induction false} ChildrenCovered(f: map<Path, Span>, p: Path, n: nat)
    ensures IsHull(ChildSpans(f, p, n), CoverChildren(f, p, n))
  {
    if n > 0 {
      ChildrenCovered(f, p, n - 1);
      assert ChildSpans(f, p, n) == ChildSpans(f, p, n - 1) + [if p + [n - 1] in f then f[p + [n - 1]] else NoSpan];
      hide IsHull, SpanCover;
      HullOfMore(ChildSpans(f, p, n - 1), CoverChildren(f, p, n - 1), if p + [n - 1] in f then f[p + [n - 1]] else NoSpan);
    }
  }

  /** A leaf has the span of its word, another node the least span that covers its children's. */
  ghost predicate SpanOk(t: Tree, f: map<Path, Span>, words: seq<Span>, p: Path)
    requires InTree(t, p)
  {
    && p in f
    && (|At(t, p).children| == 0 ==> Start(t, p) < |words| && f[p] == words[Start(t, p)])
    && (|At(t, p).children| > 0 ==> f[p] == CoverChildren(f, p, |At(t, p).children|))
  }

  lemma {:induction false} CoverChildrenCovers(f: map<Path, Span>, p: Path, n: nat, k: nat, i: nat)
    requires k < n && Covers(f, p + [k], i)
    ensures Within(CoverChildren(f, p, n), i)
    decreases n
  {
    if k < n - 1 { CoverChildrenCovers(f, p, n - 1, k, i); }
  }

  lemma SpansNest(t: Tree, f: map<Path, Span>, words: seq<Span>)
    requires forall p :: InTree(t, p) ==> SpanOk(t, f, words, p)
    ensures Nested(t, f)
  {
    forall p: Path, k: nat, i: nat | InTree(t, p + [k]) && Covers(f, p + [k], i) ensures Covers(f, p, i) {
      PrefixInTree(t, p, p + [k]);
      ChildAt(t, p, k);
      assert SpanOk(t, f, words, p);
      CoverChildrenCovers(f, p, |At(t, p).children|, k, i);
    }
  }

  // ----- spans from the words alone -----

  lemma HullOfBoth(x: seq<Span>, s: Span, y: seq<Span>, u: Span)
    requires IsHull(x, s) && IsHull(y, u)
    ensures IsHull(x + y, SpanCover(s, u))
  {
    var z := x + y;
    if s.Span? {
      var k :| 0 <= k < |x| && x[k].Span? && x[k].lo == s.lo;
      var l :| 0 <= l < |x| && x[l].Span? && x[l].hi == s.hi;
      assert z[k] == x[k] && z[l] == x[l];
    }
    if u.Span? {
      var k :| 0 <= k < |y| && y[k].Span? && y[k].lo == u.lo;
      var l :| 0 <= l < |y| && y[l].Span? && y[l].hi == u.hi;
      assert z[|x| + k] == y[k] && z[|x| + l] == y[l];
    }
  }

  lemma HullOfOne(s: Span)
    ensures IsHull([s], s)
  {
    assert [s][0] == s;
  }

  ghost predicate WordsAt(t: Tree, words: seq<Span>, p: Path)
    requires InTree(t, p)
  {
    Start(t, p) + Yield(At(t, p)) <= |words|
  }

  ghost predicate AllSpansOk(t: Tree, f: map<Path, Span>, words: seq<Span>) {
    forall q: Path :: InTree(t, q) ==> SpanOk(t, f, words, q)
  }

  /** The span that covers the first n children reaches over their words. */
  ghost predicate ChildrenHull(t: Tree, f: map<Path, Span>, words: seq<Span>, p: Path, n: nat)
    requires InTree(t, p) && n <= |At(t, p).children|
  {
    var a, e := Start(t, p), Start(t, p) + YieldOf(At(t, p).children[..n]);
    e <= |words| && IsHull(words[a..e], CoverChildren(f, p, n))
  }

  ghost predicate NodeHull(t: Tree, f: map<Path, Span>, words: seq<Span>, p: Path)
    requires InTree(t, p)
  {
    p in f && WordsAt(t, words, p) && IsHull(words[Start(t, p)..Start(t, p) + Yield(At(t, p))], f[p])
  }

  /** Every node's span reaches from the least to the greatest foreign position of the words under it. */
  lemma {:induction false} SpanIsWordsHull(t: Tree, f: map<Path, Span>, words: seq<Span>, p: Path)
    requires InTree(t, p) && |words| == Yield(t) && AllSpansOk(t, f, words)
    ensures WordsAt(t, words, p) && p in f && IsHull(words[Start(t, p)..Start(t, p) + Yield(At(t, p))], f[p])
    decreases At(t, p), 1
  {
    WordsWithin(t, p);
    assert SpanOk(t, f, words, p);
    var n := |At(t, p).children|;
    if n == 0 {
      HullOfOne(f[p]);
      assert words[Start(t, p)..Start(t, p) + 1] == [words[Start(t, p)]];
    } else {
      ChildrenWordsHull(t, f, words, p, n);
      assert At(t, p).children[..n] == At(t, p).children;
    }
  }

  lemma {:induction false} ChildrenWordsHull(t: Tree, f: map<Path, Span>, words: seq<Span>, p: Path, n: nat)
    requires InTree(t, p) && |words| == Yield(t) && AllSpansOk(t, f, words) && n <= |At(t, p).children|
    ensures ChildrenHull(t, f, words, p, n)
    decreases At(t, p), 0, n
  {
    WordsWithin(t, p);
    if n == 0 {
      NoWordsHull(t, f, words, p);
    } else {
      ChildAt(t, p, n - 1);
      hide AllSpansOk, SpanOk, IsHull, SpanCover, CoverChildren, InTree, At, Start, Yield, YieldOf, ChildrenHull;
      ChildrenWordsHull(t, f, words, p, n - 1);
      SpanIsWordsHull(t, f, words, p + [n - 1]);
      NextChildHull(t, f, words, p, n);
    }
  }

  lemma NoWordsHull(t: Tree, f: map<Path, Span>, words: seq<Span>, p: Path)
    requires InTree(t, p) && Start(t, p) + Yield(At(t, p)) <= |words|
    ensures ChildrenHull(t, f, words, p, 0)
  {
    assert words[Start(t, p)..Start(t, p)] == [];
  }

  lemma NextChildHull(t: Tree, f: map<Path, Span>, words: seq<Span>, p: Path, n: nat)
    requires InTree(t, p) && 0 < n <= |At(t, p).children| && InTree(t, p + [n - 1])
    requires ChildrenHull(t, f, words, p, n - 1) && NodeHull(t, f, words, p + [n - 1])
    ensures ChildrenHull(t, f, words, p, n)
  {
    ChildStarts(t, p, n);
    var child := p + [n - 1];
    hide IsHull, SpanCover, CoverChildren, InTree, At, Start, Yield, YieldOf;
    HullGrows(f, words, p, n, Start(t, p), Start(t, child), Start(t, p) + YieldOf(At(t, p).children[..n]));
  }

  lemma ChildStarts(t: Tree, p: Path, n: nat)
    requires InTree(t, p) && 0 < n <= |At(t, p).children| && InTree(t, p + [n - 1])
    ensures Start(t, p + [n - 1]) == Start(t, p) + YieldOf(At(t, p).children[..n - 1])
    ensures Start(t, p + [n - 1]) + Yield(At(t, p + [n - 1])) == Start(t, p) + YieldOf(At(t, p).children[..n])
  {
    ChildAt(t, p, n - 1);
    var child, children := p + [n - 1], At(t, p).children;
    assert child[..|child| - 1] == p;
    assert children[..n][..n - 1] == children[..n - 1];
  }

  lemma HullGrows(f: map<Path, Span>, words: seq<Span>, p: Path, n: nat, a: nat, b: nat, e: nat)
    requires 0 < n && a <= b <= e <= |words| && p + [n - 1] in f
    requires IsHull(words[a..b], CoverChildren(f, p, n - 1)) && IsHull(words[b..e], f[p + [n - 1]])
    ensures IsHull(words[a..e], CoverChildren(f, p, n))
  {
    hide IsHull, SpanCover;
    HullOfBoth(words[a..b], CoverChildren(f, p, n - 1), words[b..e], f[p + [n - 1]]);
    assert words[a..e] == words[a..b] + words[b..e];
  }
}
