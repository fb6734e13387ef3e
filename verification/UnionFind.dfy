/** Union by rank with path compression (util/unionfind.hh).  A node is its place in a pool. */
module UnionFind {
  import opened Numbers

  lemma {:induction false} Pow2Grows(m: nat, n: nat)
    requires m <= n
    ensures Pow2(m) <= Pow2(n)
    decreases n
  {
    if m < n { Pow2Grows(m, n - 1); }
  }

  /** Ranks rise strictly along parents. */
  ghost predicate Ranked(parent: seq<nat>, rank: seq<nat>) {
    && |parent| == |rank|
    && (forall i :: 0 <= i < |parent| ==> parent[i] < |parent| && rank[i] <= |rank|)
    && (forall i :: 0 <= i < |parent| && parent[i] != i ==> rank[i] < rank[parent[i]])
  }

  ghost function Root(parent: seq<nat>, rank: seq<nat>, i: nat): (r: nat)
    requires Ranked(parent, rank) && i < |parent|
    ensures r < |parent| && parent[r] == r && rank[i] <= rank[r] && (parent[i] != i ==> rank[i] < rank[r])
    decreases |rank| - rank[i]
  {
    if parent[i] == i then i else Root(parent, rank, parent[i])
  }

  ghost function Class(parent: seq<nat>, rank: seq<nat>, r: nat): set<nat>
    requires Ranked(parent, rank)
  {
    set i: nat | i < |parent| && Root(parent, rank, i) == r
  }

  /** The class of a root of rank k has at least 2^k nodes. */
  ghost predicate Sized(parent: seq<nat>, rank: seq<nat>)
    requires Ranked(parent, rank)
  {
    forall r :: 0 <= r < |parent| && parent[r] == r ==> Pow2(rank[r]) <= |Class(parent, rank, r)|
  }

  /** Path compression changes no node's root. */
  lemma {:induction false} CompressKeepsRoot(parent: seq<nat>, rank: seq<nat>, i: nat, j: nat)
    requires Ranked(parent, rank) && i < |parent| && j < |parent| && parent[i] != i
    ensures Ranked(parent[i := Root(parent, rank, i)], rank)
    ensures Root(parent[i := Root(parent, rank, i)], rank, j) == Root(parent, rank, j)
    decreases |rank| - rank[j]
  {
    var parent' := parent[i := Root(parent, rank, i)];
    if j == i {
      assert parent'[Root(parent, rank, i)] == Root(parent, rank, i);
    } else if parent[j] != j {
      CompressKeepsRoot(parent, rank, i, parent[j]);
    }
  }

  lemma SameRootsSameSizes(parent: seq<nat>, parent': seq<nat>, rank: seq<nat>)
    requires Ranked(parent, rank) && Ranked(parent', rank) && Sized(parent, rank)
    requires forall j :: 0 <= j < |parent| ==> Root(parent', rank, j) == Root(parent, rank, j)
    ensures Sized(parent', rank)
  {
    forall r | 0 <= r < |parent'| && parent'[r] == r ensures Pow2(rank[r]) <= |Class(parent', rank, r)| {
      assert Root(parent', rank, r) == r;
      assert parent[r] == r;
      assert Class(parent', rank, r) == Class(parent, rank, r);
    }
  }

  lemma Compressed(parent: seq<nat>, rank: seq<nat>, i: nat)
    requires Ranked(parent, rank) && Sized(parent, rank) && i < |parent| && parent[i] != i
    ensures var parent' := parent[i := Root(parent, rank, i)];
      && Ranked(parent', rank) && Sized(parent', rank)
      && forall j :: 0 <= j < |parent| ==> Root(parent', rank, j) == Root(parent, rank, j)
  {
    var parent' := parent[i := Root(parent, rank, i)];
    forall j | 0 <= j < |parent| ensures Ranked(parent', rank) && Root(parent', rank, j) == Root(parent, rank, j) {
      CompressKeepsRoot(parent, rank, i, j);
    }
    CompressKeepsRoot(parent, rank, i, i);
    SameRootsSameSizes(parent, parent', rank);
  }

  lemma RootStep(parent: seq<nat>, rank: seq<nat>, i: nat)
    requires Ranked(parent, rank) && i < |parent|
    ensures parent[i] < |parent| && Root(parent, rank, i) == if parent[i] == i then i else Root(parent, rank, parent[i])
    ensures parent[i] != i ==> rank[i] < rank[parent[i]] <= |rank|
  {}

  lemma IsRoot(parent: seq<nat>, rank: seq<nat>, i: nat)
    requires Ranked(parent, rank) && i < |parent|
    ensures var r := Root(parent, rank, i); r < |parent| && parent[r] == r && Root(parent, rank, r) == r
  {}

  // ----- hanging one root below another -----

  /** Root b is hung below root a, whose rank may rise. */
  ghost predicate Hangs(parent: seq<nat>, rank: seq<nat>, parent': seq<nat>, rank': seq<nat>, a: nat, b: nat)
    requires Ranked(parent, rank)
  {
    && a < |parent| && b < |parent| && a != b && parent[a] == a && parent[b] == b && rank[b] <= rank[a]
    && parent' == parent[b := a]
    && rank' == rank[a := if rank[a] == rank[b] then rank[a] + 1 else rank[a]]
  }

  lemma ClassFits(parent: seq<nat>, rank: seq<nat>, r: nat)
    requires Ranked(parent, rank)
    ensures |Class(parent, rank, r)| <= |parent|
  {
    var all := Below(|parent|);
    forall i | i in Class(parent, rank, r) ensures i in all {}
    Subset(Class(parent, rank, r), all);
  }

  ghost function Below(n: nat): (s: set<nat>)
    ensures |s| == n && forall i: nat :: i in s <==> i < n
  {
    if n == 0 then {} else Below(n - 1) + {n - 1}
  }

  lemma Subset(a: set<nat>, b: set<nat>)
    requires a <= b
    ensures |a| <= |b|
  {
    assert b == a + (b - a);
  }

  lemma HungRanked(parent: seq<nat>, rank: seq<nat>, parent': seq<nat>, rank': seq<nat>, a: nat, b: nat)
    requires Ranked(parent, rank) && Sized(parent, rank) && Hangs(parent, rank, parent', rank', a, b)
    ensures Ranked(parent', rank')
  {
    ClassFits(parent, rank, a);
    hide Class;
  }

  lemma {:induction false} HungRoot(parent: seq<nat>, rank: seq<nat>, parent': seq<nat>, rank': seq<nat>, a: nat, b: nat, j: nat)
    requires Ranked(parent, rank) && Ranked(parent', rank') && Hangs(parent, rank, parent', rank', a, b) && j < |parent|
    ensures Root(parent', rank', j) == if Root(parent, rank, j) == b then a else Root(parent, rank, j)
    decreases |rank| - rank[j]
  {
    if j == b {
      assert Root(parent', rank', a) == a;
    } else if parent[j] != j {
      HungRoot(parent, rank, parent', rank', a, b, parent[j]);
    }
  }

  lemma HungSized(parent: seq<nat>, rank: seq<nat>, parent': seq<nat>, rank': seq<nat>, a: nat, b: nat)
    requires Ranked(parent, rank) && Sized(parent, rank) && Hangs(parent, rank, parent', rank', a, b)
    ensures Ranked(parent', rank') && Sized(parent', rank')
  {
    HungRanked(parent, rank, parent', rank', a, b);
    forall r | 0 <= r < |parent'| && parent'[r] == r ensures Pow2(rank'[r]) <= |Class(parent', rank', r)| {
      HungClass(parent, rank, parent', rank', a, b, r);
    }
  }

  lemma HungClass(parent: seq<nat>, rank: seq<nat>, parent': seq<nat>, rank': seq<nat>, a: nat, b: nat, r: nat)
    requires Ranked(parent, rank) && Sized(parent, rank) && Hangs(parent, rank, parent', rank', a, b) && Ranked(parent', rank')
    requires r < |parent'| && parent'[r] == r
    ensures Pow2(rank'[r]) <= |Class(parent', rank', r)|
  {
    hide Class;
    assert r != b && (r != a ==> parent[r] == r && rank'[r] == rank[r]);
    HungClasses(parent, rank, parent', rank', a, b, r);
    assert Pow2(rank[a]) <= |Class(parent, rank, a)| && Pow2(rank[b]) <= |Class(parent, rank, b)|;
    assert Pow2(rank[a] + 1) == 2 * Pow2(rank[a]);
  }

  lemma HungRoots(parent: seq<nat>, rank: seq<nat>, parent': seq<nat>, rank': seq<nat>, a: nat, b: nat)
    requires Ranked(parent, rank) && Hangs(parent, rank, parent', rank', a, b) && Ranked(parent', rank')
    ensures forall j: nat :: j < |parent| ==>
      Root(parent', rank', j) == if Root(parent, rank, j) == b then a else Root(parent, rank, j)
  {
    hide Root;
    forall j: nat | j < |parent|
      ensures Root(parent', rank', j) == if Root(parent, rank, j) == b then a else Root(parent, rank, j)
    {
      HungRoot(parent, rank, parent', rank', a, b, j);
    }
  }

  lemma HungClasses(parent: seq<nat>, rank: seq<nat>, parent': seq<nat>, rank': seq<nat>, a: nat, b: nat, r: nat)
    requires Ranked(parent, rank) && Hangs(parent, rank, parent', rank', a, b) && Ranked(parent', rank') && r != b
    ensures r == a ==> |Class(parent', rank', a)| == |Class(parent, rank, a)| + |Class(parent, rank, b)|
    ensures r != a ==> Class(parent', rank', r) == Class(parent, rank, r)
  {
    hide Root, Ranked;
    HungRoots(parent, rank, parent', rank', a, b);
    var ca, cb := Class(parent, rank, a), Class(parent, rank, b);
    if r == a {
      assert Class(parent', rank', a) == ca + cb && ca !! cb;
      assert |ca + cb| == |ca| + |cb|;
    }
  }

  // ----- chains of parents -----

  ghost function Depth(parent: seq<nat>, rank: seq<nat>, i: nat): nat
    requires Ranked(parent, rank) && i < |parent|
    decreases |rank| - rank[i]
  {
    if parent[i] == i then 0 else 1 + Depth(parent, rank, parent[i])
  }

  /** A chain of d parents needs a class of 2^d nodes. */
  lemma {:induction false} DepthIsLogarithmic(parent: seq<nat>, rank: seq<nat>, i: nat)
    requires Ranked(parent, rank) && Sized(parent, rank) && i < |parent|
    ensures Depth(parent, rank, i) + rank[i] <= rank[Root(parent, rank, i)]
    ensures Pow2(Depth(parent, rank, i)) <= |Class(parent, rank, Root(parent, rank, i))| <= |parent|
    decreases |rank| - rank[i]
  {
    if parent[i] != i { DepthIsLogarithmic(parent, rank, parent[i]); }
    Pow2Grows(Depth(parent, rank, i), rank[Root(parent, rank, i)]);
    ClassFits(parent, rank, Root(parent, rank, i));
  }

  class Pool {
    var parent: seq<nat>
    var rank: seq<nat>

    ghost predicate Valid()
      reads this
    {
      Ranked(parent, rank) && Sized(parent, rank)
    }

    ghost function RootOf(i: nat): nat
      requires Ranked(parent, rank) && i < |parent|
      reads this
    {
      Root(parent, rank, i)
    }

    /** n nodes, each its own parent. */
    constructor (n: nat)
      ensures Valid() && |parent| == n && forall i :: 0 <= i < n ==> RootOf(i) == i
    {
      parent, rank := seq(n, i => i), seq(n, _ => 0);
      new;
      forall r | 0 <= r < n ensures 1 <= |Class(parent, rank, r)| {
        assert r in Class(parent, rank, r);
      }
    }

    method Repr(i: nat) returns (r: nat)
      requires Valid() && i < |parent|
      modifies this`parent
      ensures Valid() && |parent| == old(|parent|) && r == old(RootOf(i)) == parent[i]
      ensures forall j :: 0 <= j < |parent| ==> RootOf(j) == old(RootOf(j))
      decreases |rank| - rank[i]
    {
      hide Root, Sized, Ranked;
      RootStep(parent, rank, i);
      if parent[i] != i {
        r := Repr(parent[i]);
        assert RootOf(i) == old(RootOf(i));
        StillBelow(old(parent), parent, rank, i);
        Compressed(parent, rank, i);
        parent := parent[i := r];
      }
      r := parent[i];
    }

    /** merge: unites exactly the two classes. */
    method Merge(a: nat, b: nat) returns (w: nat)
      requires Valid() && a < |parent| && b < |parent|
      modifies this
      ensures Valid() && |parent| == old(|parent|) && (w == old(RootOf(a)) || w == old(RootOf(b)))
      ensures forall j :: 0 <= j < |parent| ==>
        RootOf(j) == if old(RootOf(j)) == old(RootOf(a)) || old(RootOf(j)) == old(RootOf(b)) then w else old(RootOf(j))
    {
      hide Root, Sized, Ranked;
      var ra := Repr(a);
      IsRoot(parent, rank, a);
      var rb := Repr(b);
      IsRoot(parent, rank, a);
      IsRoot(parent, rank, b);
      w := MergeRoots(ra, rb);
    }

    /** unionMergeRoots */
    method MergeRoots(a: nat, b: nat) returns (w: nat)
      requires Valid() && a < |parent| && b < |parent| && parent[a] == a && parent[b] == b
      modifies this
      ensures Valid() && |parent| == old(|parent|) && (w == a || w == b)
      ensures forall j :: 0 <= j < |parent| ==> RootOf(j) == if old(RootOf(j)) == a || old(RootOf(j)) == b then w else old(RootOf(j))
    {
      if a == b { return a; }
      ghost var p, k := parent, rank;
      if rank[a] < rank[b] {
        parent := parent[a := b];
        w := b;
        assert rank == k[b := k[b]];
        Hung(p, k, b, a);
      } else {
        if rank[a] == rank[b] {
          rank := rank[a := rank[a] + 1];
        }
        parent := parent[b := a];
        w := a;
        assert k == k[a := k[a]];
        Hung(p, k, a, b);
      }
    }

    lemma Hung(p: seq<nat>, k: seq<nat>, a: nat, b: nat)
      requires Ranked(p, k) && Sized(p, k) && Hangs(p, k, parent, rank, a, b)
      ensures Valid()
      ensures forall j :: 0 <= j < |parent| ==> RootOf(j) == if Root(p, k, j) == b then a else Root(p, k, j)
    {
      HungSized(p, k, parent, rank, a, b);
      forall j | 0 <= j < |p| ensures RootOf(j) == if Root(p, k, j) == b then a else Root(p, k, j) {
        HungRoot(p, k, parent, rank, a, b, j);
      }
    }
  }

  /** A node whose root is another node is not its own parent. */
  lemma StillBelow(parent: seq<nat>, parent': seq<nat>, rank: seq<nat>, i: nat)
    requires Ranked(parent, rank) && Ranked(parent', rank) && i < |parent| == |parent'| && parent[i] != i
    requires Root(parent', rank, i) == Root(parent, rank, i)
    ensures parent'[i] != i
  {}
}
