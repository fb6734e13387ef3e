/** Printing a forest (FForest::print, forest-em/forest.hpp).  A text is a sequence of tokens: a number is one token. */
module ForestText {
  import opened Forests

  datatype Token = Hash | Num(n: nat) | LPar | RPar | Or | Space

  /** The ids given to nodes that are referred to: positive and distinct; 0 for the others. */
  ghost predicate GoodIds(f: seq<ForestNode>, ids: seq<nat>) {
    && |ids| == |f|
    && (forall i :: 0 <= i < |f| && f[i].lab.Ref? ==> f[i].lab.target < |f| && ids[f[i].lab.target] > 0)
    && (forall j :: 0 <= j < |f| && ids[j] > 0 ==> f[j].lab.Rule?)
    && (forall j, k :: 0 <= j < |f| && 0 <= k < |f| && ids[j] == ids[k] > 0 ==> j == k)
  }

  method AssignBackrefIds(f: seq<ForestNode>) returns (ids: seq<nat>)
    requires IsForest(f)
    ensures GoodIds(f, ids)
  {
    ids := seq(|f|, _ => 0);
    var lastId := 0;
    for p := 0 to |f|
      invariant |ids| == |f|
      invariant forall i :: 0 <= i < p && f[i].lab.Ref? ==> f[i].lab.target < |f| && ids[f[i].lab.target] > 0
      invariant forall j :: 0 <= j < |f| && ids[j] > 0 ==> f[j].lab.Rule? && ids[j] <= lastId
      invariant forall j, k :: 0 <= j < |f| && 0 <= k < |f| && ids[j] == ids[k] > 0 ==> j == k
    {
      if f[p].lab.Ref? {
        NodeParts(f, p);
        var index := f[p].lab.target;
        if ids[index] == 0 {
          lastId := lastId + 1;
          ids := ids[index := lastId];
        }
      }
    }
  }

  ghost function RPars(n: nat): (r: seq<Token>)
    ensures |r| == n && forall k :: 0 <= k < n ==> r[k] == RPar
  {
    seq(n, _ => RPar)
  }

  function Internal(f: seq<ForestNode>, p: nat): bool
    requires p < |f|
  {
    f[p].lab.Rule? && f[p].next != p + 1
  }

  /** What is printed for one node, up to its children. */
  ghost function NodeText(f: seq<ForestNode>, ids: seq<nat>, p: nat): seq<Token>
    requires IsForest(f) && GoodIds(f, ids) && p < |f|
  {
    var mark := if ids[p] > 0 then [Hash, Num(ids[p])] else [];
    match f[p].lab
    case Ref(t) => [Hash, Num(ids[t])]
    case Rule(r) =>
      if Internal(f, p) then mark + [LPar, if r == OR_INT then Or else Num(r)]
      else if ids[p] > 0 then mark + [LPar, Num(r), RPar] else [Num(r)]
  }

  /** The open nodes s without those that end at p. */
  ghost function Popped(f: seq<ForestNode>, s: seq<nat>, p: nat): (r: seq<nat>)
    ensures r <= s
  {
    if |s| > 0 && s[|s| - 1] < |f| && f[s[|s| - 1]].next == p then Popped(f, s[..|s| - 1], p) else s
  }

  /** What is left to print at node p, with the nodes s open. */
  ghost function TextFrom(f: seq<ForestNode>, ids: seq<nat>, p: nat, s: seq<nat>): seq<Token>
    requires IsForest(f) && GoodIds(f, ids) && p <= |f|
    decreases |f| - p
  {
    if p == |f| then RPars(|s|) else
    var s1 := Popped(f, s, p);
    RPars(|s| - |s1|) + (if p > 0 then [Space] else []) + NodeText(f, ids, p)
      + TextFrom(f, ids, p + 1, if Internal(f, p) then s1 + [p] else s1)
  }

  ghost predicate EndsOf(f: seq<ForestNode>, s: seq<nat>, ends: seq<nat>) {
    && |ends| == |s| + 1 && ends[0] == |f|
    && forall k :: 0 <= k < |s| ==> s[k] < |f| && ends[k + 1] == f[s[k]].next
  }

  lemma PopOne(f: seq<ForestNode>, s: seq<nat>, p: nat)
    requires |s| > 0 && s[|s| - 1] < |f| && f[s[|s| - 1]].next == p
    ensures Popped(f, s, p) == Popped(f, s[..|s| - 1], p)
  {}

  method Print(f: seq<ForestNode>, ids: seq<nat>) returns (o: seq<Token>)
    requires IsForest(f) && GoodIds(f, ids)
    ensures o == TextFrom(f, ids, 0, [])
  {
    hide IsForest, GoodIds, NodeText, Popped, TextFrom;
    o := [];
    var ends: seq<nat>, first := [|f|], true;
    ghost var s: seq<nat> := [];
    for p := 0 to |f|
      invariant first <==> p == 0
      invariant EndsOf(f, s, ends) && o + TextFrom(f, ids, p, s) == TextFrom(f, ids, 0, [])
    {
      ghost var s0, o0 := s, o;
      o, ends, s := CloseEnded(f, p, o, ends, s);
      if first {
        first := false;
      } else {
        o := o + [Space];
      }
      var text := PrintNode(f, ids, p);
      o := o + text;
      if f[p].lab.Rule? && f[p].next != p + 1 {
        ends := ends + [f[p].next];
        s := s + [p];
      }
      PrintedOne(f, ids, p, s0, s, o0, o);
    }
    AllPrinted(f, ids, s);
    o := o + seq(|ends| - 1, _ => RPar);
  }

  lemma AllPrinted(f: seq<ForestNode>, ids: seq<nat>, s: seq<nat>)
    requires IsForest(f) && GoodIds(f, ids)
    ensures TextFrom(f, ids, |f|, s) == RPars(|s|)
  {}

  /** A ')' for each open node that ends at p. */
  method CloseEnded(f: seq<ForestNode>, p: nat, o: seq<Token>, ends: seq<nat>, ghost s: seq<nat>)
    returns (o': seq<Token>, ends': seq<nat>, ghost s': seq<nat>)
    requires p < |f| && EndsOf(f, s, ends)
    ensures EndsOf(f, s', ends') && s' == Popped(f, s, p) && o' == o + RPars(|s| - |s'|)
  {
    o', ends', s' := o, ends, s;
    while p == ends'[|ends'| - 1]
      invariant EndsOf(f, s', ends') && |s'| <= |s| && Popped(f, s', p) == Popped(f, s, p)
      invariant o' == o + RPars(|s| - |s'|)
      decreases |s'|
    {
      PopOne(f, s', p);
      o' := o' + [RPar];
      ends' := ends'[..|ends'| - 1];
      s' := s'[..|s'| - 1];
    }
    NotPopped(f, s', ends', p);
  }

  method PrintNode(f: seq<ForestNode>, ids: seq<nat>, p: nat) returns (o: seq<Token>)
    requires IsForest(f) && GoodIds(f, ids) && p < |f|
    ensures o == NodeText(f, ids, p)
  {
    var id := ids[p];
    o := [];
    if id > 0 {
      o := o + [Hash, Num(id)];
    }
    match f[p].lab
    case Ref(t) =>
      o := o + [Hash, Num(ids[t])];
    case Rule(rule) =>
      if f[p].next == p + 1 {
        if id > 0 { o := o + [LPar]; }
        o := o + [Num(rule)];
        if id > 0 { o := o + [RPar]; }
      } else {
        o := o + [LPar];
        o := o + [if rule == OR_INT then Or else Num(rule)];
      }
  }

  lemma NotPopped(f: seq<ForestNode>, s: seq<nat>, ends: seq<nat>, p: nat)
    requires EndsOf(f, s, ends) && p != ends[|ends| - 1]
    ensures Popped(f, s, p) == s
  {}

  lemma PrintedOne(f: seq<ForestNode>, ids: seq<nat>, p: nat, s0: seq<nat>, s: seq<nat>, o0: seq<Token>, o: seq<Token>)
    requires IsForest(f) && GoodIds(f, ids) && p < |f|
    requires s == if Internal(f, p) then Popped(f, s0, p) + [p] else Popped(f, s0, p)
    requires o == o0 + RPars(|s0| - |Popped(f, s0, p)|) + (if p > 0 then [Space] else []) + NodeText(f, ids, p)
    ensures o + TextFrom(f, ids, p + 1, s) == o0 + TextFrom(f, ids, p, s0)
  {
    hide IsForest, GoodIds, NodeText, RPars, Popped;
    var s1 := Popped(f, s0, p);
    var a, b, c, rest := RPars(|s0| - |s1|), if p > 0 then [Space] else [], NodeText(f, ids, p), TextFrom(f, ids, p + 1, s);
    assert TextFrom(f, ids, p, s0) == a + b + c + rest;
    Associate(o0, a, b, c, rest);
  }

  lemma Associate(o: seq<Token>, a: seq<Token>, b: seq<Token>, c: seq<Token>, rest: seq<Token>)
    ensures (o + a + b + c) + rest == o + (a + b + c + rest)
  {}
}
