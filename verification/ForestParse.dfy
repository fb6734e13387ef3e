/** The two readers of forests (forest-em/forest.hpp): the member that fills a space it is given, and the function that
  * takes node after node from an allocator. */
module ForestParse {
  import opened Forests
  import opened ForestText
  import opened Options

  /** `in >> c` passes over white space. */
  function SkipSpaces(toks: seq<Token>): (r: seq<Token>)
    ensures |r| <= |toks|
  {
    if |toks| > 0 && toks[0] == Space then SkipSpaces(toks[1..]) else toks
  }

  /** The number after a '#', and what follows it. */
  function ReadId(toks: seq<Token>): (r: Option<(nat, seq<Token>)>)
    ensures r.Some? ==> |r.value.1| < |toks|
  {
    var rest := SkipSpaces(toks);
    if |rest| > 0 && rest[0].Num? then Some((rest[0].n, rest[1..])) else None
  }

  // ----- the reader that is given its space -----

  /** The space, the first unused node of it, the nodes whose end is still to be written, whether a '(' came just before,
    * and the nodes by id. */
  datatype Area = Area(nodes: seq<ForestNode>, stop: nat, open: seq<nat>, followsParen: bool, refs: map<nat, nat>)

  datatype Outcome<S> = Fail | Done(forest: seq<ForestNode>) | More(st: S, toks: seq<Token>)

  /** end() is the end of node 0: where the space ends, until a parenthesis opened at node 0 is closed.  It is never
    * beyond the space. */
  function Limit(nodes: seq<ForestNode>): nat {
    if |nodes| == 0 then 0 else if nodes[0].next <= |nodes| then nodes[0].next else |nodes|
  }

  /** All the space is there to be used. */
  ghost predicate Whole(nodes: seq<ForestNode>) {
    |nodes| > 0 && nodes[0].next == |nodes|
  }

  /** One turn of the loop.  A '#' with an id that was never defined, and a ')' too many, are errors here. */
  function SpaceStep(st: Area, toks: seq<Token>): (r: Outcome<Area>)
    ensures r.More? ==> |r.toks| < |toks|
  {
    if st.stop != 0 && st.open == [] then
      if st.stop <= |st.nodes| then Done(st.nodes[0 := st.nodes[0].(next := st.stop)][..st.stop]) else Fail
    else if st.stop >= Limit(st.nodes) || |toks| == 0 then Fail
    else match toks[0]
      case Space => More(st, toks[1..])
      case Hash =>
        if st.followsParen then Fail else
        (match ReadId(toks[1..])
          case None => Fail
          case Some((id, rest)) =>
            if |rest| == 0 then Fail
            else if rest[0] == LPar then More(st.(refs := st.refs[id := st.stop]), rest)
            else if id !in st.refs then Fail
            else More(st.(nodes := st.nodes[st.stop := ForestNode(st.stop + 1, Ref(st.refs[id]))], stop := st.stop + 1), rest))
      case LPar => More(st.(followsParen := true, open := st.open + [st.stop]), toks[1..])
      case Num(rule) =>
        if rule == 0 then Fail
        else if !st.followsParen then
          More(st.(nodes := st.nodes[st.stop := ForestNode(st.stop + 1, Rule(rule))], stop := st.stop + 1), toks[1..])
        else
          More(st.(nodes := st.nodes[st.stop := st.nodes[st.stop].(lab := Rule(rule))], stop := st.stop + 1, followsParen := false), toks[1..])
      case Or =>
        if !st.followsParen then Fail else
        More(st.(nodes := st.nodes[st.stop := st.nodes[st.stop].(lab := Rule(OR_INT))], stop := st.stop + 1, followsParen := false), toks[1..])
      case RPar =>
        if st.open == [] || st.open[|st.open| - 1] >= |st.nodes| then Fail else
        var top := st.open[|st.open| - 1];
        More(st.(nodes := st.nodes[top := st.nodes[top].(next := st.stop)], open := st.open[..|st.open| - 1]), toks[1..])
  }

  function ReadSpace(st: Area, toks: seq<Token>): Option<seq<ForestNode>>
    decreases |toks|
  {
    match SpaceStep(st, toks)
    case Fail => None
    case Done(forest) => Some(forest)
    case More(st', toks') => ReadSpace(st', toks')
  }

  class SpaceReader {
    var nodes: array<ForestNode>
    var stop: nat
    var openParens: seq<nat>
    var followsParen: bool
    var backrefs: map<nat, nat>

    /** FForest::read sets the end before it reads. */
    constructor (capacity: nat)
      requires capacity > 0
      ensures State() == Area(nodes[..], 0, [], false, map[]) && Whole(nodes[..]) && nodes.Length == capacity && fresh(nodes)
    {
      nodes := new ForestNode[capacity](_ => ForestNode(capacity, Rule(0)));
      stop, openParens, followsParen, backrefs := 0, [], false, map[];
    }

    ghost function State(): Area
      reads this, nodes
    {
      Area(nodes[..], stop, openParens, followsParen, backrefs)
    }

    /** FForest::GENIO_read */
    method Read(input: seq<Token>) returns (r: Option<seq<ForestNode>>)
      requires nodes.Length > 0 && nodes[0].next <= nodes.Length && stop <= nodes.Length
      modifies this, nodes
      ensures r == old(ReadSpace(State(), input))
    {
      hide SpaceStep;
      var toks := input;
      while stop == 0 || openParens != []
        invariant nodes == old(nodes) && nodes.Length > 0 && nodes[0].next <= nodes.Length && stop <= nodes.Length
        invariant ReadSpace(State(), toks) == old(ReadSpace(State(), input))
        decreases |toks|
      {
        if stop >= nodes[0].next || |toks| == 0 {
          StepAtEnd(State(), toks);
          return None;
        }
        var ok;
        ok, toks := Turn(toks);
        if !ok { return None; }
      }
      StepAtEnd(State(), toks);
      nodes[0] := nodes[0].(next := stop);
      r := Some(nodes[..stop]);
    }

    /** What the loop does with the next token. */
    method Turn(input: seq<Token>) returns (ok: bool, toks: seq<Token>)
      requires Running(State()) && |input| > 0 && nodes[0].next <= nodes.Length
      modifies this`stop, this`openParens, this`followsParen, this`backrefs, nodes
      ensures old(SpaceStep(State(), input)) == if ok then More(State(), toks) else Fail
      ensures |toks| < |input| && nodes[0].next <= nodes.Length && stop <= nodes.Length
    {
      hide ReadId;
      var c := input[0];
      ok, toks := false, input[1..];
      match c {
        case Space =>
        case Hash =>
          if followsParen { return; }
          var idRest := ReadId(toks);
          if idRest.None? { return; }
          var id := idRest.value.0;
          toks := idRest.value.1;
          if |toks| == 0 { return; }
          if toks[0] == LPar {
            backrefs := backrefs[id := stop];
          } else {
            if id !in backrefs { return; }
            Put(ForestNode(stop + 1, Ref(backrefs[id])));
          }
        case LPar =>
          followsParen := true;
          openParens := openParens + [stop];
        case Num(rule) =>
          if rule == 0 { return; }
          if !followsParen {
            Put(ForestNode(stop + 1, Rule(rule)));
          } else {
            followsParen := false;
            Put(nodes[stop].(lab := Rule(rule)));
          }
        case Or =>
          if !followsParen { return; }
          followsParen := false;
          Put(nodes[stop].(lab := Rule(OR_INT)));
        case RPar =>
          if openParens == [] || openParens[|openParens| - 1] >= nodes.Length { return; }
          var top := openParens[|openParens| - 1];
          ghost var before := nodes[..];
          nodes[top] := nodes[top].(next := stop);
          openParens := openParens[..|openParens| - 1];
          assert nodes[..] == before[top := before[top].(next := stop)];
      }
      ok := true;
    }

    /** *stop++ = node */
    method Put(node: ForestNode)
      requires stop < nodes.Length
      modifies this`stop, nodes
      ensures State() == old(State()).(nodes := old(nodes[..])[old(stop) := node], stop := old(stop) + 1)
    {
      nodes[stop] := node;
      assert nodes[..] == old(nodes[..])[stop := node];
      stop := stop + 1;
    }
  }

  /** When the loop ends, or finds no room or no more text. */
  lemma StepAtEnd(st: Area, toks: seq<Token>)
    ensures st.stop != 0 && st.open == [] ==>
      SpaceStep(st, toks) == if st.stop <= |st.nodes| then Done(st.nodes[0 := st.nodes[0].(next := st.stop)][..st.stop]) else Fail
    ensures (st.stop == 0 || st.open != []) && (st.stop >= Limit(st.nodes) || |toks| == 0) ==> SpaceStep(st, toks) == Fail
  {}

  // ----- reading what was printed -----

  /** The open nodes at p: inner nodes before p, outermost first, none of which ends before p. */
  ghost predicate Opened(f: seq<ForestNode>, p: nat, s: seq<nat>) {
    && p <= |f|
    && (forall k :: 0 <= k < |s| ==> s[k] < p && p <= f[s[k]].next)
    && (forall k, m :: 0 <= k < m < |s| ==> s[k] < s[m] && f[s[m]].next <= f[s[k]].next)
    && (|s| > 0 ==> s[0] == 0)
    && (p > 0 && |f| > 1 ==> |s| > 0)
  }

  /** Nodes before p are as in f, but for the ends of those that are open. */
  ghost predicate SameNodes(f: seq<ForestNode>, p: nat, s: seq<nat>, nodes: seq<ForestNode>) {
    && p <= |f| && p <= |nodes|
    && forall j :: 0 <= j < p ==> nodes[j].lab == f[j].lab && (j !in s ==> nodes[j].next == f[j].next)
  }

  ghost predicate SameRefs(f: seq<ForestNode>, ids: seq<nat>, p: nat, refs: map<nat, nat>) {
    p <= |ids| && forall j :: 0 <= j < p && ids[j] > 0 ==> ids[j] in refs && refs[ids[j]] == j
  }

  ghost predicate SpaceAt(f: seq<ForestNode>, ids: seq<nat>, p: nat, s: seq<nat>, st: Area) {
    && st.stop == p && st.open == s && !st.followsParen && |st.nodes| > |f|
    && ((p > 0 && s == []) || Whole(st.nodes))
    && Opened(f, p, s) && SameNodes(f, p, s, st.nodes) && SameRefs(f, ids, p, st.refs)
  }

  ghost predicate Running(st: Area) {
    (st.stop == 0 || st.open != []) && st.stop < Limit(st.nodes)
  }

  lemma ReadRPar(st: Area, rest: seq<Token>)
    requires Running(st) && st.open != [] && st.open[|st.open| - 1] < |st.nodes|
    ensures var top := st.open[|st.open| - 1];
      ReadSpace(st, [RPar] + rest) == ReadSpace(st.(nodes := st.nodes[top := st.nodes[top].(next := st.stop)], open := st.open[..|st.open| - 1]), rest)
  {
    hide ReadId, ReadSpace;
    assert ([RPar] + rest)[1..] == rest;
    Turns(st, [RPar] + rest);
  }

  lemma ReadBlank(st: Area, rest: seq<Token>)
    requires Running(st)
    ensures ReadSpace(st, [Space] + rest) == ReadSpace(st, rest)
  {
    hide ReadId, ReadSpace;
    assert ([Space] + rest)[1..] == rest;
    Turns(st, [Space] + rest);
  }

  lemma ReadLPar(st: Area, rest: seq<Token>)
    requires Running(st)
    ensures ReadSpace(st, [LPar] + rest) == ReadSpace(st.(followsParen := true, open := st.open + [st.stop]), rest)
  {
    hide ReadId, ReadSpace;
    assert ([LPar] + rest)[1..] == rest;
    Turns(st, [LPar] + rest);
  }

  /** The label of a node just opened. */
  lemma ReadLabel(st: Area, r: nat, rest: seq<Token>)
    requires Running(st) && st.followsParen
    ensures ReadSpace(st, [if r == OR_INT then Or else Num(r)] + rest)
         == ReadSpace(st.(nodes := st.nodes[st.stop := st.nodes[st.stop].(lab := Rule(r))], stop := st.stop + 1, followsParen := false), rest)
  {
    hide ReadId, ReadSpace;
    assert ([if r == OR_INT then Or else Num(r)] + rest)[1..] == rest;
    Turns(st, [if r == OR_INT then Or else Num(r)] + rest);
  }

  lemma ReadLeaf(st: Area, r: nat, rest: seq<Token>)
    requires Running(st) && !st.followsParen && r != 0
    ensures ReadSpace(st, [Num(r)] + rest)
         == ReadSpace(st.(nodes := st.nodes[st.stop := ForestNode(st.stop + 1, Rule(r))], stop := st.stop + 1), rest)
  {
    hide ReadId, ReadSpace;
    assert ([Num(r)] + rest)[1..] == rest;
    Turns(st, [Num(r)] + rest);
  }

  lemma Turns(st: Area, toks: seq<Token>)
    requires SpaceStep(st, toks).More?
    ensures ReadSpace(st, toks) == ReadSpace(SpaceStep(st, toks).st, SpaceStep(st, toks).toks)
  {
    hide SpaceStep;
  }

  lemma ReadTheId(id: nat, rest: seq<Token>)
    ensures ([Hash, Num(id)] + rest)[0] == Hash && ReadId(([Hash, Num(id)] + rest)[1..]) == Some((id, rest))
  {
    assert ([Hash, Num(id)] + rest)[1..] == [Num(id)] + rest;
    assert ([Num(id)] + rest)[1..] == rest;
  }

  lemma ReadMark(st: Area, id: nat, rest: seq<Token>)
    requires Running(st) && !st.followsParen && |rest| > 0 && rest[0] == LPar
    ensures ReadSpace(st, [Hash, Num(id)] + rest) == ReadSpace(st.(refs := st.refs[id := st.stop]), rest)
  {
    hide ReadId, ReadSpace;
    ReadTheId(id, rest);
    Turns(st, [Hash, Num(id)] + rest);
  }

  lemma ReadRef(st: Area, id: nat, rest: seq<Token>)
    requires Running(st) && !st.followsParen && |rest| > 0 && rest[0] != LPar && id in st.refs
    ensures ReadSpace(st, [Hash, Num(id)] + rest)
         == ReadSpace(st.(nodes := st.nodes[st.stop := ForestNode(st.stop + 1, Ref(st.refs[id]))], stop := st.stop + 1), rest)
  {
    hide ReadId, ReadSpace;
    ReadTheId(id, rest);
    Turns(st, [Hash, Num(id)] + rest);
  }

  lemma CloseOne(f: seq<ForestNode>, p: nat, s: seq<nat>, nodes: seq<ForestNode>)
    requires SameNodes(f, p, s, nodes) && |s| > 0 && s[|s| - 1] < p <= |f| && p < |nodes| && f[s[|s| - 1]].next == p && Whole(nodes)
    requires forall k, m :: 0 <= k < m < |s| ==> s[k] < s[m]
    ensures Limit(nodes) == |nodes|
    ensures var top := s[|s| - 1]; var nodes' := nodes[top := nodes[top].(next := p)];
      SameNodes(f, p, s[..|s| - 1], nodes') && (|s| > 1 ==> Whole(nodes'))
  {
    assert |s| > 1 ==> s[0] < s[|s| - 1];
    forall j | j in s && j !in s[..|s| - 1] ensures j == s[|s| - 1] {}
  }

  /** Closing parentheses give their ends to the nodes that end at p. */
  lemma {:induction false} SpacePops(f: seq<ForestNode>, p: nat, s: seq<nat>, st: Area, rest: seq<Token>) returns (st': Area)
    requires 0 < p <= |f| < |st.nodes| && st.stop == p && st.open == s && SameNodes(f, p, s, st.nodes)
    requires (forall k :: 0 <= k < |s| ==> s[k] < p) && forall k, m :: 0 <= k < m < |s| ==> s[k] < s[m]
    requires s == [] || Whole(st.nodes)
    ensures ReadSpace(st, RPars(|s| - |Popped(f, s, p)|) + rest) == ReadSpace(st', rest)
    ensures st' == st.(nodes := st'.nodes, open := Popped(f, s, p)) && |st'.nodes| == |st.nodes|
    ensures SameNodes(f, p, Popped(f, s, p), st'.nodes) && (Popped(f, s, p) == [] || Whole(st'.nodes))
    decreases |s|
  {
    hide ReadSpace, SameNodes, Whole;
    if |s| > 0 && f[s[|s| - 1]].next == p {
      var top := s[|s| - 1];
      var st1 := st.(nodes := st.nodes[top := st.nodes[top].(next := p)], open := s[..|s| - 1]);
      PopOne(f, s, p);
      CloseOne(f, p, s, st.nodes);
      var s1 := Popped(f, s, p);
      assert RPars(|s| - |s1|) + rest == [RPar] + (RPars(|s| - 1 - |s1|) + rest);
      ReadRPar(st, RPars(|s| - 1 - |s1|) + rest);
      st' := SpacePops(f, p, s[..|s| - 1], st1, rest);
    } else {
      st' := st;
      assert RPars(0) + rest == rest;
    }
  }

  ghost function Deeper(f: seq<ForestNode>, p: nat, s: seq<nat>): seq<nat>
    requires p < |f|
  {
    if Internal(f, p) then s + [p] else s
  }

  /** Before node p is printed, all that ended there has been closed. */
  ghost predicate Enters(f: seq<ForestNode>, p: nat, s: seq<nat>) {
    Opened(f, p, s) && p < |f| && forall k :: 0 <= k < |s| ==> p < f[s[k]].next
  }

  lemma {:induction false} PoppedEnters(f: seq<ForestNode>, p: nat, s: seq<nat>)
    requires IsForest(f) && Opened(f, p, s) && p < |f|
    ensures Enters(f, p, Popped(f, s, p))
    decreases |s|
  {
    if |s| > 0 && f[s[|s| - 1]].next == p {
      assert |s| > 1;
      PoppedEnters(f, p, s[..|s| - 1]);
    }
  }

  lemma EntersOpens(f: seq<ForestNode>, p: nat, s: seq<nat>)
    requires IsForest(f) && Enters(f, p, s)
    ensures Opened(f, p + 1, Deeper(f, p, s))
  {
    NodeParts(f, p);
    var s1 := Deeper(f, p, s);
    forall k | 0 <= k < |s| ensures f[p].next <= f[s[k]].next && p + 1 <= f[s[k]].next {}
    hide IsForest;
  }

  lemma {:induction false} PoppedAtEnd(f: seq<ForestNode>, s: seq<nat>)
    requires IsForest(f) && forall k :: 0 <= k < |s| ==> s[k] < |f| <= f[s[k]].next
    ensures Popped(f, s, |f|) == []
    decreases |s|
  {
    if |s| > 0 {
      NodeParts(f, s[|s| - 1]);
      PoppedAtEnd(f, s[..|s| - 1]);
    }
  }

  /** The node at p, read. */
  lemma SpaceNode(f: seq<ForestNode>, ids: seq<nat>, p: nat, s: seq<nat>, st: Area, rest: seq<Token>) returns (st': Area)
    requires p < |f| && IsForest(f) && GoodIds(f, ids) && SpaceAt(f, ids, p, s, st) && Enters(f, p, s)
    requires f[p].lab.Ref? ==> |rest| > 0 && rest[0] != LPar
    ensures ReadSpace(st, NodeText(f, ids, p) + rest) == ReadSpace(st', rest)
    ensures SpaceAt(f, ids, p + 1, Deeper(f, p, s), st')
  {
    hide ReadSpace, SpaceAt, NodeText, Enters;
    if f[p].lab.Ref? {
      st' := SpaceRef(f, ids, p, s, st, rest);
    } else if Internal(f, p) {
      st' := SpaceInner(f, ids, p, s, st, rest);
    } else {
      st' := SpaceLeaf(f, ids, p, s, st, rest);
    }
  }

  lemma SpaceRef(f: seq<ForestNode>, ids: seq<nat>, p: nat, s: seq<nat>, st: Area, rest: seq<Token>) returns (st': Area)
    requires IsForest(f) && GoodIds(f, ids) && SpaceAt(f, ids, p, s, st) && Enters(f, p, s)
    requires f[p].lab.Ref? && |rest| > 0 && rest[0] != LPar
    ensures ReadSpace(st, NodeText(f, ids, p) + rest) == ReadSpace(st', rest)
    ensures SpaceAt(f, ids, p + 1, Deeper(f, p, s), st')
  {
    hide ReadSpace, SpaceAt, Opened, GoodIds, IsForest, NodeText;
    var t := f[p].lab.target;
    RefText(f, ids, p, s, st);
    ReadRef(st, ids[t], rest);
    st' := st.(nodes := st.nodes[p := ForestNode(p + 1, Ref(t))], stop := p + 1);
    RefKeeps(f, ids, p, s, st, st');
  }

  lemma RefText(f: seq<ForestNode>, ids: seq<nat>, p: nat, s: seq<nat>, st: Area)
    requires IsForest(f) && GoodIds(f, ids) && SpaceAt(f, ids, p, s, st) && Enters(f, p, s) && f[p].lab.Ref?
    ensures var t := f[p].lab.target;
      t < |ids| && ids[t] in st.refs && st.refs[ids[t]] == t && NodeText(f, ids, p) == [Hash, Num(ids[t])]
    ensures p < |st.nodes| && st.stop == p && Running(st) && !st.followsParen
  {
    NodeParts(f, p);
  }

  lemma RefKeeps(f: seq<ForestNode>, ids: seq<nat>, p: nat, s: seq<nat>, st: Area, st': Area)
    requires IsForest(f) && GoodIds(f, ids) && SpaceAt(f, ids, p, s, st) && Enters(f, p, s) && f[p].lab.Ref? && p < |st.nodes|
    requires st' == st.(nodes := st.nodes[p := ForestNode(p + 1, Ref(f[p].lab.target))], stop := p + 1)
    ensures SpaceAt(f, ids, p + 1, Deeper(f, p, s), st')
  {
    hide IsForest, GoodIds, Opened, SameNodes, SameRefs, Siblings;
    NodeParts(f, p);
    EntersOpens(f, p, s);
    LeavesAlone(f, p, s, st.nodes, ForestNode(p + 1, Ref(f[p].lab.target)));
    NoMarkAtRef(f, ids, p, st.refs);
    assert Deeper(f, p, s) == s;
  }

  lemma LeavesAlone(f: seq<ForestNode>, p: nat, s: seq<nat>, nodes: seq<ForestNode>, node: ForestNode)
    requires SameNodes(f, p, s, nodes) && p < |f| && p < |nodes| && node == f[p]
    ensures SameNodes(f, p + 1, s, nodes[p := node])
  {}

  lemma NoMarkAtRef(f: seq<ForestNode>, ids: seq<nat>, p: nat, refs: map<nat, nat>)
    requires GoodIds(f, ids) && SameRefs(f, ids, p, refs) && p < |f| && f[p].lab.Ref?
    ensures SameRefs(f, ids, p + 1, refs)
  {}

  /** A node with its mark is an opened node, after the mark. */
  lemma SpaceMark(f: seq<ForestNode>, ids: seq<nat>, p: nat, s: seq<nat>, st: Area, rest: seq<Token>) returns (st': Area)
    requires p < |f| && GoodIds(f, ids) && SpaceAt(f, ids, p, s, st) && (p == 0 || s != []) && |rest| > 0 && rest[0] == LPar
    ensures ReadSpace(st, (if ids[p] > 0 then [Hash, Num(ids[p])] else []) + rest) == ReadSpace(st', rest)
    ensures st' == st.(refs := st'.refs) && SameRefs(f, ids, p + 1, st'.refs)
  {
    hide ReadSpace;
    if ids[p] > 0 {
      ReadMark(st, ids[p], rest);
      st' := st.(refs := st.refs[ids[p] := p]);
    } else {
      assert [] + rest == rest;
      st' := st;
    }
  }

  lemma SpaceInner(f: seq<ForestNode>, ids: seq<nat>, p: nat, s: seq<nat>, st: Area, rest: seq<Token>) returns (st': Area)
    requires IsForest(f) && GoodIds(f, ids) && SpaceAt(f, ids, p, s, st) && Enters(f, p, s)
    requires f[p].lab.Rule? && Internal(f, p)
    ensures ReadSpace(st, NodeText(f, ids, p) + rest) == ReadSpace(st', rest)
    ensures SpaceAt(f, ids, p + 1, Deeper(f, p, s), st')
  {
    hide ReadSpace, IsForest, SameRefs, SameNodes, NodeText, GoodIds;
    EntersOpens(f, p, s);
    st' := SpaceOpened(f, ids, p, s, st, f[p].lab.id, rest);
    LabelsNode(f, p, s, st.nodes, f[p].lab.id);
  }

  lemma LabelsNode(f: seq<ForestNode>, p: nat, s: seq<nat>, nodes: seq<ForestNode>, r: nat)
    requires SameNodes(f, p, s, nodes) && p < |f| && p < |nodes| && f[p].lab == Rule(r)
    ensures SameNodes(f, p + 1, s + [p], nodes[p := nodes[p].(lab := Rule(r))])
  {
    var named := nodes[p := nodes[p].(lab := Rule(r))];
    forall j | 0 <= j < p + 1 ensures named[j].lab == f[j].lab && (j !in s + [p] ==> named[j].next == f[j].next) {
      assert j in s ==> j in s + [p];
      assert (s + [p])[|s|] == p;
    }
  }

  lemma InnerText(f: seq<ForestNode>, ids: seq<nat>, p: nat, r: nat, rest: seq<Token>)
    requires IsForest(f) && GoodIds(f, ids) && p < |f| && f[p].lab == Rule(r) && Internal(f, p)
    ensures |ids| == |f| && NodeText(f, ids, p) + rest
         == (if ids[p] > 0 then [Hash, Num(ids[p])] else []) + ([LPar] + ([if r == OR_INT then Or else Num(r)] + rest))
  {
    assert |ids| == |f|;
    hide IsForest, GoodIds;
  }

  lemma MarkedLeafText(f: seq<ForestNode>, ids: seq<nat>, p: nat, r: nat, rest: seq<Token>)
    requires IsForest(f) && GoodIds(f, ids) && p < |f| && f[p].lab == Rule(r) && !Internal(f, p) && |ids| == |f| && ids[p] > 0
    ensures NodeText(f, ids, p) + rest == [Hash, Num(ids[p])] + ([LPar] + ([Num(r)] + ([RPar] + rest)))
  {
    hide IsForest, GoodIds;
  }

  lemma SpaceOpened(f: seq<ForestNode>, ids: seq<nat>, p: nat, s: seq<nat>, st: Area, r: nat, rest: seq<Token>) returns (st': Area)
    requires IsForest(f) && GoodIds(f, ids) && SpaceAt(f, ids, p, s, st) && (p == 0 || s != [])
    requires p < |f| && f[p].lab == Rule(r) && Internal(f, p)
    ensures ReadSpace(st, NodeText(f, ids, p) + rest) == ReadSpace(st', rest)
    ensures st' == st.(nodes := st.nodes[p := st.nodes[p].(lab := Rule(r))], stop := p + 1, open := s + [p], refs := st'.refs)
    ensures SameRefs(f, ids, p + 1, st'.refs)
  {
    hide ReadSpace, SameRefs, GoodIds, IsForest, SameNodes, Opened, NodeText;
    var lab := [if r == OR_INT then Or else Num(r)];
    InnerText(f, ids, p, r, rest);
    var marked := SpaceMark(f, ids, p, s, st, [LPar] + (lab + rest));
    ReadLPar(marked, lab + rest);
    var begun := marked.(followsParen := true, open := s + [p]);
    ReadLabel(begun, r, rest);
    st' := begun.(nodes := st.nodes[p := st.nodes[p].(lab := Rule(r))], stop := p + 1, followsParen := false);
  }

  lemma SpaceLeaf(f: seq<ForestNode>, ids: seq<nat>, p: nat, s: seq<nat>, st: Area, rest: seq<Token>) returns (st': Area)
    requires IsForest(f) && GoodIds(f, ids) && SpaceAt(f, ids, p, s, st) && Enters(f, p, s)
    requires f[p].lab.Rule? && !Internal(f, p)
    ensures ReadSpace(st, NodeText(f, ids, p) + rest) == ReadSpace(st', rest)
    ensures SpaceAt(f, ids, p + 1, Deeper(f, p, s), st')
  {
    hide ReadSpace, SameRefs, IsForest;
    NodeParts(f, p);
    EntersOpens(f, p, s);
    var r := f[p].lab.id;
    if ids[p] > 0 {
      st' := SpaceMarkedLeaf(f, ids, p, s, st, r, rest);
      assert SameNodes(f, p + 1, s, st'.nodes);
    } else {
      ReadLeaf(st, r, rest);
      st' := st.(nodes := st.nodes[p := ForestNode(p + 1, Rule(r))], stop := p + 1);
      assert SameRefs(f, ids, p + 1, st'.refs) by { NoMark(f, ids, p, st.refs); }
    }
  }

  lemma NoMark(f: seq<ForestNode>, ids: seq<nat>, p: nat, refs: map<nat, nat>)
    requires SameRefs(f, ids, p, refs) && p < |ids| && ids[p] == 0
    ensures SameRefs(f, ids, p + 1, refs)
  {}

  lemma SpaceMarkedLeaf(f: seq<ForestNode>, ids: seq<nat>, p: nat, s: seq<nat>, st: Area, r: nat, rest: seq<Token>) returns (st': Area)
    requires IsForest(f) && GoodIds(f, ids) && SpaceAt(f, ids, p, s, st) && (p == 0 || s != [])
    requires p < |f| == |ids| && f[p].lab == Rule(r) && !Internal(f, p) && ids[p] > 0 && r != OR_INT
    ensures ReadSpace(st, NodeText(f, ids, p) + rest) == ReadSpace(st', rest)
    ensures st' == st.(nodes := st.nodes[p := ForestNode(p + 1, Rule(r))], stop := p + 1, refs := st'.refs)
    ensures SameRefs(f, ids, p + 1, st'.refs)
  {
    hide ReadSpace, SameRefs, GoodIds, IsForest, SameNodes, Opened, NodeText;
    var tail := [Num(r)] + ([RPar] + rest);
    MarkedLeafText(f, ids, p, r, rest);
    var marked := SpaceMark(f, ids, p, s, st, [LPar] + tail);
    ReadLPar(marked, tail);
    var begun := marked.(followsParen := true, open := s + [p]);
    assert [if r == OR_INT then Or else Num(r)] == [Num(r)];
    ReadLabel(begun, r, [RPar] + rest);
    var named := begun.(nodes := st.nodes[p := st.nodes[p].(lab := Rule(r))], stop := p + 1, followsParen := false);
    ReadRPar(named, rest);
    assert (s + [p])[..|s|] == s;
    st' := named.(nodes := named.nodes[p := named.nodes[p].(next := p + 1)], open := s);
  }

  lemma RestStarts(f: seq<ForestNode>, ids: seq<nat>, p: nat, s: seq<nat>)
    requires IsForest(f) && GoodIds(f, ids) && 0 < p <= |f| && (p == |f| ==> |s| > 0)
    ensures |TextFrom(f, ids, p, s)| > 0 && TextFrom(f, ids, p, s)[0] != LPar
  {
    hide NodeText;
  }

  /** Whatever is left to print is read back. */
  lemma {:induction false} SpaceReadsText(f: seq<ForestNode>, ids: seq<nat>, p: nat, s: seq<nat>, st: Area)
    requires IsForest(f) && GoodIds(f, ids) && SpaceAt(f, ids, p, s, st)
    ensures ReadSpace(st, TextFrom(f, ids, p, s)) == Some(f)
    decreases |f| - p
  {
    hide ReadSpace, NodeText, TextFrom, Popped, IsForest, GoodIds;
    if p == |f| {
      SpaceEnds(f, ids, s, st);
    } else {
      var s1 := Popped(f, s, p);
      var s2 := Deeper(f, p, s1);
      PoppedEnters(f, p, s);
      EntersOpens(f, p, s1);
      var later := TextFrom(f, ids, p + 1, s2);
      TextStep(f, ids, p, s);
      NodeParts(f, p);
      assert f[p].lab.Ref? ==> |s2| > 0;
      hide Opened;
      var st1 := SpaceEnters(f, ids, p, s, st, NodeText(f, ids, p) + later);
      if f[p].lab.Ref? { RestStarts(f, ids, p + 1, s2); }
      var st2 := SpaceNode(f, ids, p, s1, st1, later);
      SpaceReadsText(f, ids, p + 1, s2, st2);
    }
  }

  lemma TextStep(f: seq<ForestNode>, ids: seq<nat>, p: nat, s: seq<nat>)
    requires IsForest(f) && GoodIds(f, ids) && p < |f|
    ensures var s1 := Popped(f, s, p);
      TextFrom(f, ids, p, s) == RPars(|s| - |s1|) + ((if p > 0 then [Space] else []) +
                                (NodeText(f, ids, p) + TextFrom(f, ids, p + 1, Deeper(f, p, s1))))
  {
    hide *;
    var s1 := Popped(f, s, p);
    TextUnfolds(f, ids, p, s);
    RegroupTokens(RPars(|s| - |s1|), if p > 0 then [Space] else [], NodeText(f, ids, p), TextFrom(f, ids, p + 1, Deeper(f, p, s1)));
  }

  lemma TextUnfolds(f: seq<ForestNode>, ids: seq<nat>, p: nat, s: seq<nat>)
    requires IsForest(f) && GoodIds(f, ids) && p < |f|
    ensures var s1 := Popped(f, s, p);
      TextFrom(f, ids, p, s)
        == RPars(|s| - |s1|) + (if p > 0 then [Space] else []) + NodeText(f, ids, p) + TextFrom(f, ids, p + 1, Deeper(f, p, s1))
  {
    hide IsForest, GoodIds, NodeText, RPars, Popped;
  }

  lemma RegroupTokens(a: seq<Token>, b: seq<Token>, c: seq<Token>, d: seq<Token>)
    ensures a + b + c + d == a + (b + (c + d))
  {}

  lemma SpaceEnters(f: seq<ForestNode>, ids: seq<nat>, p: nat, s: seq<nat>, st: Area, rest: seq<Token>) returns (st': Area)
    requires IsForest(f) && SpaceAt(f, ids, p, s, st) && p < |f| && Enters(f, p, Popped(f, s, p))
    ensures ReadSpace(st, RPars(|s| - |Popped(f, s, p)|) + ((if p > 0 then [Space] else []) + rest)) == ReadSpace(st', rest)
    ensures SpaceAt(f, ids, p, Popped(f, s, p), st')
  {
    hide ReadSpace;
    if p == 0 {
      assert s == [];
      st' := st;
      assert RPars(0) + ([] + rest) == rest;
    } else {
      st' := SpacePops(f, p, s, st, [Space] + rest);
      ReadBlank(st', rest);
    }
  }

  lemma SpaceEnds(f: seq<ForestNode>, ids: seq<nat>, s: seq<nat>, st: Area)
    requires IsForest(f) && GoodIds(f, ids) && SpaceAt(f, ids, |f|, s, st)
    ensures ReadSpace(st, TextFrom(f, ids, |f|, s)) == Some(f)
  {
    hide ReadSpace, GoodIds, NodeOk;
    PoppedAtEnd(f, s);
    var st' := SpacePops(f, |f|, s, st, []);
    assert RPars(|s|) + [] == RPars(|s|);
    ReadNothing(st');
    AllSame(f, st'.nodes);
  }

  lemma ReadNothing(st: Area)
    requires 0 < st.stop < |st.nodes| && st.open == []
    ensures ReadSpace(st, []) == Some(st.nodes[0 := st.nodes[0].(next := st.stop)][..st.stop])
  {}

  lemma AllSame(f: seq<ForestNode>, nodes: seq<ForestNode>)
    requires 0 < |f| < |nodes| && SameNodes(f, |f|, [], nodes) && f[0].next == |f|
    ensures nodes[0 := nodes[0].(next := |f|)][..|f|] == f
  {}

  /** A space with one node to spare reads back what was printed: labels, ends and references. */
  lemma SpaceRoundTrip(f: seq<ForestNode>, ids: seq<nat>, st: Area)
    requires IsForest(f) && GoodIds(f, ids) && st == Area(st.nodes, 0, [], false, map[]) && Whole(st.nodes) && |st.nodes| > |f|
    ensures ReadSpace(st, TextFrom(f, ids, 0, [])) == Some(f)
  {
    SpaceReadsText(f, ids, 0, [], st);
  }
}
