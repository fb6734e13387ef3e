/** The reader that takes nodes from an allocator, and that it reads what the other one reads. */
module ForestReaders {
  import opened Forests
  import opened ForestText
  import opened Options
  import opened ForestParse

  /** The nodes taken so far; as in ForestParse for the rest. */
  datatype Stack = Stack(nodes: seq<ForestNode>, open: seq<nat>, followsParen: bool, refs: map<nat, nat>)

  function Ended(nodes: seq<ForestNode>): seq<ForestNode> {
    if |nodes| == 0 then nodes else nodes[0 := nodes[0].(next := |nodes|)]
  }

  /** One turn of the loop.  A new node's end is garbage until it is written: 0 here. */
  function AllocStep(al: Stack, toks: seq<Token>): (r: Outcome<Stack>)
    ensures r.More? ==> |r.toks| < |toks|
  {
    var next := |al.nodes|;
    if |toks| == 0 then Fail
    else match toks[0]
      case Space => More(al, toks[1..])
      case Hash =>
        if al.followsParen then Fail else
        (match ReadId(toks[1..])
          case None => Fail
          case Some((id, rest)) =>
            if |rest| == 0 then Fail
            else if rest[0] == LPar then
              More(al.(refs := al.refs[id := next], followsParen := true, open := al.open + [next]), rest[1..])
            else if id !in al.refs then Fail
            else More(al.(nodes := al.nodes + [ForestNode(next + 1, Ref(al.refs[id]))]), rest))
      case LPar => More(al.(followsParen := true, open := al.open + [next]), toks[1..])
      case Num(rule) =>
        if rule == 0 then Fail
        else if !al.followsParen then
          var nodes := al.nodes + [ForestNode(next + 1, Rule(rule))];
          if al.open == [] then Done(Ended(nodes)) else More(al.(nodes := nodes), toks[1..])
        else
          More(al.(nodes := al.nodes + [ForestNode(0, Rule(rule))], followsParen := false), toks[1..])
      case Or =>
        if !al.followsParen then Fail else
        More(al.(nodes := al.nodes + [ForestNode(0, Rule(OR_INT))], followsParen := false), toks[1..])
      case RPar =>
        if al.open == [] || al.open[|al.open| - 1] > next then Fail else
        var top := al.open[|al.open| - 1];
        var nodes := if top != next then al.nodes[top := al.nodes[top].(next := next)] else al.nodes;
        if |al.open| == 1 then Done(Ended(nodes)) else More(al.(nodes := nodes, open := al.open[..|al.open| - 1]), toks[1..])
  }

  function ReadAlloc(al: Stack, toks: seq<Token>): Option<seq<ForestNode>>
    decreases |toks|
  {
    match AllocStep(al, toks)
    case Fail => None
    case Done(forest) => Some(forest)
    case More(al', toks') => ReadAlloc(al', toks')
  }

  const EMPTY: Stack := Stack([], [], false, map[])

  /** read(std::istream&, FForest<Float>&, StackAlloc&) */
  method Read(input: seq<Token>) returns (r: Option<seq<ForestNode>>)
    ensures r == ReadAlloc(EMPTY, input)
  {
    var toks, nodes, openParens, followsParen, backrefs := input, [], [], false, map[];
    while true
      invariant ReadAlloc(Stack(nodes, openParens, followsParen, backrefs), toks) == ReadAlloc(EMPTY, input)
      decreases |toks|
    {
      if |toks| == 0 { return None; }
      var c := toks[0];
      toks := toks[1..];
      match c
      case Space =>
      case Hash =>
        if followsParen { return None; }
        var idRest := ReadId(toks);
        if idRest.None? { return None; }
        var id := idRest.value.0;
        toks := idRest.value.1;
        if |toks| == 0 { return None; }
        if toks[0] == LPar {
          toks := toks[1..];
          backrefs := backrefs[id := |nodes|];
          followsParen := true;
          openParens := openParens + [|nodes|];
        } else {
          if id !in backrefs { return None; }
          nodes := nodes + [ForestNode(|nodes| + 1, Ref(backrefs[id]))];
        }
      case LPar =>
        followsParen := true;
        openParens := openParens + [|nodes|];
      case Num(rule) =>
        if rule == 0 { return None; }
        if !followsParen {
          nodes := nodes + [ForestNode(|nodes| + 1, Rule(rule))];
          if openParens == [] { break; }
        } else {
          followsParen := false;
          nodes := nodes + [ForestNode(0, Rule(rule))];
        }
      case Or =>
        if !followsParen { return None; }
        followsParen := false;
        nodes := nodes + [ForestNode(0, Rule(OR_INT))];
      case RPar =>
        if openParens == [] { return None; }
        var top := openParens[|openParens| - 1];
        if top > |nodes| { return None; }
        if top != |nodes| {
          nodes := nodes[top := nodes[top].(next := |nodes|)];
        }
        openParens := openParens[..|openParens| - 1];
        if openParens == [] { break; }
    }
    r := Some(Ended(nodes));
  }

  // ----- the two readers agree -----

  /** No ')' comes right after a '(', white space aside; `after` says whether a '(' came just before. */
  ghost predicate Filled(toks: seq<Token>, after: bool) {
    |toks| > 0 ==>
      match toks[0]
      case Space => Filled(toks[1..], after)
      case RPar => !after && Filled(toks[1..], false)
      case _ => Filled(toks[1..], toks[0] == LPar)
  }

  lemma {:induction false} FilledId(toks: seq<Token>, after: bool)
    requires Filled(toks, after) && ReadId(toks).Some?
    ensures Filled(ReadId(toks).value.1, false)
    decreases |toks|
  {
    if toks[0] == Space { FilledId(toks[1..], after); }
  }

  /** The same nodes, but for the ends still to be written. */
  ghost predicate Agree(st: Area, al: Stack) {
    && st.stop == |al.nodes| <= |st.nodes| && st.open == al.open && st.followsParen == al.followsParen && st.refs == al.refs
    && forall j :: 0 <= j < st.stop ==> st.nodes[j].lab == al.nodes[j].lab && (j !in st.open ==> st.nodes[j].next == al.nodes[j].next)
  }

  ghost predicate Sound(al: Stack) {
    && (al.followsParen <==> al.open != [] && al.open[|al.open| - 1] == |al.nodes|)
    && (al.open == [] ==> al.nodes == [] && al.refs == map[])
    && (forall k :: 0 <= k < |al.open| ==> al.open[k] <= |al.nodes|)
    && (forall k, m :: 0 <= k < m < |al.open| ==> al.open[k] <= al.open[m])
  }

  lemma {:induction false} AllocGrows(al: Stack, toks: seq<Token>)
    requires ReadAlloc(al, toks).Some?
    ensures |ReadAlloc(al, toks).value| >= |al.nodes|
    decreases |toks|
  {
    var step := AllocStep(al, toks);
    if step.More? { AllocGrows(step.st, step.toks); }
  }

  lemma AgreeWhole(st: Area, al: Stack, node: ForestNode)
    requires Agree(st, al) && Sound(al) && st.stop < |st.nodes| && !al.followsParen
    ensures var st', al' := st.(nodes := st.nodes[st.stop := node], stop := st.stop + 1), al.(nodes := al.nodes + [node]);
      Agree(st', al') && (al.open != [] ==> Sound(al'))
  {}

  lemma AgreeBegun(st: Area, al: Stack, lab: Label)
    requires Agree(st, al) && Sound(al) && st.stop < |st.nodes| && al.followsParen
    ensures var st' := st.(nodes := st.nodes[st.stop := st.nodes[st.stop].(lab := lab)], stop := st.stop + 1, followsParen := false);
      var al' := al.(nodes := al.nodes + [ForestNode(0, lab)], followsParen := false);
      Agree(st', al') && Sound(al')
  {
    assert al.open[|al.open| - 1] in al.open;
  }

  lemma AgreeOpen(st: Area, al: Stack)
    requires Agree(st, al) && Sound(al)
    ensures var st', al' := st.(followsParen := true, open := st.open + [st.stop]), al.(followsParen := true, open := al.open + [|al.nodes|]);
      Agree(st', al') && Sound(al')
  {
    assert forall j :: j in st.open ==> j in st.open + [st.stop];
  }

  lemma AgreeClose(st: Area, al: Stack, top: nat)
    requires Agree(st, al) && Sound(al) && !al.followsParen && al.open != [] && top == al.open[|al.open| - 1]
    ensures top < |al.nodes|
    ensures var st' := st.(nodes := st.nodes[top := st.nodes[top].(next := st.stop)], open := st.open[..|st.open| - 1]);
      var al' := al.(nodes := al.nodes[top := al.nodes[top].(next := |al.nodes|)], open := al.open[..|al.open| - 1]);
      Agree(st', al') && (|al.open| > 1 ==> Sound(al'))
  {
    forall j | j in st.open && j !in st.open[..|st.open| - 1] ensures j == top {}
  }

  /** One turn, or two if the first one reads the mark of a '(': the other reader takes one for both. */
  ghost function SpaceTurn(st: Area, toks: seq<Token>): Outcome<Area> {
    var step := SpaceStep(st, toks);
    if step.More? && |toks| > 0 && toks[0] == Hash && |step.toks| > 0 && step.toks[0] == LPar then SpaceStep(step.st, step.toks) else step
  }

  /** Both fail; or go on, agreeing; or the second is done and the first is about to find the same forest. */
  ghost predicate StepsAgree(st: Area, al: Stack, toks: seq<Token>) {
    match AllocStep(al, toks)
    case Fail => SpaceStep(st, toks).Fail?
    case Done(forest) => SpaceStep(st, toks).More? && AboutToEnd(SpaceStep(st, toks).st, forest)
    case More(al', toks') => Sound(al') && Filled(toks', al'.followsParen) && Follows(SpaceTurn(st, toks), al', toks')
  }

  ghost predicate AboutToEnd(st: Area, forest: seq<ForestNode>) {
    st.stop != 0 && st.open == [] && st.stop <= |st.nodes| && forest == st.nodes[0 := st.nodes[0].(next := st.stop)][..st.stop]
  }

  ghost predicate Follows(step: Outcome<Area>, al: Stack, toks: seq<Token>) {
    step.More? && Agree(step.st, al) && step.toks == toks
  }

  lemma TurnBegun(st: Area, al: Stack, toks: seq<Token>)
    requires Agree(st, al) && Sound(al) && st.stop < Limit(st.nodes) && Filled(toks, al.followsParen)
    requires |toks| > 0 && (toks[0].Num? || toks[0].Or?) && al.followsParen
    ensures StepsAgree(st, al, toks)
  {
    assert st.open != [] && st.followsParen;
    AgreeBegun(st, al, Rule(if toks[0].Num? then toks[0].n else OR_INT));
    hide Agree, Sound, ReadId;
  }

  lemma TurnLeaf(st: Area, al: Stack, toks: seq<Token>)
    requires Agree(st, al) && Sound(al) && st.stop < Limit(st.nodes) && Filled(toks, al.followsParen)
    requires |toks| > 0 && (toks[0].Num? || toks[0].Or?) && !al.followsParen
    ensures StepsAgree(st, al, toks)
  {
    hide SpaceStep, AllocStep, Agree, Sound, Filled, AboutToEnd;
    AgreeShape(st, al);
    LeafSteps(st, al, toks);
    if toks[0].Num? && toks[0].n != 0 {
      var node := ForestNode(st.stop + 1, Rule(toks[0].n));
      AgreeWhole(st, al, node);
      FilledAfter(toks, al.followsParen);
      if al.open == [] { LeafEnds(st, al, node); }
    }
  }

  lemma AgreeShape(st: Area, al: Stack)
    requires Agree(st, al) && Sound(al)
    ensures st.stop == |al.nodes| && st.open == al.open && st.followsParen == al.followsParen && st.refs == al.refs
    ensures st.open == [] ==> st.stop == 0
  {}

  lemma FilledAfter(toks: seq<Token>, after: bool)
    requires Filled(toks, after) && |toks| > 0 && toks[0] != Space
    ensures Filled(toks[1..], toks[0] == LPar) && (toks[0] == RPar ==> !after)
  {}

  /** A number, or OR, that is not in parentheses. */
  lemma LeafSteps(st: Area, al: Stack, toks: seq<Token>)
    requires |toks| > 0 && (toks[0].Num? || toks[0].Or?) && !al.followsParen && !st.followsParen
    requires st.stop == |al.nodes| < Limit(st.nodes) && st.open == al.open && (st.open == [] ==> st.stop == 0)
    ensures toks[0].Or? || toks[0].n == 0 ==> SpaceStep(st, toks) == Fail && AllocStep(al, toks) == Fail
    ensures toks[0].Num? && toks[0].n != 0 ==> (var node := ForestNode(st.stop + 1, Rule(toks[0].n));
      && SpaceStep(st, toks) == More(st.(nodes := st.nodes[st.stop := node], stop := st.stop + 1), toks[1..])
      && AllocStep(al, toks) == if al.open == [] then Done(Ended(al.nodes + [node])) else More(al.(nodes := al.nodes + [node]), toks[1..]))
  {
    hide ReadId, Ended;
  }

  lemma LeafEnds(st: Area, al: Stack, node: ForestNode)
    requires st.stop == |al.nodes| == 0 < |st.nodes| && st.open == [] && node.next == 1
    ensures AboutToEnd(st.(nodes := st.nodes[st.stop := node], stop := st.stop + 1), Ended(al.nodes + [node]))
  {}

  lemma TurnPar(st: Area, al: Stack, toks: seq<Token>)
    requires Agree(st, al) && Sound(al) && st.stop < Limit(st.nodes) && Filled(toks, al.followsParen)
    requires |toks| > 0 && (toks[0].LPar? || toks[0].Space?)
    ensures StepsAgree(st, al, toks)
  {
    hide ReadId;
    AgreeOpen(st, al);
  }

  lemma TurnClose(st: Area, al: Stack, toks: seq<Token>)
    requires Agree(st, al) && Sound(al) && st.stop < Limit(st.nodes) && Filled(toks, al.followsParen)
    requires |toks| > 0 && toks[0].RPar?
    ensures StepsAgree(st, al, toks)
  {
    hide SpaceStep, AllocStep, Agree, Sound, Filled, AboutToEnd;
    AgreeShape(st, al);
    FilledAfter(toks, al.followsParen);
    if al.open != [] {
      AgreeClose(st, al, al.open[|al.open| - 1]);
    }
    CloseSteps(st, al, toks);
    if |al.open| == 1 { CloseEnds(st, al, al.open[0]); }
  }

  lemma CloseSteps(st: Area, al: Stack, toks: seq<Token>)
    requires |toks| > 0 && toks[0].RPar? && st.stop == |al.nodes| < Limit(st.nodes) && st.open == al.open
    requires st.open == [] ==> st.stop == 0
    requires st.open != [] ==> st.open[|st.open| - 1] < |al.nodes|
    ensures st.open == [] ==> SpaceStep(st, toks) == Fail && AllocStep(al, toks) == Fail
    ensures st.open != [] ==> (var top := st.open[|st.open| - 1];
      SpaceStep(st, toks) == More(st.(nodes := st.nodes[top := st.nodes[top].(next := st.stop)], open := st.open[..|st.open| - 1]), toks[1..]))
    ensures st.open != [] ==> (var top := st.open[|st.open| - 1]; var nodes := al.nodes[top := al.nodes[top].(next := |al.nodes|)];
      AllocStep(al, toks) == if |al.open| == 1 then Done(Ended(nodes)) else More(al.(nodes := nodes, open := al.open[..|al.open| - 1]), toks[1..]))
  {
    hide ReadId, Ended;
  }

  lemma CloseEnds(st: Area, al: Stack, top: nat)
    requires Agree(st, al) && Sound(al) && st.stop == |al.nodes| < |st.nodes| && al.open == [top] && top < |al.nodes|
    ensures var st' := st.(nodes := st.nodes[top := st.nodes[top].(next := st.stop)], open := st.open[..|st.open| - 1]);
      AboutToEnd(st', Ended(al.nodes[top := al.nodes[top].(next := |al.nodes|)]))
  {
    var nodes, nodes' := st.nodes[top := st.nodes[top].(next := st.stop)], al.nodes[top := al.nodes[top].(next := |al.nodes|)];
    forall j | 0 <= j < st.stop ensures nodes[j] == nodes'[j] {
      if j != top { assert j !in st.open; }
    }
    assert nodes[0 := nodes[0].(next := st.stop)][..st.stop] == Ended(nodes');
  }

  lemma TurnHash(st: Area, al: Stack, toks: seq<Token>)
    requires Agree(st, al) && Sound(al) && st.stop < Limit(st.nodes) && Filled(toks, al.followsParen)
    requires |toks| > 0 && toks[0].Hash?
    ensures StepsAgree(st, al, toks)
  {
    hide SpaceStep, AllocStep, Agree, Sound, Filled, AboutToEnd, ReadId;
    AgreeShape(st, al);
    FilledAfter(toks, al.followsParen);
    if al.followsParen || ReadId(toks[1..]).None? || |ReadId(toks[1..]).value.1| == 0 {
      HashFails(st, al, toks);
    } else {
      FilledId(toks[1..], false);
      var (id, rest) := ReadId(toks[1..]).value;
      HashSteps(st, al, toks, id, rest);
      if rest[0] == LPar {
        FilledAfter(rest, false);
        var st1, al1 := st.(refs := st.refs[id := st.stop]), al.(refs := al.refs[id := st.stop]);
        AgreeMarked(st, al, id);
        AgreeOpenMarked(st1, al1);
      } else if id in al.refs {
        AgreeWhole(st, al, ForestNode(st.stop + 1, Ref(al.refs[id])));
        KnownIsOpen(al, id);
      }
    }
  }

  lemma KnownIsOpen(al: Stack, id: nat)
    requires Sound(al) && id in al.refs
    ensures al.open != []
  {}

  lemma AgreeMarked(st: Area, al: Stack, id: nat)
    requires Agree(st, al) && Sound(al)
    ensures Agree(st.(refs := st.refs[id := st.stop]), al.(refs := al.refs[id := st.stop]))
    ensures (al.open == [] ==> al.nodes == []) && forall k :: 0 <= k < |al.open| ==> al.open[k] <= |al.nodes|
    ensures forall k, m :: 0 <= k < m < |al.open| ==> al.open[k] <= al.open[m]
  {}

  lemma HashFails(st: Area, al: Stack, toks: seq<Token>)
    requires |toks| > 0 && toks[0].Hash? && st.followsParen == al.followsParen && (st.open == [] ==> st.stop == 0)
    requires al.followsParen || ReadId(toks[1..]).None? || |ReadId(toks[1..]).value.1| == 0
    ensures SpaceStep(st, toks) == Fail && AllocStep(al, toks) == Fail
  {
    hide ReadId;
  }

  lemma HashSteps(st: Area, al: Stack, toks: seq<Token>, id: nat, rest: seq<Token>)
    requires |toks| > 0 && toks[0].Hash? && !al.followsParen && !st.followsParen && st.stop < Limit(st.nodes)
    requires st.stop == |al.nodes| && st.open == al.open && st.refs == al.refs && (st.open == [] ==> st.stop == 0)
    requires ReadId(toks[1..]) == Some((id, rest)) && |rest| > 0
    ensures rest[0] == LPar ==> (var st1 := st.(refs := st.refs[id := st.stop]);
      && SpaceStep(st, toks) == More(st1, rest)
      && SpaceStep(st1, rest) == More(st1.(followsParen := true, open := st.open + [st.stop]), rest[1..])
      && AllocStep(al, toks) == More(al.(refs := al.refs[id := st.stop], followsParen := true, open := al.open + [st.stop]), rest[1..]))
    ensures rest[0] != LPar && id !in al.refs ==> SpaceStep(st, toks) == Fail && AllocStep(al, toks) == Fail
    ensures rest[0] != LPar && id in al.refs ==> (var node := ForestNode(st.stop + 1, Ref(al.refs[id]));
      && SpaceStep(st, toks) == More(st.(nodes := st.nodes[st.stop := node], stop := st.stop + 1), rest)
      && AllocStep(al, toks) == More(al.(nodes := al.nodes + [node]), rest))
  {
    hide ReadId;
  }

  lemma AgreeOpenMarked(st: Area, al: Stack)
    requires Agree(st, al) && (al.open == [] ==> al.nodes == [])
    requires (forall k :: 0 <= k < |al.open| ==> al.open[k] <= |al.nodes|) && forall k, m :: 0 <= k < m < |al.open| ==> al.open[k] <= al.open[m]
    ensures var st', al' := st.(followsParen := true, open := st.open + [st.stop]), al.(followsParen := true, open := al.open + [|al.nodes|]);
      Agree(st', al') && Sound(al')
  {
    assert forall j :: j in st.open ==> j in st.open + [st.stop];
  }

  lemma StepsAgreeAlways(st: Area, al: Stack, toks: seq<Token>)
    requires Agree(st, al) && Sound(al) && st.stop < Limit(st.nodes) && Filled(toks, al.followsParen)
    ensures StepsAgree(st, al, toks)
  {
    hide Agree, Sound, Filled, StepsAgree;
    if |toks| == 0 {
      NoMore(st, al);
    } else {
      match toks[0]
      case Hash => TurnHash(st, al, toks);
      case Num(_) => if al.followsParen { TurnBegun(st, al, toks); } else { TurnLeaf(st, al, toks); }
      case Or => if al.followsParen { TurnBegun(st, al, toks); } else { TurnLeaf(st, al, toks); }
      case LPar => TurnPar(st, al, toks);
      case Space => TurnPar(st, al, toks);
      case RPar => TurnClose(st, al, toks);
    }
  }

  lemma NoMore(st: Area, al: Stack)
    requires Agree(st, al) && Sound(al) && st.stop < Limit(st.nodes)
    ensures StepsAgree(st, al, [])
  {}

  // ----- node 0 -----

  /** How many '(' come before the first node: that many open node 0. */
  function RootParens(toks: seq<Token>): (n: nat)
    decreases |toks|
  {
    if |toks| == 0 then 0
    else match toks[0]
      case Space => RootParens(toks[1..])
      case LPar => 1 + RootParens(toks[1..])
      case Hash =>
        (match ReadId(toks[1..])
          case None => 0
          case Some((_, rest)) => if |rest| > 0 && rest[0] == LPar then RootParens(rest) else 0)
      case _ => 0
  }

  /** Node 0 is opened once at most, and while it is open nothing has moved the end of the space. */
  ghost predicate Once(st: Area, toks: seq<Token>) {
    && Whole(st.nodes)
    && (st.stop == 0 ==> |st.open| + RootParens(toks) <= 1 && forall k :: 0 <= k < |st.open| ==> st.open[k] == 0)
    && (st.stop > 0 ==> st.open != [] && st.open[0] == 0 && forall k :: 0 < k < |st.open| ==> st.open[k] > 0)
  }

  /** The loop ends, or node 0 has still been opened once at most. */
  ghost predicate OnceOrOver(st: Area, toks: seq<Token>) {
    (st.stop > 0 && st.open == []) || Once(st, toks)
  }

  lemma OnceAtStart(st: Area, toks: seq<Token>)
    requires st.stop == 0 && Once(st, toks) && Filled(toks, st.followsParen) && SpaceStep(st, toks).More?
    requires st.followsParen <==> st.open != []
    requires st.open == [] ==> st.refs == map[]
    ensures OnceOrOver(SpaceStep(st, toks).st, SpaceStep(st, toks).toks)
  {
    hide ReadId;
    match toks[0]
    case Hash => OnceHash(st, toks);
    case Num(_) =>
    case Or =>
    case LPar =>
    case Space =>
    case RPar => assert !st.followsParen;
  }

  lemma OnceHash(st: Area, toks: seq<Token>)
    requires st.stop == 0 && Once(st, toks) && SpaceStep(st, toks).More? && toks[0] == Hash
    requires st.open == [] ==> st.refs == map[]
    requires st.followsParen <==> st.open != []
    ensures Once(SpaceStep(st, toks).st, SpaceStep(st, toks).toks)
  {
    hide ReadId;
    var (id, rest) := ReadId(toks[1..]).value;
    assert rest[0] == LPar;
    assert RootParens(toks) == RootParens(rest);
  }

  lemma OnceLater(st: Area, toks: seq<Token>)
    requires st.stop > 0 && Once(st, toks) && SpaceStep(st, toks).More?
    ensures OnceOrOver(SpaceStep(st, toks).st, SpaceStep(st, toks).toks)
  {
    hide ReadId, RootParens;
  }

  /** The parenthesis after a mark. */
  lemma OnceMarked(st: Area, toks: seq<Token>)
    requires Once(st, toks) && |toks| > 0 && toks[0] == LPar && SpaceStep(st, toks).More?
    ensures Once(SpaceStep(st, toks).st, SpaceStep(st, toks).toks)
  {
    hide ReadId;
  }

  /** Only a ')' ends the loop, or a number that is not in parentheses. */
  lemma MarkGoesOn(st: Area, toks: seq<Token>)
    requires Once(st, toks) && |toks| > 0 && toks[0] == Hash && SpaceStep(st, toks).More?
    requires |SpaceStep(st, toks).toks| > 0 && SpaceStep(st, toks).toks[0] == LPar
    ensures SpaceStep(st, toks).st.stop == st.stop && SpaceStep(st, toks).st.open == st.open
  {
    hide ReadId, RootParens;
  }

  lemma OnceTurn(st: Area, al: Stack, toks: seq<Token>)
    requires Agree(st, al) && Sound(al) && Once(st, toks) && Filled(toks, al.followsParen) && SpaceTurn(st, toks).More?
    ensures OnceOrOver(SpaceTurn(st, toks).st, SpaceTurn(st, toks).toks)
    ensures ReadSpace(st, toks) == ReadSpace(SpaceTurn(st, toks).st, SpaceTurn(st, toks).toks)
    ensures |SpaceTurn(st, toks).st.nodes| == |st.nodes|
  {
    OnceStep(st, al, toks);
    hide Agree, Sound, Filled, SpaceStep, AllocStep, Once, RootParens;
    var step := SpaceStep(st, toks);
    Turns(st, toks);
    SameSpace(st, toks);
    if |toks| > 0 && toks[0] == Hash && |step.toks| > 0 && step.toks[0] == LPar {
      Running0(st, toks);
      MarkGoesOn(st, toks);
      Turns(step.st, step.toks);
      SameSpace(step.st, step.toks);
      OnceMarked(step.st, step.toks);
    }
  }

  lemma Running0(st: Area, toks: seq<Token>)
    requires Once(st, toks)
    ensures st.stop == 0 || st.open != []
  {}

  lemma OnceStep(st: Area, al: Stack, toks: seq<Token>)
    requires Agree(st, al) && Sound(al) && Once(st, toks) && Filled(toks, al.followsParen) && SpaceStep(st, toks).More?
    ensures OnceOrOver(SpaceStep(st, toks).st, SpaceStep(st, toks).toks)
  {
    hide SpaceStep, Filled, OnceOrOver, RootParens;
    if st.stop == 0 {
      OnceAtStart(st, toks);
    } else {
      OnceLater(st, toks);
    }
  }

  // ----- texts that open node 0 once -----

  /** The forest is a single number. */
  predicate BareRoot(toks: seq<Token>) {
    var rest := SkipSpaces(toks);
    |rest| > 0 && rest[0].Num?
  }

  /** There is room: a node to spare, for the turn that reads the last ')', unless the forest is a single number. */
  predicate Room(st: Area, toks: seq<Token>, forest: Option<seq<ForestNode>>) {
    forest.Some? ==> |forest.value| < |st.nodes| || (st.stop == 0 && st.open == [] && BareRoot(toks))
  }

  ghost function IfRoom(st: Area, toks: seq<Token>, forest: Option<seq<ForestNode>>): Option<seq<ForestNode>> {
    if Room(st, toks, forest) then forest else None
  }

  /** From states that agree the readers find the same forest, if there is room for it. */
  lemma {:induction false} ReadersAgreeFrom(st: Area, al: Stack, toks: seq<Token>)
    requires Agree(st, al) && Sound(al) && Filled(toks, al.followsParen) && Once(st, toks)
    ensures ReadSpace(st, toks) == IfRoom(st, toks, ReadAlloc(al, toks))
    decreases |toks|
  {
    hide Agree, Sound, Filled, SpaceStep, SpaceTurn, AllocStep, Once, BareRoot, RootParens, ReadSpace, ReadAlloc, Room;
    OnceShape(st, al, toks);
    if st.stop >= |st.nodes| {
      NoRoom(st, al, toks);
    } else {
      StepsAgreeAlways(st, al, toks);
      match AllocStep(al, toks)
      case Fail => BothFail(st, al, toks);
      case Done(forest) => DoneFits(st, al, toks, forest);
      case More(al', toks') =>
        var next := SpaceTurn(st, toks);
        OnceTurn(st, al, toks);
        NotOver(next.st, al', toks');
        ReadersAgreeFrom(next.st, al', toks');
        RoomStill(st, al, toks, next.st, al', toks');
    }
  }

  lemma OnceShape(st: Area, al: Stack, toks: seq<Token>)
    requires Agree(st, al) && Once(st, toks)
    ensures Limit(st.nodes) == |st.nodes| > 0 && st.stop == |al.nodes| && st.open == al.open
    ensures st.stop == 0 || st.open != []
  {}

  lemma NoRoom(st: Area, al: Stack, toks: seq<Token>)
    requires st.stop == |al.nodes| >= |st.nodes| == Limit(st.nodes) > 0 && st.open != []
    ensures ReadSpace(st, toks) == IfRoom(st, toks, ReadAlloc(al, toks))
  {
    hide BareRoot;
    if ReadAlloc(al, toks).Some? { AllocGrows(al, toks); }
    assert SpaceStep(st, toks) == Fail;
  }

  lemma BothFail(st: Area, al: Stack, toks: seq<Token>)
    requires AllocStep(al, toks).Fail? && SpaceStep(st, toks).Fail?
    ensures ReadSpace(st, toks) == ReadAlloc(al, toks) == None
  {}

  lemma DoneFits(st: Area, al: Stack, toks: seq<Token>, forest: seq<ForestNode>)
    requires Agree(st, al) && Sound(al) && st.stop < |st.nodes|
    requires AllocStep(al, toks) == Done(forest) && SpaceStep(st, toks).More? && AboutToEnd(SpaceStep(st, toks).st, forest)
    ensures ReadSpace(st, toks) == ReadAlloc(al, toks) == Some(forest) && Room(st, toks, Some(forest))
  {
    hide Agree, Sound, SpaceStep, AllocStep, BareRoot, AboutToEnd, ReadSpace;
    Turns(st, toks);
    AtEnd(SpaceStep(st, toks).st, SpaceStep(st, toks).toks, forest);
    LastTurn(st, al, toks, forest);
  }

  lemma LastTurn(st: Area, al: Stack, toks: seq<Token>, forest: seq<ForestNode>)
    requires Agree(st, al) && Sound(al) && st.stop < |st.nodes|
    requires AllocStep(al, toks) == Done(forest)
    ensures |forest| < |st.nodes| || (st.stop == 0 && st.open == [] && BareRoot(toks))
  {
    hide ReadId;
  }

  lemma NotOver(st: Area, al: Stack, toks: seq<Token>)
    requires Agree(st, al) && Sound(al) && OnceOrOver(st, toks)
    ensures Once(st, toks)
  {
    hide Once;
  }

  lemma RoomStill(st: Area, al: Stack, toks: seq<Token>, st': Area, al': Stack, toks': seq<Token>)
    requires Agree(st, al) && Sound(al) && Agree(st', al') && AllocStep(al, toks) == More(al', toks') && |st'.nodes| == |st.nodes|
    ensures IfRoom(st, toks, ReadAlloc(al, toks)) == IfRoom(st', toks', ReadAlloc(al', toks'))
  {
    hide Sound, AllocStep, BareRoot;
    BareStill(al, toks, al', toks');
  }

  lemma BareStill(al: Stack, toks: seq<Token>, al': Stack, toks': seq<Token>)
    requires Sound(al) && AllocStep(al, toks) == More(al', toks')
    ensures al.nodes == [] && al.open == [] && BareRoot(toks) <==> al'.nodes == [] && al'.open == [] && BareRoot(toks')
  {
    hide ReadId;
  }

  /** The exact result of the first reader on a text without empty parentheses: what the other one reads, if node 0 is opened
    * once at most and there is room; otherwise it runs out of space. */
  lemma ReadersAgree(nodes: seq<ForestNode>, toks: seq<Token>)
    requires Whole(nodes) && Filled(toks, false)
    ensures var st := Area(nodes, 0, [], false, map[]);
      ReadSpace(st, toks) == if RootParens(toks) <= 1 then IfRoom(st, toks, ReadAlloc(EMPTY, toks)) else None
  {
    var st := Area(nodes, 0, [], false, map[]);
    if RootParens(toks) <= 1 {
      ReadersAgreeFrom(st, EMPTY, toks);
    } else {
      RootTwiceFails(st, toks);
    }
  }

  // ----- texts that do not -----

  /** Two '(' have opened node 0: the ')' of the second one moves the end of the space to where the next node would be. */
  lemma {:induction false} InnerRootFails(st: Area, toks: seq<Token>)
    requires |st.nodes| > 0 && |st.open| > 1 && st.open[0] == st.open[1] == 0
    ensures ReadSpace(st, toks) == None
    decreases |toks|
  {
    hide ReadSpace;
    var step := SpaceStep(st, toks);
    if step.More? {
      TwoOpen(st, toks);
      Turns(st, toks);
      hide SpaceStep;
      if |step.st.open| > 1 {
        InnerRootFails(step.st, step.toks);
      } else {
        FullStops(step.st, step.toks);
      }
    } else {
      FailStops(st, toks);
    }
  }

  lemma TwoOpen(st: Area, toks: seq<Token>)
    requires |st.nodes| > 0 && |st.open| > 1 && st.open[0] == st.open[1] == 0 && SpaceStep(st, toks).More?
    ensures |SpaceStep(st, toks).st.nodes| > 0 && SpaceStep(st, toks).st.open != []
    ensures |SpaceStep(st, toks).st.open| > 1 ==> SpaceStep(st, toks).st.open[0] == SpaceStep(st, toks).st.open[1] == 0
    ensures |SpaceStep(st, toks).st.open| == 1 ==> Limit(SpaceStep(st, toks).st.nodes) <= SpaceStep(st, toks).st.stop
  {
    hide ReadId;
  }

  lemma FullStops(st: Area, toks: seq<Token>)
    requires st.open != [] && Limit(st.nodes) <= st.stop
    ensures ReadSpace(st, toks) == None
  {}

  lemma FailStops(st: Area, toks: seq<Token>)
    requires st.open != [] && !SpaceStep(st, toks).More?
    ensures ReadSpace(st, toks) == None
  {}

  /** Whatever the text, if two '(' open node 0, the first reader fails. */
  lemma {:induction false} RootTwiceFails(st: Area, toks: seq<Token>)
    requires |st.nodes| > 0 && st.stop == 0 && (forall k :: 0 <= k < |st.open| ==> st.open[k] == 0) && |st.open| + RootParens(toks) > 1
    ensures ReadSpace(st, toks) == None
    decreases |toks|
  {
    hide ReadSpace, ReadId;
    if |st.open| > 1 {
      InnerRootFails(st, toks);
    } else if SpaceStep(st, toks).More? {
      var step := SpaceStep(st, toks);
      Turns(st, toks);
      RootTwiceFails(step.st, step.toks);
    } else {
      assert SpaceStep(st, toks) == Fail;
      StartFails(st, toks);
    }
  }

  lemma StartFails(st: Area, toks: seq<Token>)
    requires SpaceStep(st, toks) == Fail
    ensures ReadSpace(st, toks) == None
  {
    hide SpaceStep;
  }

  /** ((1)2): the other reader finds two nodes. */
  lemma RootTwiceDiffers(nodes: seq<ForestNode>)
    requires Whole(nodes)
    ensures var toks := [LPar, LPar, Num(1), RPar, Num(2), RPar];
      && Filled(toks, false) && ReadSpace(Area(nodes, 0, [], false, map[]), toks) == None
      && ReadAlloc(EMPTY, toks) == Some([ForestNode(2, Rule(1)), ForestNode(2, Rule(2))])
  {
    RootTwiceText(1, 2);
    ReadersAgree(nodes, [LPar, LPar, Num(1), RPar, Num(2), RPar]);
    AllocRootTwice(1, 2);
  }

  lemma RootTwiceText(a: nat, b: nat)
    ensures var toks := [LPar, LPar, Num(a), RPar, Num(b), RPar]; Filled(toks, false) && RootParens(toks) == 2
  {
    var toks := [LPar, LPar, Num(a), RPar, Num(b), RPar];
    assert Filled(toks[5..], false) && Filled(toks[4..], false) && Filled(toks[3..], false) && Filled(toks[2..], true);
    assert Filled(toks[1..], true);
    assert RootParens(toks[2..]) == 0;
    assert toks[1..][1..] == toks[2..];
  }

  lemma AllocRootTwice(a: nat, b: nat)
    requires a > 0 && b > 0
    ensures ReadAlloc(EMPTY, [LPar, LPar, Num(a), RPar, Num(b), RPar]) == Some([ForestNode(2, Rule(a)), ForestNode(2, Rule(b))])
  {
    hide ReadId;
    var toks := [LPar, LPar, Num(a), RPar, Num(b), RPar];
    var none: seq<nat> := [];
    assert none + [0] == [0] && [0] + [0] == [0, 0] && [0, 0][..1] == [0];
    var al1 := Stack([], [0, 0], true, map[]);
    assert AllocStep(EMPTY, toks) == More(Stack([], [0], true, map[]), toks[1..]);
    assert AllocStep(Stack([], [0], true, map[]), toks[1..]) == More(al1, toks[2..]);
    AllocAfterTwo(al1, toks[2..], a, b);
  }

  lemma AllocTurns(al: Stack, toks: seq<Token>, al': Stack, toks': seq<Token>)
    requires AllocStep(al, toks) == More(al', toks')
    ensures ReadAlloc(al, toks) == ReadAlloc(al', toks')
  {
    hide AllocStep;
  }

  lemma AllocAfterTwo(al: Stack, toks: seq<Token>, a: nat, b: nat)
    requires al == Stack([], [0, 0], true, map[]) && toks == [Num(a), RPar, Num(b), RPar] && a > 0 && b > 0
    ensures ReadAlloc(al, toks) == Some([ForestNode(2, Rule(a)), ForestNode(2, Rule(b))])
  {
    hide ReadId, ReadAlloc;
    var noNodes: seq<ForestNode> := [];
    assert noNodes + [ForestNode(0, Rule(a))] == [ForestNode(0, Rule(a))];
    var al1 := Stack([ForestNode(0, Rule(a))], [0, 0], false, map[]);
    AllocTurns(al, toks, al1, toks[1..]);
    var al2 := Stack([ForestNode(1, Rule(a))], [0], false, map[]);
    assert [ForestNode(0, Rule(a))][0 := ForestNode(1, Rule(a))] == [ForestNode(1, Rule(a))] && [0, 0][..1] == [0];
    AllocTurns(al1, toks[1..], al2, toks[2..]);
    var al3 := Stack([ForestNode(1, Rule(a)), ForestNode(2, Rule(b))], [0], false, map[]);
    assert [ForestNode(1, Rule(a))] + [ForestNode(2, Rule(b))] == [ForestNode(1, Rule(a)), ForestNode(2, Rule(b))];
    AllocTurns(al2, toks[2..], al3, toks[3..]);
    AllocLast(al3, toks[3..], a, b);
  }

  lemma AllocLast(al: Stack, toks: seq<Token>, a: nat, b: nat)
    requires al == Stack([ForestNode(1, Rule(a)), ForestNode(2, Rule(b))], [0], false, map[]) && toks == [RPar]
    ensures ReadAlloc(al, toks) == Some([ForestNode(2, Rule(a)), ForestNode(2, Rule(b))])
  {
    hide ReadId;
    assert AllocStep(al, toks) == Done([ForestNode(2, Rule(a)), ForestNode(2, Rule(b))]);
  }

  /** ()1: the ')' moves the end of the space to its start, and the first reader fails; the other is done, with no nodes. */
  lemma EmptyParensDiffer(nodes: seq<ForestNode>)
    requires Whole(nodes)
    ensures var toks := [LPar, RPar, Num(1)];
      ReadSpace(Area(nodes, 0, [], false, map[]), toks) == None && ReadAlloc(EMPTY, toks) == Some([])
  {
    hide ReadSpace, ReadAlloc, ReadId;
    var toks, st := [LPar, RPar, Num(1)], Area(nodes, 0, [], false, map[]);
    var none: seq<nat> := [];
    assert none + [0] == [0] && [0][..0] == none;
    var st1 := Area(nodes, 0, [0], true, map[]);
    assert SpaceStep(st, toks) == More(st1, toks[1..]);
    var st2 := Area(nodes[0 := nodes[0].(next := 0)], 0, [], true, map[]);
    assert SpaceStep(st1, toks[1..]) == More(st2, toks[2..]);
    Turns(st, toks);
    Turns(st1, toks[1..]);
    StartFails(st2, toks[2..]);
    AllocParens();
  }

  lemma AllocParens()
    ensures ReadAlloc(EMPTY, [LPar, RPar, Num(1)]) == Some([])
  {
    var none: seq<nat> := [];
    assert none + [0] == [0] && [LPar, RPar, Num(1)][1..] == [RPar, Num(1)];
    assert AllocStep(EMPTY, [LPar, RPar, Num(1)]) == More(Stack([], [0], true, map[]), [RPar, Num(1)]);
  }

  lemma SameSpace(st: Area, toks: seq<Token>)
    requires SpaceStep(st, toks).More?
    ensures |SpaceStep(st, toks).st.nodes| == |st.nodes|
  {}

  lemma AtEnd(st: Area, toks: seq<Token>, forest: seq<ForestNode>)
    requires AboutToEnd(st, forest)
    ensures ReadSpace(st, toks) == Some(forest)
  {}

  // ----- the printed text -----

  lemma {:induction false} FilledConcat(a: seq<Token>, b: seq<Token>, after: bool)
    requires Filled(a, after) && a != [] && a[|a| - 1] != LPar && a[|a| - 1] != Space && Filled(b, false)
    ensures Filled(a + b, after)
    decreases |a|
  {
    assert (a + b)[1..] == a[1..] + b;
    if |a| > 1 {
      FilledConcat(a[1..], b, if a[0] == Space then after else a[0] == LPar);
    } else {
      assert a[1..] + b == b;
    }
  }

  lemma {:induction false} FilledRPars(n: nat, rest: seq<Token>)
    requires Filled(rest, false)
    ensures Filled(RPars(n) + rest, false)
  {
    if n == 0 {
      assert RPars(0) + rest == rest;
    } else {
      FilledRPars(n - 1, rest);
      assert (RPars(n) + rest)[1..] == RPars(n - 1) + rest;
    }
  }

  lemma FilledNode(f: seq<ForestNode>, ids: seq<nat>, p: nat)
    requires IsForest(f) && GoodIds(f, ids) && p < |f|
    ensures var a := NodeText(f, ids, p); Filled(a, false) && a != [] && a[|a| - 1] != LPar && a[|a| - 1] != Space
  {
    var a := NodeText(f, ids, p);
    NodeParts(f, p);
    match f[p].lab
    case Ref(t) => FilledMark(ids[t], []);
    case Rule(r) =>
      var lab := if r == OR_INT then Or else Num(r);
      FilledCons(lab, [], true);
      FilledCons(LPar, [lab], false);
      FilledCons(RPar, [], false);
      FilledCons(Num(r), [RPar], true);
      FilledCons(LPar, [Num(r), RPar], false);
      FilledCons(Num(r), [], false);
      assert [LPar] + [lab] == [LPar, lab] && [Num(r)] + [RPar] == [Num(r), RPar];
      assert [LPar] + [Num(r), RPar] == [LPar, Num(r), RPar];
      if ids[p] > 0 {
        FilledMark(ids[p], [LPar, lab]);
        FilledMark(ids[p], [LPar, Num(r), RPar]);
      }
  }

  lemma FilledCons(t: Token, rest: seq<Token>, after: bool)
    requires t != Space && (t == RPar ==> !after) && Filled(rest, t == LPar)
    ensures Filled([t] + rest, after)
  {
    assert ([t] + rest)[1..] == rest;
  }

  lemma FilledMark(id: nat, rest: seq<Token>)
    requires Filled(rest, false)
    ensures Filled([Hash, Num(id)] + rest, false)
  {
    FilledCons(Num(id), rest, false);
    FilledCons(Hash, [Num(id)] + rest, false);
    assert [Hash] + ([Num(id)] + rest) == [Hash, Num(id)] + rest;
  }

  lemma {:induction false} TextFilled(f: seq<ForestNode>, ids: seq<nat>, p: nat, s: seq<nat>)
    requires IsForest(f) && GoodIds(f, ids) && p <= |f|
    ensures Filled(TextFrom(f, ids, p, s), false)
    decreases |f| - p
  {
    hide IsForest, GoodIds, NodeText, Popped;
    if p == |f| {
      FilledRPars(|s|, []);
      assert RPars(|s|) + [] == TextFrom(f, ids, p, s);
    } else {
      var s1 := Popped(f, s, p);
      var later := TextFrom(f, ids, p + 1, Deeper(f, p, s1));
      TextFilled(f, ids, p + 1, Deeper(f, p, s1));
      TextStep(f, ids, p, s);
      FilledNode(f, ids, p);
      FilledConcat(NodeText(f, ids, p), later, false);
      var tail := NodeText(f, ids, p) + later;
      var blank := if p > 0 then [Space] else [];
      assert blank + tail == if p > 0 then [Space] + tail else tail;
      assert ([Space] + tail)[1..] == tail;
      FilledRPars(|s| - |s1|, blank + tail);
    }
  }

  /** The allocating reader, too, reads back what was printed. */
  lemma AllocRoundTrip(f: seq<ForestNode>, ids: seq<nat>)
    requires IsForest(f) && GoodIds(f, ids)
    ensures ReadAlloc(EMPTY, TextFrom(f, ids, 0, [])) == Some(f)
  {
    var nodes := seq(|f| + 1, _ => ForestNode(|f| + 1, Rule(0)));
    TextFilled(f, ids, 0, []);
    SpaceRoundTrip(f, ids, Area(nodes, 0, [], false, map[]));
    ReadersAgree(nodes, TextFrom(f, ids, 0, []));
  }
}
