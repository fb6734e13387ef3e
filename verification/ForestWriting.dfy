/** The text of a derivation (forest-em/forest.hpp), and reading it back. */
module ForestWriting {
  import opened Forests
  import opened Options

  datatype Written = Open | Close | Blank | RuleId(n: nat) | Weight(x: real)

  ghost function Show(t: Tree): seq<Written> {
    match t
    case Pick(_, sub) => Show(sub)
    case Apply(rule, kids) => if kids == [] then [RuleId(rule)] else [Open, RuleId(rule)] + ShowAll(kids) + [Close]
  }

  ghost function ShowAll(ts: seq<Tree>): seq<Written> {
    if |ts| == 0 then [] else [Blank] + Show(ts[0]) + ShowAll(ts[1..])
  }

  // ----- what the text says -----

  /** The rule numbers in a text, in order. */
  ghost function Ids(ws: seq<Written>): seq<nat> {
    if |ws| == 0 then [] else (if ws[0].RuleId? then [ws[0].n] else []) + Ids(ws[1..])
  }

  lemma {:induction false} IdsConcat(x: seq<Written>, y: seq<Written>)
    ensures Ids(x + y) == Ids(x) + Ids(y)
  {
    hide Ids;
    IdsParts(x);
    IdsParts(x + y);
    if |x| == 0 {
      assert x + y == y;
    } else {
      IdsConcat(x[1..], y);
      assert (x + y)[1..] == x[1..] + y && (x + y)[0] == x[0];
    }
  }

  lemma IdsParts(x: seq<Written>)
    ensures Ids(x) == if |x| == 0 then [] else (if x[0].RuleId? then [x[0].n] else []) + Ids(x[1..])
  {}

  lemma IdsOne(w: Written)
    ensures Ids([w]) == if w.RuleId? then [w.n] else []
  {
    assert [w][1..] == [];
  }

  /** The rules of the derivation, in preorder. */
  lemma {:induction false} ShownIds(t: Tree)
    ensures Ids(Show(t)) == RulesOf(t)
  {
    match t
    case Pick(_, sub) => ShownIds(sub);
    case Apply(rule, kids) =>
      IdsOne(RuleId(rule));
      if kids != [] {
        AllShownIds(kids);
        IdsConcat([Open, RuleId(rule)] + ShowAll(kids), [Close]);
        IdsConcat([Open, RuleId(rule)], ShowAll(kids));
        IdsConcat([Open], [RuleId(rule)]);
        assert [Open] + [RuleId(rule)] == [Open, RuleId(rule)];
        IdsOne(Open);
        IdsOne(Close);
      }
  }

  lemma {:induction false} AllShownIds(ts: seq<Tree>)
    ensures Ids(ShowAll(ts)) == RulesOfAll(ts)
  {
    if |ts| > 0 {
      ShownIds(ts[0]);
      AllShownIds(ts[1..]);
      IdsConcat([Blank] + Show(ts[0]), ShowAll(ts[1..]));
      IdsConcat([Blank], Show(ts[0]));
      IdsOne(Blank);
    }
  }

  /** A derivation without the choices at OR nodes: its rules, bracketed. */
  datatype Term = Term(rule: nat, kids: seq<Term>)

  ghost function Bare(t: Tree): Term {
    match t
    case Pick(_, sub) => Bare(sub)
    case Apply(rule, kids) => Term(rule, BareAll(kids))
  }

  ghost function BareAll(ts: seq<Tree>): (r: seq<Term>)
    ensures |r| == |ts|
  {
    if |ts| == 0 then [] else [Bare(ts[0])] + BareAll(ts[1..])
  }

  /** A rule number, or an open parenthesis, a rule number, terms with a blank before each, and a closing one. */
  function ReadTerm(ws: seq<Written>, i: nat): (r: Option<(Term, nat)>)
    ensures r.Some? ==> i < r.value.1 <= |ws|
    decreases |ws| - i
  {
    if i >= |ws| then None
    else if ws[i].RuleId? then Some((Term(ws[i].n, []), i + 1))
    else if ws[i].Open? && i + 1 < |ws| && ws[i + 1].RuleId? then
      var kids := ReadKids(ws, i + 2);
      if kids.Some? && kids.value.0 != [] && kids.value.1 < |ws| && ws[kids.value.1].Close?
      then Some((Term(ws[i + 1].n, kids.value.0), kids.value.1 + 1)) else None
    else None
  }

  function ReadKids(ws: seq<Written>, i: nat): (r: Option<(seq<Term>, nat)>)
    requires i <= |ws|
    ensures r.Some? ==> i <= r.value.1 <= |ws|
    decreases |ws| - i
  {
    if i == |ws| || !ws[i].Blank? then Some(([], i)) else
    var first := ReadTerm(ws, i + 1);
    if first.None? then None else
    var rest := ReadKids(ws, first.value.1);
    if rest.None? then None else Some(([first.value.0] + rest.value.0, rest.value.1))
  }

  /** The term that the whole text is. */
  function ReadBack(ws: seq<Written>): Option<Term> {
    var r := ReadTerm(ws, 0);
    if r.Some? && r.value.1 == |ws| then Some(r.value.0) else None
  }

  ghost predicate StandsAt(ws: seq<Written>, i: nat, part: seq<Written>) {
    i + |part| <= |ws| && ws[i..i + |part|] == part
  }

  lemma StandsParts(ws: seq<Written>, i: nat, x: seq<Written>, y: seq<Written>)
    requires StandsAt(ws, i, x + y)
    ensures StandsAt(ws, i, x) && StandsAt(ws, i + |x|, y)
  {
    assert ws[i..i + |x|] == ws[i..i + |x + y|][..|x|] == (x + y)[..|x|] == x;
    assert ws[i + |x|..i + |x| + |y|] == ws[i..i + |x + y|][|x|..] == (x + y)[|x|..] == y;
  }

  lemma StandsOne(ws: seq<Written>, i: nat, w: Written)
    requires StandsAt(ws, i, [w])
    ensures i < |ws| && ws[i] == w
  {
    assert ws[i] == ws[i..i + 1][0];
  }

  lemma TermIsRead(ws: seq<Written>, i: nat, rule: nat, kids: seq<Term>, j: nat)
    requires i + 1 < j < |ws| && ws[i].Open? && ws[i + 1] == RuleId(rule) && ws[j].Close?
    requires kids != [] && ReadKids(ws, i + 2) == Some((kids, j))
    ensures ReadTerm(ws, i) == Some((Term(rule, kids), j + 1))
  {
    hide ReadKids;
  }

  lemma KidIsRead(ws: seq<Written>, i: nat, kid: Term, j: nat, kids: seq<Term>, e: nat)
    requires i < j <= |ws| && ws[i].Blank? && ReadTerm(ws, i + 1) == Some((kid, j)) && ReadKids(ws, j) == Some((kids, e))
    ensures ReadKids(ws, i) == Some(([kid] + kids, e))
  {
    hide ReadTerm;
  }

  lemma ShownParts(ws: seq<Written>, i: nat, rule: nat, kids: seq<Tree>)
    requires kids != [] && StandsAt(ws, i, Show(Apply(rule, kids)))
    ensures i + 2 + |ShowAll(kids)| < |ws| && |Show(Apply(rule, kids))| == 3 + |ShowAll(kids)|
    ensures ws[i].Open? && ws[i + 1] == RuleId(rule) && StandsAt(ws, i + 2, ShowAll(kids)) && ws[i + 2 + |ShowAll(kids)|].Close?
  {
    hide ShowAll, StandsAt;
    StandsParts(ws, i, [Open, RuleId(rule)] + ShowAll(kids), [Close]);
    StandsParts(ws, i, [Open, RuleId(rule)], ShowAll(kids));
    assert [Open, RuleId(rule)] == [Open] + [RuleId(rule)];
    StandsParts(ws, i, [Open], [RuleId(rule)]);
    StandsOne(ws, i, Open);
    StandsOne(ws, i + 1, RuleId(rule));
    StandsOne(ws, i + 2 + |ShowAll(kids)|, Close);
  }

  lemma {:induction false} ReadsShown(ws: seq<Written>, i: nat, t: Tree)
    requires StandsAt(ws, i, Show(t))
    ensures ReadTerm(ws, i) == Some((Bare(t), i + |Show(t)|))
    decreases t, 0
  {
    hide StandsAt, ShowAll, BareAll, ReadKids;
    match t
    case Pick(_, sub) => ReadsShown(ws, i, sub);
    case Apply(rule, kids) =>
      if kids == [] {
        assert BareAll([]) == [];
        StandsOne(ws, i, RuleId(rule));
      } else {
        ShownParts(ws, i, rule, kids);
        ReadsAllShown(ws, i + 2, kids);
        TermIsRead(ws, i, rule, BareAll(kids), i + 2 + |ShowAll(kids)|);
      }
  }

  lemma ShownKids(ws: seq<Written>, i: nat, ts: seq<Tree>)
    requires ts != [] && StandsAt(ws, i, ShowAll(ts))
    ensures var j := i + 1 + |Show(ts[0])|;
      && j <= |ws| && ws[i].Blank? && StandsAt(ws, i + 1, Show(ts[0])) && StandsAt(ws, j, ShowAll(ts[1..]))
      && i + |ShowAll(ts)| == j + |ShowAll(ts[1..])|
  {
    hide *;
    ShowAllParts(ts);
    StandsThree(ws, i, Show(ts[0]), ShowAll(ts[1..]));
  }

  lemma ShowAllParts(ts: seq<Tree>)
    requires ts != []
    ensures ShowAll(ts) == [Blank] + Show(ts[0]) + ShowAll(ts[1..])
  {
    hide Show;
  }

  lemma StandsThree(ws: seq<Written>, i: nat, first: seq<Written>, rest: seq<Written>)
    requires StandsAt(ws, i, [Blank] + first + rest)
    ensures var j := i + 1 + |first|;
      && j <= |ws| && ws[i].Blank? && StandsAt(ws, i + 1, first) && StandsAt(ws, j, rest)
      && i + |[Blank] + first + rest| == j + |rest|
  {
    hide StandsAt;
    StandsParts(ws, i, [Blank] + first, rest);
    StandsParts(ws, i, [Blank], first);
    StandsOne(ws, i, Blank);
    StandsEnd(ws, i + 1, first);
  }

  lemma StandsEnd(ws: seq<Written>, i: nat, part: seq<Written>)
    requires StandsAt(ws, i, part)
    ensures i + |part| <= |ws|
  {}

  lemma {:induction false} ReadsAllShown(ws: seq<Written>, i: nat, ts: seq<Tree>)
    requires StandsAt(ws, i, ShowAll(ts)) && i + |ShowAll(ts)| < |ws| && ws[i + |ShowAll(ts)|].Close?
    ensures ReadKids(ws, i) == Some((BareAll(ts), i + |ShowAll(ts)|))
    decreases ts, 1
  {
    if |ts| > 0 {
      hide StandsAt, Show, ShowAll, Bare, ReadTerm, ReadKids;
      ShownKids(ws, i, ts);
      var j := i + 1 + |Show(ts[0])|;
      ReadsShown(ws, i + 1, ts[0]);
      ReadsAllShown(ws, j, ts[1..]);
      KidIsRead(ws, i, Bare(ts[0]), j, BareAll(ts[1..]), i + |ShowAll(ts)|);
    }
  }

  /** The text determines the rules of the derivation and their bracketing. */
  lemma ShownReadsBack(t: Tree)
    ensures ReadBack(Show(t)) == Some(Bare(t))
  {
    assert StandsAt(Show(t), 0, Show(t));
    ReadsShown(Show(t), 0, t);
  }
}
